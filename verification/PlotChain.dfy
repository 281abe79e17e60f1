// A plot nonce: a buffer of 8192 slots of 32 bytes filled from the end by a chain of
// Shabal-256 hashes, then XORed with a final hash. Memory is in 4-byte cells: every
// byte offset of generate_nonces_32 is four times a cell offset here.
module PlotChain {
  import opened Wrappers
  import opened Words
  import opened KeyedPermutation
  import opened Shabal

  const HASH_WORDS: nat := 8
  const CAP_WORDS: nat := 1024
  const NUM_SLOTS: nat := 8192
  const NONCE_WORDS: nat := 65536

  // seed (8 words), payload (5 words), big-endian nonce (2 words)
  type Tail = t: seq<Word> | |t| == 15 witness Zeros(15)

  function BigEndian64(n: nat): (b: seq<Byte>)
    ensures |b| == 8
  {
    var low, high := n % WORD_RANGE, n / WORD_RANGE % WORD_RANGE;
    Reverse4(BytesOfWord(high)) + Reverse4(BytesOfWord(low))
  }

  function Reverse4(b: seq<Byte>): (r: seq<Byte>)
    requires |b| == 4
    ensures |r| == 4
  {
    [b[3], b[2], b[1], b[0]]
  }

  // The bytes are those of a 64-bit number, most significant first.
  ghost predicate Numeral(b: seq<Byte>, n: nat) {
    |b| == 8 && BigValue(b) == n % U64_RANGE
  }

  lemma NumeralIs(b: seq<Byte>, n: nat)
    ensures Numeral(b, n) <==> b == BigEndian64(n)
  {
    hide BytesOfWord, WordOfBytes, BigValue;
    var low, high := n % WORD_RANGE, n / WORD_RANGE % WORD_RANGE;
    BigConcat(Reverse4(BytesOfWord(high)), Reverse4(BytesOfWord(low)));
    ReversedIsBigEndian(BytesOfWord(high));
    ReversedIsBigEndian(BytesOfWord(low));
    WordRoundTrip(high);
    WordRoundTrip(low);
    Pow2At32();
    HighAndLow(n);
    if Numeral(b, n) {
      SameNumeral(b, BigEndian64(n));
    }
  }

  lemma HighAndLow(n: nat)
    ensures WORD_RANGE * (n / WORD_RANGE % WORD_RANGE) + n % WORD_RANGE == n % U64_RANGE
  {
    var q := n / WORD_RANGE;
    DivParts(n, WORD_RANGE);
    DivParts(q, WORD_RANGE);
    DivModUnique(n, U64_RANGE, q / WORD_RANGE, WORD_RANGE * (q % WORD_RANGE) + n % WORD_RANGE);
  }

  function TailOf(payload: seq<Byte>, seed: seq<Byte>, nonce: nat): Tail
    requires |payload| == 20 && |seed| == 32
  {
    WordsOfBytes(seed) + WordsOfBytes(payload) + WordsOfBytes(BigEndian64(nonce))
  }

  // ----- the chain -----

  // The slot written in front of buf: a hash of the next 4096 bytes, or, while there are fewer,
  // of everything written so far followed by seed, payload and nonce.
  function NextSlot(tail: Tail, buf: seq<Word>): (h: seq<Word>)
    ensures |h| == 8
  {
    Hash(if |buf| < CAP_WORDS then buf + tail else buf[..CAP_WORDS])
  }

  // The buffer once its last k slots are buf.
  function Fill(tail: Tail, buf: seq<Word>, k: nat): (r: seq<Word>)
    requires |buf| == HASH_WORDS * k && k <= NUM_SLOTS
    ensures |r| == NONCE_WORDS
    decreases NUM_SLOTS - k, |tail|
  {
    if k == NUM_SLOTS then buf else Fill(tail, NextSlot(tail, buf) + buf, k + 1)
  }

  function XorFinal(buf: seq<Word>, final: seq<Word>): (r: seq<Word>)
    requires |final| == 8
    ensures |r| == |buf|
  {
    seq(|buf|, i requires 0 <= i < |buf| => Xor(buf[i], final[i % 8]))
  }

  function PlotNonce(tail: Tail): (r: seq<Word>)
    ensures |r| == NONCE_WORDS
  {
    var buf := Fill(tail, [], 0);
    XorFinal(buf, Hash(buf + tail))
  }

  function Slot(buf: seq<Word>, j: nat): (h: seq<Word>)
    requires 8 * j + 8 <= |buf|
    ensures |h| == 8
  {
    buf[8 * j..8 * j + 8]
  }

  // Every slot of the filled buffer is the hash of what lies behind it.
  lemma {:induction false} FillIsChain(tail: Tail, buf: seq<Word>, k: nat, j: nat)
    requires |buf| == HASH_WORDS * k && k <= NUM_SLOTS && j < NUM_SLOTS
    ensures var r := Fill(tail, buf, k);
      && r[HASH_WORDS * (NUM_SLOTS - k)..] == buf
      && (j < NUM_SLOTS - k ==> Slot(r, j) == NextSlot(tail, r[8 * j + 8..]))
    decreases NUM_SLOTS - k
  {
    hide NextSlot;
    if k < NUM_SLOTS {
      var next := NextSlot(tail, buf) + buf;
      FillIsChain(tail, next, k + 1, j);
      var r, n := Fill(tail, buf, k), NUM_SLOTS - k - 1;
      assert r == Fill(tail, next, k + 1);
      assert r[8 * n..] == next;
      assert r[8 * n + 8..] == r[8 * n..][8..] == buf;
      if j == n {
        assert Slot(r, j) == r[8 * n..][..8] == NextSlot(tail, buf);
      }
    }
  }

  // The bytes that the textbook form of slot j hashes.
  function SlotMessage(rest: seq<Byte>, payload: seq<Byte>, seed: seq<Byte>, number: seq<Byte>): seq<Byte> {
    if |rest| < 4096 then rest + seed + payload + number else rest[..4096]
  }

  // The same statement about bytes and Shabal-256 with its ordinary padding.
  lemma ChainIsTextbook(payload: seq<Byte>, seed: seq<Byte>, nonce: nat, number: seq<Byte>, j: nat)
    requires |payload| == 20 && |seed| == 32 && Numeral(number, nonce) && j < NUM_SLOTS
    ensures var r := Fill(TailOf(payload, seed, nonce), [], 0);
      BytesOfWords(Slot(r, j)) == Shabal256Of(SlotMessage(BytesOfWords(r[8 * j + 8..]), payload, seed, number))
  {
    hide Hash, Fill, WordsOfBytes, BytesOfWords, BigEndian64, Numeral, Shabal256Of;
    NumeralIs(number, nonce);
    var tail := TailOf(payload, seed, nonce);
    var r := Fill(tail, [], 0);
    FillIsChain(tail, [], 0, j);
    var buf := r[8 * j + 8..];
    if |buf| < CAP_WORDS {
      HashIsShabal256(buf + tail);
      BytesOfConcat(buf, tail);
      TailBytes(payload, seed, nonce);
      assert BytesOfWords(buf) + (seed + payload + number) == BytesOfWords(buf) + seed + payload + number;
    } else {
      HashIsShabal256(buf[..CAP_WORDS]);
      BytesOfConcat(buf[..CAP_WORDS], buf[CAP_WORDS..]);
      assert buf == buf[..CAP_WORDS] + buf[CAP_WORDS..];
    }
  }

  // Every slot of a plotted nonce is its slot of the chain XORed with one hash of the whole
  // chain and its seed, payload and number.
  lemma NonceIsTextbook(payload: seq<Byte>, seed: seq<Byte>, nonce: nat, number: seq<Byte>, j: nat, k: nat)
    requires |payload| == 20 && |seed| == 32 && Numeral(number, nonce) && j < NUM_SLOTS && k < 8
    ensures var r := Fill(TailOf(payload, seed, nonce), [], 0);
            var final := WordsOfBytes(Shabal256Of(BytesOfWords(r) + seed + payload + number));
            PlotNonce(TailOf(payload, seed, nonce))[8 * j + k] == Xor(Slot(r, j)[k], final[k])
  {
    hide Hash, Fill, WordsOfBytes, BytesOfWords, BigEndian64, Numeral, Shabal256Of, Xor, TailOf;
    NumeralIs(number, nonce);
    var tail := TailOf(payload, seed, nonce);
    var r := Fill(tail, [], 0);
    HashIsShabal256(r + tail);
    BytesOfConcat(r, tail);
    TailBytes(payload, seed, nonce);
    assert BytesOfWords(r) + (seed + payload + number) == BytesOfWords(r) + seed + payload + number;
    WordsOfBytesOfWords(Hash(r + tail));
    assert (8 * j + k) % 8 == k;
  }

  lemma BytesOfConcat(x: seq<Word>, y: seq<Word>)
    ensures BytesOfWords(x + y) == BytesOfWords(x) + BytesOfWords(y)
  {
    hide BytesOfWord;
    forall i | 0 <= i < 4 * |x + y|
      ensures BytesOfWords(x + y)[i] == (BytesOfWords(x) + BytesOfWords(y))[i]
    {
      if i >= 4 * |x| {
        assert i / 4 - |x| == (i - 4 * |x|) / 4;
      }
    }
  }

  lemma TailBytes(payload: seq<Byte>, seed: seq<Byte>, nonce: nat)
    requires |payload| == 20 && |seed| == 32
    ensures BytesOfWords(TailOf(payload, seed, nonce)) == seed + payload + BigEndian64(nonce)
  {
    hide WordsOfBytes, BytesOfWords, BigEndian64;
    BytesOfConcat(WordsOfBytes(seed) + WordsOfBytes(payload), WordsOfBytes(BigEndian64(nonce)));
    BytesOfConcat(WordsOfBytes(seed), WordsOfBytes(payload));
    BytesOfWordsOfBytes(seed);
    BytesOfWordsOfBytes(payload);
    BytesOfWordsOfBytes(BigEndian64(nonce));
  }

  // ----- the hand-built termination blocks -----

  function T1(tail: Tail): Block { tail + [0x80] }
  function T2(tail: Tail): Block { tail[8..] + [0x80] + Zeros(8) }
  function PT2(tail: Tail, first: seq<Word>): Block
    requires |first| == 8
  {
    first + tail[..8]
  }

  function T3(): Block { [0x80] + Zeros(15) }

  lemma BlocksConcat(x: seq<Word>, y: seq<Word>)
    requires |x| % 16 == 0
    ensures Blocks(x + y) == Blocks(x) + Blocks(y)
  {
    assert |x + y| / 16 == |x| / 16 + |y| / 16;
    forall i | 0 <= i < |x + y| / 16
      ensures Blocks(x + y)[i] == (Blocks(x) + Blocks(y))[i]
    {
      if i >= |x| / 16 {
        assert (x + y)[16 * i..16 * i + 16] == y[16 * i - |x|..16 * i - |x| + 16];
      }
    }
  }

  lemma OneBlock(m: Block)
    ensures Blocks(m) == [m]
  {
    assert m[0..16] == m;
  }

  // Even slot count: the tail and its padding are one block of their own.
  lemma EvenSlot(tail: Tail, buf: seq<Word>)
    requires |buf| % 16 == 0
    ensures Digest(Blocks(buf) + [T1(tail)]) == Hash(buf + tail)
  {
    assert PadWords(buf + tail) == buf + T1(tail);
    BlocksConcat(buf, T1(tail));
    OneBlock(T1(tail));
  }

  // Odd slot count: the last 32 bytes, which the block loop ignores, share a block with the
  // seed, and payload, nonce and padding fill the next.
  lemma OddSlot(tail: Tail, buf: seq<Word>)
    requires |buf| % 16 == 8
    ensures Digest(Blocks(buf) + [PT2(tail, buf[|buf| - 8..])] + [T2(tail)]) == Hash(buf + tail)
  {
    hide Digest;
    var n := |buf| - 8;
    var x, y: seq<Word>, z: seq<Word> := buf[..n], PT2(tail, buf[n..]), T2(tail);
    assert PadWords(buf + tail) == x + (y + z);
    BlocksConcat(x, y + z);
    BlocksConcat(y, z);
    OneBlock(y);
    OneBlock(z);
    assert Blocks(buf) == Blocks(x) by {
      BlocksConcat(x, buf[n..]);
      assert buf == x + buf[n..];
    }
    assert Blocks(x) + ([y] + [z]) == Blocks(buf) + [y] + [z];
  }

  // Past the cap: a message of 4096 bytes ends on a block boundary.
  lemma CappedSlot(buf: seq<Word>)
    requires |buf| == CAP_WORDS
    ensures Digest(Blocks(buf) + [T3()]) == Hash(buf)
  {
    assert PadWords(buf) == buf + T3();
    BlocksConcat(buf, T3());
    OneBlock(T3());
  }

  lemma FillStep(tail: Tail, buf: seq<Word>, k: nat, hash: seq<Word>)
    requires |buf| == HASH_WORDS * k && k < NUM_SLOTS && hash == NextSlot(tail, buf)
    ensures Fill(tail, hash + buf, k + 1) == Fill(tail, buf, k)
  {
  }

  lemma FillDone(tail: Tail, buf: seq<Word>)
    requires |buf| == NONCE_WORDS
    ensures Fill(tail, buf, NUM_SLOTS) == buf
  {
  }

  // What the first loop of generate_nonces_32 hashes for slot k, k from 1 to 127.
  lemma EarlySlot(tail: Tail, buf: seq<Word>, k: nat, i: nat)
    requires 1 <= k < 128 && |buf| == HASH_WORDS * k && i == NONCE_WORDS - |buf|
    ensures 4 * i % 64 == 0 ==> NextSlot(tail, buf) == Digest(MessageBlocks(buf, None, T1(tail)))
    ensures 4 * i % 64 != 0 ==>
      NextSlot(tail, buf) == Digest(MessageBlocks(buf, Some(PT2(tail, buf[|buf| - 8..])), T2(tail)))
  {
    hide Digest, Hash;
    if 4 * i % 64 == 0 {
      EvenSlot(tail, buf);
    } else {
      OddSlot(tail, buf);
    }
  }

  // ----- the scalar generator -----

  method WriteSlot(buffer: array<Word>, i: nat, hash: seq<Word>)
    requires |hash| == 8 && i + 8 <= buffer.Length
    modifies buffer
    ensures buffer[..] == old(buffer[..i]) + hash + old(buffer[i + 8..])
    ensures buffer[i..] == hash + old(buffer[i + 8..])
  {
    for j := 0 to 8
      invariant forall k :: 0 <= k < j ==> buffer[i + k] == hash[k]
      invariant forall k :: 0 <= k < buffer.Length && (k < i || i + 8 <= k) ==> buffer[k] == old(buffer[k])
    {
      buffer[i + j] := hash[j];
    }
  }

  // Rounds 2 to 128: messages that reach the end of the buffer.
  method EarlyRounds(buffer: array<Word>, t1: Block, pt2: Block, t2: Block, ghost tail: Tail)
    requires buffer.Length == NONCE_WORDS
    requires var first := buffer[NONCE_WORDS - 8..];
      first == NextSlot(tail, []) && t1 == T1(tail) && t2 == T2(tail) && pt2 == PT2(tail, first)
    modifies buffer
    ensures Fill(tail, buffer[NONCE_WORDS - CAP_WORDS..], 128) == Fill(tail, [], 0)
  {
    hide Digest, Hash, Fill, NextSlot, T1, T2, PT2;
    ghost var first := buffer[NONCE_WORDS - 8..];
    var i := NONCE_WORDS - HASH_WORDS;
    ghost var k := 1;
    FillStep(tail, [], 0, first);
    assert buffer[i..] == first + [];
    while i >= NONCE_WORDS - CAP_WORDS + HASH_WORDS
      invariant 1 <= k <= 128 && i == NONCE_WORDS - 8 * k
      invariant buffer[NONCE_WORDS - 8..] == first
      invariant Fill(tail, buffer[i..], k) == Fill(tail, [], 0)
      decreases i
    {
      ghost var buf := buffer[i..];
      assert buf[|buf| - 8..] == first;
      EarlySlot(tail, buf, k, i);
      var hash;
      if 4 * i % 64 == 0 {
        hash := Shabal256(buffer[i..], None, t1);
      } else {
        hash := Shabal256(buffer[i..], Some(pt2), t2);
      }
      WriteSlot(buffer, i - HASH_WORDS, hash);
      FillStep(tail, buf, k, hash);
      i := i - HASH_WORDS;
      k := k + 1;
    }
  }

  // Rounds 129 to 8192: messages of the next 4096 bytes.
  method LateRounds(buffer: array<Word>, t3: Block, ghost tail: Tail)
    requires buffer.Length == NONCE_WORDS && t3 == T3()
    modifies buffer
    ensures buffer[..] == Fill(tail, old(buffer[NONCE_WORDS - CAP_WORDS..]), 128)
  {
    hide Digest, Hash, Fill, NextSlot, T3;
    var i := NONCE_WORDS - CAP_WORDS;
    ghost var k := 128;
    ghost var target := Fill(tail, buffer[i..], 128);
    while i >= HASH_WORDS
      invariant 128 <= k <= NUM_SLOTS && i == NONCE_WORDS - 8 * k
      invariant Fill(tail, buffer[i..], k) == target
      decreases i
    {
      ghost var buf := buffer[i..];
      LateSlot(tail, buf);
      assert buffer[i..i + CAP_WORDS] == buf[..CAP_WORDS];
      var hash := Shabal256(buffer[i..i + CAP_WORDS], None, t3);
      WriteSlot(buffer, i - HASH_WORDS, hash);
      FillStep(tail, buf, k, hash);
      i := i - HASH_WORDS;
      k := k + 1;
    }
    FillDone(tail, buffer[i..]);
    assert buffer[..] == buffer[i..];
  }

  // The chain and the final XOR for one (payload, seed, nonce).
  method NonceBuffer(payload: seq<Byte>, seed: seq<Byte>, nonce: nat) returns (buffer: array<Word>)
    requires |payload| == 20 && |seed| == 32
    ensures fresh(buffer) && buffer.Length == NONCE_WORDS
    ensures buffer[..] == PlotNonce(TailOf(payload, seed, nonce))
  {
    hide Digest, Hash, Fill, NextSlot, T1, T2, T3, TailOf;
    ghost var tail := TailOf(payload, seed, nonce);
    var t1, t2, t3, seedWords := Terminations(payload, seed, nonce);
    buffer := new Word[NONCE_WORDS](_ => 0);
    var hash := Shabal256([], None, t1);
    EvenSlot(tail, []);
    FirstSlot(tail);
    WriteSlot(buffer, NONCE_WORDS - HASH_WORDS, hash);
    var pt2 := hash + seedWords;
    assert buffer[NONCE_WORDS - 8..] == hash;
    EarlyRounds(buffer, t1, pt2, t2, tail);
    LateRounds(buffer, t3, tail);
    FinalHash(tail, buffer[..]);
    var final := Shabal256(buffer[..], None, t1);
    XorInPlace(buffer, final);
  }

  method XorInPlace(buffer: array<Word>, final: seq<Word>)
    requires |final| == 8
    modifies buffer
    ensures buffer[..] == XorFinal(old(buffer[..]), final)
  {
    hide Xor;
    for i := 0 to buffer.Length
      invariant forall k :: 0 <= k < i ==> buffer[k] == Xor(old(buffer[k]), final[k % 8])
      invariant forall k :: i <= k < buffer.Length ==> buffer[k] == old(buffer[k])
    {
      buffer[i] := Xor(buffer[i], final[i % HASH_WORDS]);
    }
  }

  method Terminations(payload: seq<Byte>, seed: seq<Byte>, nonce: nat)
    returns (t1: Block, t2: Block, t3: Block, seedWords: seq<Word>)
    requires |payload| == 20 && |seed| == 32
    ensures var tail := TailOf(payload, seed, nonce);
      t1 == T1(tail) && t2 == T2(tail) && t3 == T3() && seedWords == tail[..8]
  {
    seedWords := WordsOfBytes(seed);
    var payloadWords, nonceWords := WordsOfBytes(payload), WordsOfBytes(BigEndian64(nonce));
    t1 := seedWords + payloadWords + nonceWords + [0x80];
    t2 := payloadWords + nonceWords + [0x80] + Zeros(8);
    t3 := [0x80] + Zeros(15);
  }

  lemma FirstSlot(tail: Tail)
    ensures NextSlot(tail, []) == Hash([] + tail) && Blocks([]) + [T1(tail)] == MessageBlocks([], None, T1(tail))
  {
    hide Hash;
  }

  lemma LateSlot(tail: Tail, buf: seq<Word>)
    requires |buf| >= CAP_WORDS
    ensures Digest(MessageBlocks(buf[..CAP_WORDS], None, T3())) == NextSlot(tail, buf)
  {
    hide Digest;
    CappedSlot(buf[..CAP_WORDS]);
  }

  lemma FinalHash(tail: Tail, buf: seq<Word>)
    requires |buf| == NONCE_WORDS
    ensures Digest(MessageBlocks(buf, None, T1(tail))) == Hash(buf + tail)
  {
    hide Digest;
    EvenSlot(tail, buf);
  }
}
