// Shabal-256 over the keyed permutation: the published mode of operation with
// ordinary 0x80 padding, and the pre-padded entry point used everywhere in the
// library, which skips the last three block additions and subtractions.
module Shabal {
  import opened Wrappers
  import opened Words
  import opened KeyedPermutation

  const A_INIT: AState := [
    0x52F84552, 0xE54B7999, 0x2D8EE3EC, 0xB9645191, 0xE0078B86, 0xBB7C44C9,
    0xD2B5C1CA, 0xB0D2EB8C, 0x14CE5A45, 0x22AF50DC, 0xEFFDBC6B, 0xEB21B74A]

  const B_INIT: Block := [
    0xB555C6EE, 0x3E710596, 0xA72A652F, 0x9301515F, 0xDA28C1FA, 0x696FD868, 0x9CB6BF72, 0x0AFE4002,
    0xA6E03615, 0x5138C1D4, 0xBE216306, 0xB38B8890, 0x3EA8B96B, 0x3299ACE4, 0x30924DD4, 0x55CB34A5]

  const C_INIT: Block := [
    0xB405F031, 0xC4233EBA, 0xB3733979, 0xC0DD9D55, 0xC51C28AE, 0xA327B8E1, 0x56C56167, 0xED614433,
    0x88B59D60, 0x60E2CEBA, 0x758B4B8B, 0x83E82A7F, 0xBC968828, 0xE6E00BF7, 0xBA839E55, 0x9B491C60]

  datatype State = State(a: AState, b: Block, c: Block)

  const INIT := State(A_INIT, B_INIT, C_INIT)

  // ----- the published mode -----

  function AddBlock(b: Block, m: Block): Block {
    seq(16, i requires 0 <= i < 16 => Plus(b[i], m[i]))
  }

  function SubBlock(c: Block, m: Block): Block {
    seq(16, i requires 0 <= i < 16 => Minus(c[i], m[i]))
  }

  // The block number as a 64-bit counter, XORed into the first two words of A.
  function XorCounter(a: AState, w: nat): AState {
    a[0 := Xor(a[0], w % WORD_RANGE)][1 := Xor(a[1], w / WORD_RANGE % WORD_RANGE)]
  }

  // One round: add M to B, XOR W into A, apply P, subtract M from C, exchange B and C.
  function Round(s: State, w: nat, m: Block): State {
    var t := P(AB(XorCounter(s.a, w), AddBlock(s.b, m)), s.c, m);
    State(t.a, SubBlock(s.c, m), t.b)
  }

  function Absorb(blocks: seq<Block>): State {
    if |blocks| == 0 then INIT
    else Round(Absorb(blocks[..|blocks| - 1]), |blocks|, blocks[|blocks| - 1])
  }

  // n further rounds on the same block with the same counter.
  function Finish(s: State, w: nat, m: Block, n: nat): State
    decreases n, |m|
  {
    if n == 0 then s else Round(Finish(s, w, m, n - 1), w, m)
  }

  // Three final rounds on the last block; the digest is the upper half of C.
  function Digest(blocks: seq<Block>): (h: seq<Word>)
    requires |blocks| > 0
    ensures |h| == 8
  {
    Finish(Absorb(blocks), |blocks|, blocks[|blocks| - 1], 3).c[8..]
  }

  function Blocks(ws: seq<Word>): (r: seq<Block>)
    ensures |r| == |ws| / 16
  {
    seq(|ws| / 16, i requires 0 <= i < |ws| / 16 => ws[16 * i..16 * i + 16])
  }

  // ----- padding, on bytes and on words -----

  function Zeros(n: nat): (z: seq<Word>)
    ensures |z| == n
  {
    seq(n, _ => 0)
  }

  function ZeroBytes(n: nat): (z: seq<Byte>)
    ensures |z| == n
  {
    seq(n, _ => 0)
  }

  function PadBytes(msg: seq<Byte>): (p: seq<Byte>)
    ensures |p| == 64 * (|msg| / 64 + 1) && msg <= p
  {
    msg + [0x80] + ZeroBytes(63 - |msg| % 64)
  }

  function WordsOfBytes(bs: seq<Byte>): (ws: seq<Word>)
    requires |bs| % 4 == 0
    ensures |ws| == |bs| / 4
  {
    seq(|bs| / 4, i requires 0 <= i < |bs| / 4 => WordOfBytes(bs[4 * i..4 * i + 4]))
  }

  function BytesOfWords(ws: seq<Word>): (bs: seq<Byte>)
    ensures |bs| == 4 * |ws|
  {
    seq(4 * |ws|, i requires 0 <= i < 4 * |ws| => BytesOfWord(ws[i / 4])[i % 4])
  }

  // Shabal-256 of a message of any length in bytes.
  function Shabal256Of(msg: seq<Byte>): (h: seq<Byte>)
    ensures |h| == 32
  {
    BytesOfWords(Digest(Blocks(WordsOfBytes(PadBytes(msg)))))
  }

  function PadWords(ws: seq<Word>): (p: seq<Word>)
    ensures |p| == 16 * (|ws| / 16 + 1) && ws <= p
  {
    ws + [0x80] + Zeros(15 - |ws| % 16)
  }

  // The same hash of a message given in words.
  function Hash(ws: seq<Word>): (h: seq<Word>)
    ensures |h| == 8
  {
    Digest(Blocks(PadWords(ws)))
  }

  lemma WordsOfBytesOfWords(ws: seq<Word>)
    ensures WordsOfBytes(BytesOfWords(ws)) == ws
  {
    hide BytesOfWord, WordOfBytes;
    var bs := BytesOfWords(ws);
    forall i | 0 <= i < |ws|
      ensures WordsOfBytes(bs)[i] == ws[i]
    {
      assert bs[4 * i..4 * i + 4] == BytesOfWord(ws[i]);
      WordRoundTrip(ws[i]);
    }
  }

  lemma BytesOfWordsOfBytes(bs: seq<Byte>)
    requires |bs| % 4 == 0
    ensures BytesOfWords(WordsOfBytes(bs)) == bs
  {
    hide BytesOfWord, WordOfBytes;
    forall i | 0 <= i < |bs|
      ensures BytesOfWords(WordsOfBytes(bs))[i] == bs[i]
    {
      BytesRoundTrip(bs[4 * (i / 4)..4 * (i / 4) + 4]);
    }
  }

  lemma PaddedWord(ws: seq<Word>, i: nat)
    requires i < |PadWords(ws)|
    ensures 4 * i + 4 <= |PadBytes(BytesOfWords(ws))|
    ensures WordOfBytes(PadBytes(BytesOfWords(ws))[4 * i..4 * i + 4]) == PadWords(ws)[i]
  {
    hide BytesOfWord;
    var msg := BytesOfWords(ws);
    assert |msg| / 64 == |ws| / 16;
    var b := PadBytes(msg)[4 * i..4 * i + 4];
    if i < |ws| {
      assert b == msg[4 * i..4 * i + 4];
      WordsOfBytesOfWords(ws);
      assert WordsOfBytes(msg)[i] == ws[i];
    } else if i == |ws| {
      assert b == [0x80, 0, 0, 0];
    } else {
      assert b == [0, 0, 0, 0];
    }
  }

  // On messages of whole words the word form is the byte form.
  lemma HashIsShabal256(ws: seq<Word>)
    ensures BytesOfWords(Hash(ws)) == Shabal256Of(BytesOfWords(ws))
  {
    hide WordsOfBytes, BytesOfWords, Digest, Blocks, PadWords, PadBytes;
    PaddedWords(ws);
  }

  lemma PaddedWords(ws: seq<Word>)
    ensures WordsOfBytes(PadBytes(BytesOfWords(ws))) == PadWords(ws)
  {
    hide BytesOfWords, WordOfBytes, PadWords, PadBytes;
    var p := PadBytes(BytesOfWords(ws));
    PaddedLength(|ws|);
    forall i | 0 <= i < |p| / 4
      ensures WordsOfBytes(p)[i] == PadWords(ws)[i]
    {
      PaddedWord(ws, i);
    }
  }

  lemma PaddedLength(n: nat)
    ensures 64 * (4 * n / 64 + 1) / 4 == 16 * (n / 16 + 1)
  {
    DivParts(n, 16);
    DivModUnique(4 * n, 64, n / 16, 4 * (n % 16));
  }

  // ----- the pre-padded entry point -----

  method InputBlockAdd(b: array<Word>, m: Block)
    requires b.Length == 16
    modifies b
    ensures b[..] == AddBlock(old(b[..]), m)
  {
    hide Plus;
    for i := 0 to 16
      invariant forall k :: 0 <= k < i ==> b[k] == Plus(old(b[k]), m[k])
      invariant forall k :: i <= k < 16 ==> b[k] == old(b[k])
    {
      b[i] := Plus(b[i], m[i]);
    }
  }

  method InputBlockSub(c: array<Word>, m: Block)
    requires c.Length == 16
    modifies c
    ensures c[..] == SubBlock(old(c[..]), m)
  {
    hide Minus;
    for i := 0 to 16
      invariant forall k :: 0 <= k < i ==> c[k] == Minus(old(c[k]), m[k])
      invariant forall k :: i <= k < 16 ==> c[k] == old(c[k])
    {
      c[i] := Minus(c[i], m[i]);
    }
  }

  // The two halves of the 64-bit counter value w.
  ghost predicate Halves(wLow: Word, wHigh: Word, w: nat) {
    wLow == w % WORD_RANGE && wHigh == w / WORD_RANGE % WORD_RANGE
  }

  // The counter after one more block.
  lemma HalvesUp(wLow: Word, wHigh: Word, w: nat)
    requires Halves(wLow, wHigh, w)
    ensures Halves(Plus(wLow, 1), if Plus(wLow, 1) == 0 then Plus(wHigh, 1) else wHigh, w + 1)
  {
    var q, r := w / WORD_RANGE, w % WORD_RANGE;
    DivParts(w, WORD_RANGE);
    Wraps(r + 1, Plus(wLow, 1));
    hide Plus;
    if r + 1 < WORD_RANGE {
      DivModUnique(w + 1, WORD_RANGE, q, r + 1);
    } else {
      DivModUnique(w + 1, WORD_RANGE, q + 1, 0);
      PlusIs(wHigh, 1);
      AddMod(q, 1, WORD_RANGE);
    }
  }

  lemma PlusIs(x: Word, y: Word)
    ensures Plus(x, y) == (x + y) % WORD_RANGE
  {
  }

  // And before it.
  lemma HalvesDown(wLow: Word, wHigh: Word, w: nat)
    requires Halves(wLow, wHigh, w + 1)
    ensures Halves(Minus(wLow, 1), if wLow == 0 then Minus(wHigh, 1) else wHigh, w)
  {
    hide Plus, Minus;
    HalvesUp(w % WORD_RANGE, w / WORD_RANGE % WORD_RANGE, w);
    PlusMinus(w % WORD_RANGE, 1);
    PlusMinus(w / WORD_RANGE % WORD_RANGE, 1);
  }

  method XorW(a: array<Word>, wLow: Word, wHigh: Word, ghost w: nat)
    requires a.Length == 12 && Halves(wLow, wHigh, w)
    modifies a
    ensures a[..] == XorCounter(old(a[..]), w)
  {
    hide Xor;
    a[0] := Xor(a[0], wLow);
    a[1] := Xor(a[1], wHigh);
  }

  method IncrW(wLow: Word, wHigh: Word, ghost w: nat) returns (low: Word, high: Word)
    requires Halves(wLow, wHigh, w)
    ensures Halves(low, high, w + 1)
  {
    hide Halves, Plus;
    HalvesUp(wLow, wHigh, w);
    low, high := Plus(wLow, 1), wHigh;
    if low == 0 {
      high := Plus(wHigh, 1);
    }
  }

  // Everything of a message round but the exchange of B and C, which callers do by swapping names.
  method MessageRound(a: array<Word>, b: array<Word>, c: array<Word>, m: Block,
                      wLow: Word, wHigh: Word, ghost w: nat)
    requires a.Length == 12 && b.Length == 16 && c.Length == 16
    requires a != b && a != c && b != c
    requires Halves(wLow, wHigh, w)
    modifies a, b, c
    ensures State(a[..], c[..], b[..]) == Round(old(State(a[..], b[..], c[..])), w, m)
  {
    hide AddBlock, SubBlock, XorCounter, P;
    InputBlockAdd(b, m);
    XorW(a, wLow, wHigh, w);
    ApplyP(a, b, c[..], m);
    InputBlockSub(c, m);
  }

  // A round whose block addition cancels the subtraction of the round before it.
  lemma RoundAfterSub(s: State, w: nat, m: Block)
    ensures Round(State(s.a, SubBlock(s.c, m), s.b), w, m)
         == var t := P(AB(XorCounter(s.a, w), s.c), s.b, m);
            State(t.a, SubBlock(s.b, m), t.b)
  {
    hide P, XorCounter;
    assert AddBlock(SubBlock(s.c, m), m) == s.c by {
      hide Plus, Minus;
      forall i | 0 <= i < 16
        ensures Plus(Minus(s.c[i], m[i]), m[i]) == s.c[i]
      {
        PlusMinus(s.c[i], m[i]);
      }
    }
  }

  // The blocks of a pre-padded message; words of data beyond a whole number of blocks are ignored.
  function MessageBlocks(data: seq<Word>, preTerm: Option<Block>, term: Block): (r: seq<Block>)
    ensures |r| > 0
  {
    if preTerm.Some? then Blocks(data) + [preTerm.value] + [term] else Blocks(data) + [term]
  }

  // data: the message without its last block (and optionally without the block before it,
  // which is then preTerm). term: the last block, padding included.
  method Shabal256(data: seq<Word>, preTerm: Option<Block>, term: Block) returns (hash: seq<Word>)
    ensures hash == Digest(MessageBlocks(data, preTerm, term))
  {
    hide Round, XorCounter, AddBlock, SubBlock, P, Halves;
    var a := new Word[12](i requires 0 <= i < 12 => A_INIT[i]);
    var b := new Word[16](i requires 0 <= i < 16 => B_INIT[i]);
    var c := new Word[16](i requires 0 <= i < 16 => C_INIT[i]);
    assert State(a[..], b[..], c[..]) == INIT;
    var wHigh: Word, wLow: Word := 0, 1;
    var num := |data| / 16;
    var ptr := 0;
    ghost var done: seq<Block> := [];
    FirstCounter();
    while num > 0
      invariant fresh(a) && fresh(b) && fresh(c) && a != b && a != c && b != c
      invariant a.Length == 12 && b.Length == 16 && c.Length == 16
      invariant ptr == 16 * |done| && num >= 0 && |done| + num == |data| / 16
      invariant done == Blocks(data)[..|done|]
      invariant State(a[..], b[..], c[..]) == Absorb(done)
      invariant Halves(wLow, wHigh, |done| + 1)
      decreases num
    {
      assert ptr + 16 <= 16 * (|data| / 16) <= |data|;
      var m := data[ptr..ptr + 16];
      assert m == Blocks(data)[|done|];
      MessageRound(a, b, c, m, wLow, wHigh, |done| + 1);
      b, c := c, b;
      wLow, wHigh := IncrW(wLow, wHigh, |done| + 1);
      AbsorbOne(done, m);
      done := done + [m];
      ptr := ptr + 16;
      num := num - 1;
    }
    assert Blocks(data)[..|done|] == Blocks(data);
    if preTerm.Some? {
      MessageRound(a, b, c, preTerm.value, wLow, wHigh, |done| + 1);
      b, c := c, b;
      wLow, wHigh := IncrW(wLow, wHigh, |done| + 1);
      AbsorbOne(done, preTerm.value);
      done := done + [preTerm.value];
    }
    hash := Terminate(a, b, c, term, wLow, wHigh, done);
    assert done + [term] == MessageBlocks(data, preTerm, term);
  }

  lemma FirstCounter()
    ensures Halves(1, 0, 1)
  {
  }

  lemma AbsorbOne(done: seq<Block>, m: Block)
    ensures Absorb(done + [m]) == Round(Absorb(done), |done| + 1, m)
  {
    assert (done + [m])[..|done|] == done;
  }

  // The last block and the three final rounds, without the intermediate additions and subtractions.
  method Terminate(a: array<Word>, b: array<Word>, c: array<Word>, term: Block,
                   wLow: Word, wHigh: Word, ghost done: seq<Block>) returns (hash: seq<Word>)
    requires a.Length == 12 && b.Length == 16 && c.Length == 16
    requires a != b && a != c && b != c
    requires State(a[..], b[..], c[..]) == Absorb(done)
    requires Halves(wLow, wHigh, |done| + 1)
    modifies a, b, c
    ensures hash == Digest(done + [term])
  {
    hide XorCounter, AddBlock, SubBlock, P, Absorb, Halves;
    ghost var w := |done| + 1;
    ghost var s := Absorb(done + [term]);
    AbsorbOne(done, term);
    InputBlockAdd(b, term);
    XorW(a, wLow, wHigh, w);
    ApplyP(a, b, c[..], term);
    var x, y := b, c;
    for i := 0 to 3
      invariant x.Length == 16 && y.Length == 16 && a != x && a != y && x != y
      invariant {x, y} == {b, c}
      invariant State(a[..], SubBlock(y[..], term), x[..]) == Finish(s, w, term, i)
    {
      RoundAfterSub(State(a[..], x[..], y[..]), w, term);
      x, y := y, x;
      XorW(a, wLow, wHigh, w);
      ApplyP(a, x, y[..], term);
    }
    hash := x[8..];
    assert (done + [term])[|done|] == term;
  }
}
