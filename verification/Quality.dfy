// Quality of a scoop and the search for the best one: the scalar search, and the
// vector search over batches plus a remainder.
module Quality {
  import opened Words
  import opened KeyedPermutation
  import opened Shabal
  import opened Lanes

  const NO_QUALITY: U64 := MAX_U64

  // Two digest words read as one little-endian 64-bit number.
  function Low64(h: seq<Word>): U64
    requires |h| >= 2
  {
    h[0] as nat + WORD_RANGE * h[1] as nat
  }

  // The quality of a scoop: the first 64 bits of Shabal-256 over generation signature and scoop.
  function QualityOf(scoop: seq<Word>, gensig: seq<Word>): U64 {
    Low64(Hash(gensig + scoop))
  }

  // It is the first eight bytes of the digest as a little-endian number.
  lemma QualityIsLittleEndian(scoop: seq<Word>, gensig: seq<Word>)
    ensures QualityOf(scoop, gensig) == LittleValue(Shabal256Of(BytesOfWords(gensig + scoop))[..8])
  {
    hide Hash, BytesOfWord, WordOfBytes, Shabal256Of;
    var h := Hash(gensig + scoop);
    HashIsShabal256(gensig + scoop);
    var x, y := BytesOfWord(h[0]), BytesOfWord(h[1]);
    assert BytesOfWords(h)[..8] == x + y;
    LittleConcat(x, y);
    WordIsLittleEndian(x);
    WordIsLittleEndian(y);
    WordRoundTrip(h[0]);
    WordRoundTrip(h[1]);
    Pow2At32();
  }

  const LITE_TERM: seq<Word> := [0x80, 0, 0, 0, 0, 0, 0, 0]

  ghost function LiteBlocks(scoop: seq<Word>, gensig: seq<Word>): (r: seq<Block>)
    requires |scoop| == 16 && |gensig| == 8
  {
    [gensig + scoop[..8], scoop[8..] + LITE_TERM]
  }

  // The termination words of the lite hash are the ordinary padding of a 96-byte message.
  lemma LiteIsPadding(scoop: seq<Word>, gensig: seq<Word>)
    requires |scoop| == 16 && |gensig| == 8
    ensures QualityOf(scoop, gensig) == Low64(Digest(LiteBlocks(scoop, gensig)))
  {
    hide Digest;
    var p := PadWords(gensig + scoop);
    var r := Blocks(p);
    assert |p| == 32;
    assert r[0] == p[..16] == gensig + scoop[..8];
    assert r[1] == p[16..32] == scoop[8..] + LITE_TERM;
    assert r == LiteBlocks(scoop, gensig);
  }

  method Shabal256Lite(data: seq<Word>, gensig: seq<Word>) returns (q: U64)
    requires |data| == 16 && |gensig| == 8
    ensures q == QualityOf(data, gensig)
  {
    hide Halves, Round, Digest, Hash;
    var a := new Word[12](i requires 0 <= i < 12 => A_INIT[i]);
    var b := new Word[16](i requires 0 <= i < 16 => B_INIT[i]);
    var c := new Word[16](i requires 0 <= i < 16 => C_INIT[i]);
    assert State(a[..], b[..], c[..]) == Absorb([]);
    FirstCounter();
    MessageRound(a, b, c, gensig + data[..8], 1, 0, 1);
    b, c := c, b;
    var wLow, wHigh := IncrW(1, 0, 1);
    AbsorbOne([], gensig + data[..8]);
    assert [] + [gensig + data[..8]] == [gensig + data[..8]];
    var h := Terminate(a, b, c, data[8..] + LITE_TERM, wLow, wHigh, [gensig + data[..8]]);
    assert [gensig + data[..8]] + [data[8..] + LITE_TERM] == LiteBlocks(data, gensig);
    LiteIsPadding(data, gensig);
    q := h[0] as nat + WORD_RANGE * h[1] as nat;
  }

  lemma DigestOfTwo(blocks: seq<Block>)
    requires |blocks| == 2
    ensures Digest(blocks) == Finish(Absorb(blocks), 2, blocks[1], 3).c[8..]
  {
  }

  // ----- the vector form: five uniform rounds -----

  method DecrW(wLow: Word, wHigh: Word, ghost w: nat) returns (low: Word, high: Word)
    requires Halves(wLow, wHigh, w + 1)
    ensures Halves(low, high, w)
  {
    hide Halves, Minus;
    HalvesDown(wLow, wHigh, w);
    low, high := Minus(wLow, 1), wHigh;
    if wLow == 0 {
      high := Minus(wHigh, 1);
    }
  }

  // Adds the block, permutes, then subtracts the block from C while exchanging B and C. A
  // termination round takes the counter increment back.
  method QualityRound(width: nat, a: array<Reg>, b: array<Reg>, c: array<Reg>, m: seq<Reg>,
                      wLow: Word, wHigh: Word, isTermination: bool, ghost w: nat)
    returns (low: Word, high: Word)
    requires Separate(a, b, c) && Registers(a[..], b[..], c[..], width) && BlockRows(m, width)
    requires Halves(wLow, wHigh, w)
    modifies a, b, c
    ensures Registers(a[..], b[..], c[..], width)
    ensures Halves(low, high, if isTermination then w else w + 1)
    ensures forall l :: 0 <= l < width ==>
      LaneState(a[..], b[..], c[..], width, l)
        == Round(old(LaneState(a[..], b[..], c[..], width, l)), w, Lane(m, width, l))
  {
    hide AddBlock, XorCounter, P, Halves, Minus;
    VInputBlockAdd(width, b, m);
    VXorW(width, a, wLow, wHigh, w);
    VApplyP(width, a, b, c[..], m);
    ghost var a0, b0, c0 := a[..], b[..], c[..];
    for j := 0 to 16
      invariant Registers(a[..], b[..], c[..], width)
      invariant a[..] == a0
      invariant forall k, l :: 0 <= k < j && 0 <= l < width ==> b[k][l] == Minus(c0[k][l], m[k][l])
      invariant forall k :: 0 <= k < j ==> c[k] == b0[k]
      invariant forall k :: j <= k < 16 ==> b[k] == b0[k] && c[k] == c0[k]
    {
      var temp := b[j];
      b[j] := VZip(Minus, c[j], m[j]);
      c[j] := temp;
    }
    assert c[..] == b0;
    forall l | 0 <= l < width
      ensures Lane(b[..], width, l) == SubBlock(Lane(c0, width, l), Lane(m, width, l))
    {
    }
    low, high := IncrW(wLow, wHigh, w);
    if isTermination {
      low, high := DecrW(low, high, w);
    }
  }

  method PrepareMessageRound1(width: nat, gensig: seq<Word>, scoops: seq<Word>) returns (m: seq<Reg>)
    requires |gensig| == 8 && |scoops| == 16 * width
    ensures BlockRows(m, width)
    ensures forall l :: 0 <= l < width ==> Lane(m, width, l) == gensig + scoops[16 * l..16 * l + 16][..8]
  {
    m := [];
    for i := 0 to 16
      invariant |m| == i && Wide(m, width)
      invariant forall k, l :: 0 <= k < i && 0 <= l < width ==>
        m[k][l] == if k < 8 then gensig[k] else scoops[16 * l + (k - 8)]
    {
      m := m + [seq(width, l requires 0 <= l < width => if i < 8 then gensig[i] else scoops[16 * l + (i - 8)])];
    }
  }

  method PrepareMessageTermination(width: nat, scoops: seq<Word>) returns (m: seq<Reg>)
    requires |scoops| == 16 * width
    ensures BlockRows(m, width)
    ensures forall l :: 0 <= l < width ==> Lane(m, width, l) == scoops[16 * l..16 * l + 16][8..] + LITE_TERM
  {
    m := [];
    for i := 0 to 16
      invariant |m| == i && Wide(m, width)
      invariant forall k, l :: 0 <= k < i && 0 <= l < width ==>
        m[k][l] == if k < 8 then scoops[16 * l + 8 + k] else if k == 8 then 0x80 else 0
    {
      m := m + [seq(width, l requires 0 <= l < width =>
        if i < 8 then scoops[16 * l + 8 + i] else if i == 8 then 0x80 else 0)];
    }
  }

  method VShabal256Lite(width: nat, scoops: seq<Word>, gensig: seq<Word>) returns (results: seq<U64>)
    requires |scoops| == 16 * width && |gensig| == 8
    ensures |results| == width
    ensures forall l :: 0 <= l < width ==> results[l] == QualityOf(scoops[16 * l..16 * l + 16], gensig)
  {
    hide Halves, Round, Hash, Digest, Absorb, Finish, QualityOf, Low64;
    var a, b, c := InitialRegisters(width);
    FirstCounter();
    var m := PrepareMessageRound1(width, gensig, scoops);
    var wLow, wHigh := QualityRound(width, a, b, c, m, 1, 0, false, 1);
    forall l | 0 <= l < width
      ensures LaneState(a[..], b[..], c[..], width, l) == Absorb([Lane(m, width, l)])
    {
      FirstOfRounds(Lane(m, width, l));
    }
    var t := PrepareMessageTermination(width, scoops);
    wLow, wHigh := QualityRound(width, a, b, c, t, wLow, wHigh, true, 2);
    forall l | 0 <= l < width
      ensures LaneState(a[..], b[..], c[..], width, l)
           == Finish(Absorb([Lane(m, width, l)] + [Lane(t, width, l)]), 2, Lane(t, width, l), 0)
    {
      SecondOfRounds(Lane(m, width, l), Lane(t, width, l));
    }
    for i := 0 to 3
      invariant Registers(a[..], b[..], c[..], width) && Halves(wLow, wHigh, 2)
      invariant forall l :: 0 <= l < width ==>
        LaneState(a[..], b[..], c[..], width, l)
          == Finish(Absorb([Lane(m, width, l)] + [Lane(t, width, l)]), 2, Lane(t, width, l), i)
    {
      wLow, wHigh := QualityRound(width, a, b, c, t, wLow, wHigh, true, 2);
      forall l | 0 <= l < width
        ensures LaneState(a[..], b[..], c[..], width, l)
             == Finish(Absorb([Lane(m, width, l)] + [Lane(t, width, l)]), 2, Lane(t, width, l), i + 1)
      {
        NextOfRounds(Lane(m, width, l), Lane(t, width, l), i);
      }
    }
    var low, high := c[8], c[9];
    results := seq(width, l requires 0 <= l < width => Low64([low[l], high[l]]));
    forall l | 0 <= l < width
      ensures results[l] == QualityOf(scoops[16 * l..16 * l + 16], gensig)
    {
      assert Lane(c[..], width, l)[8] == low[l] && Lane(c[..], width, l)[9] == high[l];
      LiteOfRounds(LaneState(a[..], b[..], c[..], width, l), scoops[16 * l..16 * l + 16], gensig,
                   Lane(m, width, l), Lane(t, width, l));
    }
  }

  lemma FirstOfRounds(first: Block)
    ensures Absorb([first]) == Round(INIT, 1, first)
  {
    hide Round;
    AbsorbOne([], first);
    assert [] + [first] == [first];
  }

  lemma SecondOfRounds(first: Block, last: Block)
    ensures Finish(Absorb([first] + [last]), 2, last, 0) == Round(Absorb([first]), 2, last)
  {
    hide Round, Absorb;
    AbsorbOne([first], last);
  }

  lemma NextOfRounds(first: Block, last: Block, i: nat)
    ensures Finish(Absorb([first] + [last]), 2, last, i + 1)
         == Round(Finish(Absorb([first] + [last]), 2, last, i), 2, last)
  {
    hide Round, Absorb;
  }

  // The state after the message block and four rounds of the termination block holds the quality.
  lemma LiteOfRounds(s: State, scoop: seq<Word>, gensig: seq<Word>, first: Block, last: Block)
    requires |scoop| == 16 && |gensig| == 8
    requires first == gensig + scoop[..8] && last == scoop[8..] + LITE_TERM
    requires s == Finish(Absorb([first] + [last]), 2, last, 3)
    ensures Low64([s.c[8], s.c[9]]) == QualityOf(scoop, gensig)
  {
    hide Absorb, Finish, Hash, Digest;
    LiteIsPadding(scoop, gensig);
    assert [first] + [last] == LiteBlocks(scoop, gensig);
    DigestOfTwo(LiteBlocks(scoop, gensig));
  }
}
