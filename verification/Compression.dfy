// Compression of scoop data while mining: neighbouring warps in a buffer are XORed in place,
// and the results compacted to the front.
module Compression {
  import opened Words
  import opened Cpu

  // One warp of one scoop: 4096 nonces of 16 cells.
  const WARP_WORDS: nat := 65536

  // ----- which plots need it -----

  datatype Action = Skip | MineNormal | CompressOnFly(steps: nat)

  function DetermineCompressionAction(plotCompression: nat, minRequired: nat, targetLevel: nat,
                                      maxStepsPossible: nat): Action {
    if plotCompression > targetLevel then Skip
    else if plotCompression >= minRequired then MineNormal
    else if minRequired - plotCompression > maxStepsPossible then Skip
    else CompressOnFly(minRequired - plotCompression)
  }

  // A plot is mined exactly when its level, or a level within reach of the buffer, satisfies the
  // chain; it is then mined at the higher of its own level and the minimum.
  lemma ActionLevel(plotCompression: nat, minRequired: nat, targetLevel: nat, maxStepsPossible: nat)
    ensures var action := DetermineCompressionAction(plotCompression, minRequired, targetLevel, maxStepsPossible);
      && (!action.Skip? <==> plotCompression <= targetLevel && minRequired <= plotCompression + maxStepsPossible)
      && (action.MineNormal? ==> plotCompression >= minRequired)
      && (action.CompressOnFly? ==>
            0 < action.steps <= maxStepsPossible && plotCompression + action.steps == minRequired)
  {
  }

  // ----- warps in a buffer -----

  function XorSeq(x: seq<Word>, y: seq<Word>): (r: seq<Word>)
    requires |x| == |y|
    ensures |r| == |x|
  {
    seq(|x|, i requires 0 <= i < |x| => Xor(x[i], y[i]))
  }

  function Warp(buf: seq<Word>, ws: nat, w: nat): (r: seq<Word>)
    requires w * ws + ws <= |buf|
    ensures |r| == ws
  {
    buf[w * ws..w * ws + ws]
  }

  // The XOR of warps lo to lo + n - 1.
  function XorWarpRange(buf: seq<Word>, ws: nat, lo: nat, n: nat): (r: seq<Word>)
    requires (lo + n) * ws <= |buf|
    ensures |r| == ws
    decreases n, |buf|
  {
    if n == 0 then seq(ws, _ => 0)
    else
      MulMono(lo + n - 1, lo + n, ws);
      XorSeq(XorWarpRange(buf, ws, lo, n - 1), Warp(buf, ws, lo + n - 1))
  }

  lemma XorSeqAssoc(x: seq<Word>, y: seq<Word>, z: seq<Word>)
    requires |x| == |y| == |z|
    ensures XorSeq(XorSeq(x, y), z) == XorSeq(x, XorSeq(y, z))
  {
    hide Xor;
    forall i | 0 <= i < |x|
      ensures Xor(Xor(x[i], y[i]), z[i]) == Xor(x[i], Xor(y[i], z[i]))
    {
      XorAssoc(x[i], y[i], z[i]);
    }
  }

  lemma XorSeqZero(x: seq<Word>)
    ensures XorSeq(x, seq(|x|, _ => 0)) == x && XorSeq(seq(|x|, _ => 0), x) == x
  {
    hide Xor;
    forall i | 0 <= i < |x|
      ensures Xor(x[i], 0) == x[i] && Xor(0, x[i]) == x[i]
    {
      XorZero(x[i]);
    }
  }

  lemma {:induction false} XorWarpRangeSplit(buf: seq<Word>, ws: nat, lo: nat, n: nat, m: nat)
    requires (lo + n + m) * ws <= |buf|
    ensures (lo + n) * ws <= |buf|
    ensures XorWarpRange(buf, ws, lo, n + m) == XorSeq(XorWarpRange(buf, ws, lo, n), XorWarpRange(buf, ws, lo + n, m))
    decreases m
  {
    hide XorSeq, Warp;
    MulMono(lo + n, lo + n + m, ws);
    var x := XorWarpRange(buf, ws, lo, n);
    if m == 0 {
      XorSeqZero(x);
    } else {
      MulMono(lo + n + m - 1, lo + n + m, ws);
      XorWarpRangeSplit(buf, ws, lo, n, m - 1);
      XorSeqAssoc(x, XorWarpRange(buf, ws, lo + n, m - 1), Warp(buf, ws, lo + n + m - 1));
    }
  }

  // ----- one pass -----

  // Cell x once n cells from a and from b are XORed into the n cells from dest.
  ghost function StretchCell(was: seq<Word>, a: nat, b: nat, dest: nat, n: nat, x: nat): Word
    requires a + n <= |was| && b + n <= |was| && x < |was|
  {
    if dest <= x < dest + n then Xor(was[a + (x - dest)], was[b + (x - dest)]) else was[x]
  }

  // One vector: both operands are loaded before the result is stored.
  method CompressChunk(buffer: array<Word>, a: nat, b: nat, dest: nat, chunk: nat)
    requires a + chunk <= buffer.Length && b + chunk <= buffer.Length && dest + chunk <= buffer.Length
    modifies buffer
    ensures forall x :: 0 <= x < buffer.Length ==> buffer[x] == StretchCell(old(buffer[..]), a, b, dest, chunk, x)
  {
    hide Xor;
    ghost var was := buffer[..];
    var left, right := buffer[a..a + chunk], buffer[b..b + chunk];
    for j := 0 to chunk
      invariant forall x :: 0 <= x < buffer.Length ==> buffer[x] == StretchCell(was, a, b, dest, j, x)
    {
      assert left[j] == was[a + j] && right[j] == was[b + j];
      buffer[dest + j] := Xor(left[j], right[j]);
    }
  }

  // Cell x of the buffer once the pair's result is stored.
  ghost function PairCell(was: seq<Word>, pair: nat, ws: nat, x: nat): Word
    requires x < |was| && (2 * pair + 2) * ws <= |was|
  {
    PairPlaces(pair, ws);
    if pair * ws <= x < pair * ws + ws
    then Xor(was[2 * pair * ws + (x - pair * ws)], was[(2 * pair + 1) * ws + (x - pair * ws)])
    else was[x]
  }

  // The stretches at a and b, XORed chunk by chunk into the one at dest, which may be the first of the two.
  method CompressStretch(buffer: array<Word>, a: nat, b: nat, dest: nat, ws: nat, chunk: nat)
    requires chunk > 0 && ws % chunk == 0
    requires (dest == a || dest + ws <= a) && a + ws <= b && b + ws <= buffer.Length
    modifies buffer
    ensures forall x :: 0 <= x < buffer.Length ==> buffer[x] == StretchCell(old(buffer[..]), a, b, dest, ws, x)
  {
    hide Xor, StretchCell;
    ghost var was := buffer[..];
    StretchStart(was, a, b, dest);
    var offset := 0;
    ghost var k := 0;
    while offset < ws
      invariant offset == k * chunk && offset <= ws
      invariant forall x :: 0 <= x < buffer.Length ==> buffer[x] == StretchCell(was, a, b, dest, offset, x)
      decreases ws - offset
    {
      NextChunk(k, chunk, ws);
      ghost var mid := buffer[..];
      CompressChunk(buffer, a + offset, b + offset, dest + offset, chunk);
      forall x | 0 <= x < buffer.Length
        ensures buffer[x] == StretchCell(was, a, b, dest, offset + chunk, x)
      {
        StretchGrows(was, mid, a, b, dest, ws, offset, chunk, x);
      }
      offset := offset + chunk;
      k := k + 1;
    }
  }

  lemma StretchStart(was: seq<Word>, a: nat, b: nat, dest: nat)
    requires a <= |was| && b <= |was|
    ensures forall x :: 0 <= x < |was| ==> was[x] == StretchCell(was, a, b, dest, 0, x)
  {
  }

  lemma StretchGrows(was: seq<Word>, mid: seq<Word>, a: nat, b: nat, dest: nat, ws: nat, offset: nat, chunk: nat,
                     x: nat)
    requires (dest == a || dest + ws <= a) && a + ws <= b && b + ws <= |was| == |mid|
    requires offset + chunk <= ws && x < |was|
    requires forall x :: 0 <= x < |mid| ==> mid[x] == StretchCell(was, a, b, dest, offset, x)
    ensures StretchCell(mid, a + offset, b + offset, dest + offset, chunk, x)
        == StretchCell(was, a, b, dest, offset + chunk, x)
  {
    hide Xor;
  }

  // XORs warps 2p and 2p + 1 into warp p.
  method CompressPair(buffer: array<Word>, pair: nat, ws: nat, chunk: nat)
    requires chunk > 0 && ws % chunk == 0 && (2 * pair + 2) * ws <= buffer.Length
    modifies buffer
    ensures forall x :: 0 <= x < buffer.Length ==> buffer[x] == PairCell(old(buffer[..]), pair, ws, x)
  {
    hide Xor;
    PairPlaces(pair, ws);
    var aStart, bStart, dest := 2 * pair * ws, (2 * pair + 1) * ws, pair * ws;
    CompressStretch(buffer, aStart, bStart, dest, ws, chunk);
  }

  lemma PairPlaces(pair: nat, ws: nat)
    ensures pair * ws <= 2 * pair * ws && 2 * pair * ws + ws == (2 * pair + 1) * ws
    ensures (2 * pair + 1) * ws + ws == (2 * pair + 2) * ws
    ensures pair == 0 || pair * ws + ws <= 2 * pair * ws
  {
    if pair > 0 {
      MulMono(pair, 2 * pair, ws);
    }
  }

  lemma NextChunk(k: nat, chunk: nat, ws: nat)
    requires chunk > 0 && ws % chunk == 0 && k * chunk < ws
    ensures k * chunk + chunk <= ws && k * chunk + chunk == (k + 1) * chunk
  {
    var q := ws / chunk;
    DivParts(ws, chunk);
    MulMono(q, k, chunk);
    MulMono(k, q, chunk);
  }

  lemma PairBound(w: nat, n: nat, ws: nat, length: nat)
    requires w < n && 2 * n * ws <= length
    ensures w * ws + ws <= length && (2 * w + 2) * ws <= length
    ensures 2 * w * ws + ws <= length && (2 * w + 1) * ws + ws <= length
    ensures w * ws + ws <= n * ws && n * ws <= length
  {
    PairPlaces(w, ws);
    MulMono(2 * w + 2, 2 * n, ws);
    MulMono(w, n, ws);
    MulMono(n, 2 * n, ws);
    MulMono(w, 2 * w + 1, ws);
  }

  // Warp w of a pass's result.
  ghost predicate PairDone(was: seq<Word>, now: seq<Word>, ws: nat, n: nat, w: nat)
    requires |now| == |was| && 2 * n * ws <= |was| && w < n
  {
    PairBound(w, n, ws, |was|);
    Warp(now, ws, w) == XorSeq(Warp(was, ws, 2 * w), Warp(was, ws, 2 * w + 1))
  }

  // The buffer after the first n pairs of a pass.
  ghost predicate PairsDone(was: seq<Word>, now: seq<Word>, ws: nat, n: nat) {
    && |now| == |was| && 2 * n * ws <= |was|
    && (forall w :: 0 <= w < n ==> PairDone(was, now, ws, n, w))
    && (forall x :: n * ws <= x < |was| ==> now[x] == was[x])
  }

  lemma OldPair(was: seq<Word>, now: seq<Word>, next: seq<Word>, ws: nat, n: nat, w: nat)
    requires PairsDone(was, now, ws, n) && |next| == |now| && 2 * (n + 1) * ws <= |was| && w < n
    requires forall x :: 0 <= x < n * ws && x < |now| ==> next[x] == now[x]
    ensures PairDone(was, next, ws, n + 1, w)
  {
    PairBound(w, n, ws, |was|);
    assert PairDone(was, now, ws, n, w);
    assert Warp(next, ws, w) == Warp(now, ws, w);
  }

  lemma NewPair(was: seq<Word>, now: seq<Word>, next: seq<Word>, ws: nat, n: nat)
    requires |next| == |now| == |was| && 2 * (n + 1) * ws <= |was|
    requires forall x :: n * ws <= x < |was| ==> now[x] == was[x]
    requires forall x :: 0 <= x < |now| ==> next[x] == PairCell(now, n, ws, x)
    ensures PairDone(was, next, ws, n + 1, n)
  {
    hide Xor;
    PairPlaces(n, ws);
    PairBound(n, n + 1, ws, |was|);
    var a, b, w := Warp(was, ws, 2 * n), Warp(was, ws, 2 * n + 1), Warp(next, ws, n);
    forall i | 0 <= i < ws
      ensures w[i] == Xor(a[i], b[i])
    {
      assert w[i] == next[n * ws + i];
    }
  }

  lemma PairsStep(was: seq<Word>, now: seq<Word>, next: seq<Word>, ws: nat, n: nat)
    requires PairsDone(was, now, ws, n) && |next| == |now| && 2 * (n + 1) * ws <= |was|
    requires forall x :: 0 <= x < |now| ==> next[x] == PairCell(now, n, ws, x)
    ensures PairsDone(was, next, ws, n + 1)
  {
    hide PairDone, Xor;
    var n' := n + 1;
    PairPlaces(n, ws);
    NewPair(was, now, next, ws, n);
    assert n' * ws == n * ws + ws;
    forall w | 0 <= w < n'
      ensures PairDone(was, next, ws, n', w)
    {
      if w < n {
        OldPair(was, now, next, ws, n, w);
      }
    }
  }

  method CompressPairs(buffer: array<Word>, pairs: nat, ws: nat, chunk: nat)
    requires chunk > 0 && ws % chunk == 0 && 2 * pairs * ws <= buffer.Length
    modifies buffer
    ensures PairsDone(old(buffer[..]), buffer[..], ws, pairs)
  {
    hide PairsDone, PairCell;
    ghost var was := buffer[..];
    assert PairsDone(was, was, ws, 0) by { NoPairs(was, ws); }
    for pair := 0 to pairs
      invariant PairsDone(was, buffer[..], ws, pair)
    {
      ghost var now := buffer[..];
      MulMono(2 * (pair + 1), 2 * pairs, ws);
      CompressPair(buffer, pair, ws, chunk);
      PairsStep(was, now, buffer[..], ws, pair);
    }
  }

  lemma NoPairs(was: seq<Word>, ws: nat)
    ensures PairsDone(was, was, ws, 0)
  {
  }

  // ----- all passes -----

  lemma RangeBound(j: nat, s: nat, warps: nat, ws: nat, length: nat)
    requires j < warps / Pow2(s) && warps * ws <= length
    ensures (j * Pow2(s) + Pow2(s)) * ws <= length && j * ws + ws <= length
  {
    hide Pow2;
    var k, q := Pow2(s), warps / Pow2(s);
    DivParts(warps, k);
    MulMono(j, q, k);
    MulMono(j * k + k, warps, ws);
    MulMono(1, k, j + 1);
    MulMono(j + 1, warps, ws);
  }

  ghost predicate RangeFolded(was: seq<Word>, now: seq<Word>, ws: nat, warps: nat, s: nat, j: nat)
    requires |now| == |was| && warps * ws <= |was| && j < warps / Pow2(s)
  {
    RangeBound(j, s, warps, ws, |was|);
    Warp(now, ws, j) == XorWarpRange(was, ws, j * Pow2(s), Pow2(s))
  }

  // Warp j of the buffer is the XOR of original warps j * 2^s to (j + 1) * 2^s - 1.
  ghost predicate Folded(was: seq<Word>, now: seq<Word>, ws: nat, warps: nat, s: nat) {
    && |now| == |was| && warps * ws <= |was|
    && forall j :: 0 <= j < warps / Pow2(s) ==> RangeFolded(was, now, ws, warps, s, j)
  }

  lemma HalveAgain(warps: nat, s: nat)
    ensures warps / Pow2(s + 1) == warps / Pow2(s) / 2
  {
    DivDiv(warps, Pow2(s), 2);
  }

  lemma FoldedStep(was: seq<Word>, now: seq<Word>, next: seq<Word>, ws: nat, warps: nat, s: nat)
    requires Folded(was, now, ws, warps, s)
    requires PairsDone(now, next, ws, warps / Pow2(s) / 2)
    ensures Folded(was, next, ws, warps, s + 1)
  {
    hide Xor, XorSeq, XorWarpRange, Pow2;
    HalveAgain(warps, s);
    Pow2Positive(s);
    var n, k := warps / Pow2(s) / 2, Pow2(s);
    assert Pow2(s + 1) == 2 * k by { Pow2Next(s); }
    var s' := s + 1;
    forall j | 0 <= j < warps / Pow2(s')
      ensures RangeFolded(was, next, ws, warps, s', j)
    {
      RangeBound(j, s + 1, warps, ws, |was|);
      RangeBound(2 * j, s, warps, ws, |was|);
      RangeBound(2 * j + 1, s, warps, ws, |was|);
      PairBound(j, n, ws, |was|);
      assert PairDone(now, next, ws, n, j);
      assert RangeFolded(was, now, ws, warps, s, 2 * j);
      assert RangeFolded(was, now, ws, warps, s, 2 * j + 1);
      RangeHalves(j, k);
      XorWarpRangeSplit(was, ws, 2 * j * k, k, k);
    }
  }

  lemma RangeHalves(j: nat, k: nat)
    ensures 2 * j * k == j * (2 * k) && 2 * j * k + k == (2 * j + 1) * k
  {
  }

  lemma FoldedNone(was: seq<Word>, ws: nat, warps: nat)
    requires warps * ws <= |was|
    ensures warps / Pow2(0) == warps && Folded(was, was, ws, warps, 0)
  {
    assert Pow2(0) == 1;
    forall j | 0 <= j < warps / Pow2(0)
      ensures RangeFolded(was, was, ws, warps, 0, j)
    {
      RangeBound(j, 0, warps, ws, |was|);
      XorSeqZero(Warp(was, ws, j));
      assert XorWarpRange(was, ws, j, 0) == seq(ws, _ => 0);
    }
  }

  function ChunkWords(cpu: Features): (chunk: nat)
    ensures chunk > 0 && WARP_WORDS % chunk == 0
  {
    if cpu.avx512f then 16 else if cpu.avx2 || cpu.avx then 8 else if cpu.sse2 then 4 else 1
  }

  method CompressWarpsInline(cpu: Features, buffer: array<Word>, warpCount: nat, compressionSteps: nat)
    returns (warps: nat)
    requires warpCount * WARP_WORDS <= buffer.Length
    modifies buffer
    ensures warps == warpCount / Pow2(compressionSteps)
    ensures Folded(old(buffer[..]), buffer[..], WARP_WORDS, warpCount, compressionSteps)
  {
    hide Folded, PairsDone, Pow2;
    ghost var was := buffer[..];
    warps := warpCount;
    FoldedNone(was, WARP_WORDS, warpCount);
    for s := 0 to compressionSteps
      invariant warps == warpCount / Pow2(s)
      invariant Folded(was, buffer[..], WARP_WORDS, warpCount, s)
    {
      var pairs := warps / 2;
      ghost var now := buffer[..];
      QuotientShrinks(warpCount, s);
      CompressPairs(buffer, pairs, WARP_WORDS, ChunkWords(cpu));
      FoldedStep(was, now, buffer[..], WARP_WORDS, warpCount, s);
      HalveAgain(warpCount, s);
      warps := pairs;
    }
  }

  lemma QuotientShrinks(warps: nat, s: nat)
    ensures warps / Pow2(s) <= warps
  {
    hide Pow2;
    Pow2Positive(s);
    var k, q := Pow2(s), warps / Pow2(s);
    assert warps == q * k + warps % k;
    MulMono(1, k, q);
  }
}
