// Generation of nonces into a cache (plotting) and of single scoops (proof validation), each in
// a scalar and a vector form.
module Nonces {
  import opened Words
  import opened KeyedPermutation
  import opened Shabal
  import opened Lanes
  import opened PlotChain
  import opened PlotLanes
  import opened Layout
  import opened Cpu

  const NONCE_SIZE: nat := 262144

  function SaturatingAdd(x: nat, y: nat): nat {
    if x + y <= MAX_U64 then x + y else MAX_U64
  }

  // Scoop s of the nonce with the given number: the specification of both generators.
  function RawScoop(payload: seq<Byte>, seed: seq<Byte>, nonce: nat, s: nat): (r: seq<Word>)
    requires |payload| == 20 && |seed| == 32 && s < NUM_SCOOPS
    ensures |r| == SCOOP_WORDS
  {
    ScoopOf(PlotNonce(TailOf(payload, seed, nonce)), s)
  }

  // Cell x of the cache once columns offset to offset + count - 1 hold the nonces from start on.
  function PlottedCell(old_: seq<Word>, payload: seq<Byte>, seed: seq<Byte>, start: nat, offset: nat, count: nat,
                       x: nat): Word
    requires |payload| == 20 && |seed| == 32 && x < |old_|
  {
    var n := |old_| / NONCE_WORDS;
    if InColumns(x, n, offset, offset + count)
    then RawScoop(payload, seed, SaturatingAdd(start, ColumnOf(x, n) - offset), RowOf(x, n))[x % 16]
    else old_[x]
  }

  function Plotted(old_: seq<Word>, payload: seq<Byte>, seed: seq<Byte>, start: nat, offset: nat,
                   count: nat): (r: seq<Word>)
    requires |payload| == 20 && |seed| == 32
    ensures |r| == |old_|
  {
    seq(|old_|, x requires 0 <= x < |old_| => PlottedCell(old_, payload, seed, start, offset, count, x))
  }

  // Column offset + k holds nonce start + k, scoop by scoop.
  lemma PlottedScoop(old_: seq<Word>, payload: seq<Byte>, seed: seq<Byte>, start: nat, offset: nat, count: nat,
                     k: nat, s: nat)
    requires |payload| == 20 && |seed| == 32 && k < count && offset + count <= |old_| / NONCE_WORDS && s < NUM_SCOOPS
    ensures CacheScoop(Plotted(old_, payload, seed, start, offset, count), s, offset + k)
         == RawScoop(payload, seed, SaturatingAdd(start, k), s)
  {
    hide RawScoop, RowOf, ColumnOf, SaturatingAdd, CacheScoop;
    var r := Plotted(old_, payload, seed, start, offset, count);
    forall c | 0 <= c < 16
      ensures CacheScoop(r, s, offset + k)[c] == RawScoop(payload, seed, SaturatingAdd(start, k), s)[c]
    {
      CacheWord(r, s, offset + k, c);
    }
  }

  lemma PlottedNone(old_: seq<Word>, payload: seq<Byte>, seed: seq<Byte>, start: nat, offset: nat)
    requires |payload| == 20 && |seed| == 32
    ensures Plotted(old_, payload, seed, start, offset, 0) == old_
  {
  }

  // Plotting further columns continues the same range of nonces, saturated or not.
  lemma PlottedMore(old_: seq<Word>, payload: seq<Byte>, seed: seq<Byte>, start: nat, offset: nat, i: nat, j: nat)
    requires |payload| == 20 && |seed| == 32
    ensures Plotted(Plotted(old_, payload, seed, start, offset, i), payload, seed, SaturatingAdd(start, i),
        offset + i, j)
         == Plotted(old_, payload, seed, start, offset, i + j)
  {
    hide RawScoop, RowOf, ColumnOf;
  }

  // A source whose lanes are the nonces from start on, shuffled into the cache, plots them.
  lemma ScatteredIsPlotted(old_: seq<Word>, source: seq<Word>, width: nat, payload: seq<Byte>, seed: seq<Byte>,
                           start: nat, offset: nat)
    requires |payload| == 20 && |seed| == 32 && width > 0 && |source| == NONCE_WORDS * width
    requires offset + width <= |old_| / NONCE_WORDS
    requires forall l :: 0 <= l < width ==>
      FlatLane(source, width, l, NONCE_WORDS) == PlotNonce(TailOf(payload, seed, SaturatingAdd(start, l)))
    ensures Scattered(old_, source, width, offset) == Plotted(old_, payload, seed, start, offset, width)
  {
    hide PlotNonce, TailOf, Scattered, RowOf, ColumnOf, FlatLane, ScoopOf;
    var n := |old_| / NONCE_WORDS;
    forall x | 0 <= x < |old_|
      ensures Scattered(old_, source, width, offset)[x] == PlottedCell(old_, payload, seed, start, offset, width, x)
    {
      if InColumns(x, n, offset, offset + width) {
        Encode(x, n);
        ScatteredCell(old_, source, width, offset, ColumnOf(x, n) - offset, RowOf(x, n), x % 16);
      } else {
        ScatteredElsewhere(old_, source, width, offset, x);
      }
    }
  }

  lemma FlatLaneOfOne(source: seq<Word>)
    requires |source| == NONCE_WORDS
    ensures FlatLane(source, 1, 0, NONCE_WORDS) == source
  {
  }

  // Where a nonce ends up that is plotted to a column, whether the cache has this column or not:
  // every scoop is where the wrapping address of the column says, if the cache has that place.
  ghost predicate Landed(cache: seq<Word>, column: nat, payload: seq<Byte>, seed: seq<Byte>, nonce: nat)
    requires |payload| == 20 && |seed| == 32
  {
    forall s :: 0 <= s < NUM_SCOOPS ==> LandedScoop(cache, column, payload, seed, nonce, s)
  }

  ghost predicate LandedScoop(cache: seq<Word>, column: nat, payload: seq<Byte>, seed: seq<Byte>, nonce: nat, s: nat)
    requires |payload| == 20 && |seed| == 32
  {
    var n := |cache| / NONCE_WORDS;
    var p := ScoopPlace(s, column, n);
    n > 0 && s < NUM_SCOOPS &&
    (p < NUM_SCOOPS * n ==>
      p / n < NUM_SCOOPS && p % n < n && CacheScoop(cache, p / n, p % n) == RawScoop(payload, seed, nonce, s))
  }

  lemma SpreadLands(old_: seq<Word>, now: seq<Word>, source: seq<Word>, column: nat, payload: seq<Byte>,
                    seed: seq<Byte>, nonce: nat)
    requires |payload| == 20 && |seed| == 32 && 0 < |old_| / NONCE_WORDS
    requires Spread(old_, now, source, 1, column, |source|) && source == PlotNonce(TailOf(payload, seed, nonce))
    ensures Landed(now, column, payload, seed, nonce)
  {
    hide PlotNonce, TailOf, FlatLane, ScoopOf, CacheScoop, ScoopPlace;
    var n := |old_| / NONCE_WORDS;
    FlatLaneOfOne(source);
    assert |now| == |old_|;
    forall s | 0 <= s < NUM_SCOOPS
      ensures LandedScoop(now, column, payload, seed, nonce, s)
    {
      DivParts(ScoopPlace(s, column, n), n);
      if ScoopPlace(s, column, n) < NUM_SCOOPS * n {
        SpreadScoop(old_, now, source, 1, column, 0, s);
      }
    }
  }

  // ----- plotting, scalar -----

  // Plotting this column copies a cell to outside the cache.
  ghost predicate ColumnLeaves(cacheOffset: nat, k: nat, length: nat) {
    LeavesCache(1, cacheOffset + k, length / NONCE_WORDS)
  }

  method GenerateNonces32(cache: array<Word>, cacheOffset: nat, payload: seq<Byte>, seed: seq<Byte>, startNonce: nat,
                          numNonces: nat) returns (ghost outside: bool)
    requires |payload| == 20 && |seed| == 32 && cache.Length <= SLICE_LIMIT
    modifies cache
    ensures cacheOffset + numNonces <= cache.Length / NONCE_WORDS ==>
      !outside && cache[..] == Plotted(old(cache[..]), payload, seed, startNonce, cacheOffset, numNonces)
    ensures cache.Length >= NONCE_WORDS ==>
      (outside <==> exists k :: 0 <= k < numNonces && ColumnLeaves(cacheOffset, k, cache.Length))
    ensures numNonces > 0 && cache.Length >= NONCE_WORDS ==>
      Landed(cache[..], cacheOffset + (numNonces - 1), payload, seed, SaturatingAdd(startNonce, numNonces - 1))
  {
    hide Plotted, Scattered, PlotNonce, TailOf, Spread, Landed, LeavesCache;
    outside := false;
    ghost var was := cache[..];
    ghost var fits := cacheOffset + numNonces <= cache.Length / NONCE_WORDS;
    PlottedNone(was, payload, seed, startNonce, cacheOffset);
    for n := 0 to numNonces
      invariant fits ==> !outside && cache[..] == Plotted(was, payload, seed, startNonce, cacheOffset, n)
      invariant cache.Length >= NONCE_WORDS ==>
        (outside <==> exists k :: 0 <= k < n && ColumnLeaves(cacheOffset, k, cache.Length))
      invariant n > 0 && cache.Length >= NONCE_WORDS ==>
        Landed(cache[..], cacheOffset + (n - 1), payload, seed, SaturatingAdd(startNonce, n - 1))
    {
      ghost var before := cache[..];
      var buffer := NonceBuffer(payload, seed, SaturatingAdd(startNonce, n));
      ghost var skipped, escaped := UnpackShuffleScatter(buffer[..], cache, cacheOffset + n, 1);
      outside := outside || escaped;
      assert ColumnLeaves(cacheOffset, n, cache.Length) <==>
        LeavesCache(1, cacheOffset + n, cache.Length / NONCE_WORDS);
      if cache.Length >= NONCE_WORDS {
        SpreadLands(before, cache[..], buffer[..], cacheOffset + n, payload, seed, SaturatingAdd(startNonce, n));
      }
      if fits {
        FlatLaneOfOne(buffer[..]);
        ScatteredIsPlotted(before, buffer[..], 1, payload, seed, SaturatingAdd(startNonce, n), cacheOffset + n);
        PlottedMore(was, payload, seed, startNonce, cacheOffset, n, 1);
      }
    }
  }

  // ----- plotting, vector: every lane the same account, consecutive nonces -----

  function Splatter(width: nat, m: seq<Word>): (r: seq<Reg>)
    ensures |r| == |m| && Wide(r, width)
  {
    seq(|m|, j requires 0 <= j < |m| => Splat(width, m[j]))
  }

  function NonceWord(start: nat, n: nat, lane: nat, half: nat): Word
    requires half < 2
  {
    WordsOfBytes(BigEndian64(SaturatingAdd(SaturatingAdd(start, n), lane)))[half]
  }

  // Overwrites rows at and at + 1 with the nonces of the lanes.
  function WithNonces(t: seq<Reg>, at: nat, width: nat, start: nat, n: nat): (r: seq<Reg>)
    requires at + 1 < |t|
    ensures |r| == |t|
  {
    t[at := seq(width, l requires 0 <= l < width => NonceWord(start, n, l, 0))]
     [at + 1 := seq(width, l requires 0 <= l < width => NonceWord(start, n, l, 1))]
  }

  lemma WithNoncesLane(m: seq<Word>, at: nat, width: nat, start: nat, n: nat, l: nat)
    requires at + 1 < |m| && l < width
    ensures Wide(WithNonces(Splatter(width, m), at, width, start, n), width)
    ensures Lane(WithNonces(Splatter(width, m), at, width, start, n), width, l)
         == m[..at] + WordsOfBytes(BigEndian64(SaturatingAdd(SaturatingAdd(start, n), l))) + m[at + 2..]
  {
    hide WordsOfBytes, BigEndian64;
  }

  // Rows at and at + 1 aside, t is b: what the nonces written before leave of the blocks.
  ghost predicate SameBut(t: seq<Reg>, b: seq<Reg>, at: nat) {
    |t| == |b| && at + 1 < |t| && forall j :: 0 <= j < |t| && j != at && j != at + 1 ==> t[j] == b[j]
  }

  lemma WithNoncesAgain(t: seq<Reg>, b: seq<Reg>, at: nat, width: nat, start: nat, n: nat)
    requires SameBut(t, b, at)
    ensures WithNonces(t, at, width, start, n) == WithNonces(b, at, width, start, n)
    ensures SameBut(WithNonces(t, at, width, start, n), b, at)
  {
  }

  ghost function LaneTails(width: nat, payload: seq<Byte>, seed: seq<Byte>, start: nat): (r: seq<Tail>)
    requires |payload| == 20 && |seed| == 32
    ensures |r| == width
  {
    seq(width, l requires 0 <= l < width => TailOf(payload, seed, SaturatingAdd(start, l)))
  }

  lemma SplatteredTerminations(width: nat, payload: seq<Byte>, seed: seq<Byte>, start: nat, n: nat)
    requires |payload| == 20 && |seed| == 32
    ensures Terminated(width, LaneTails(width, payload, seed, SaturatingAdd(start, n)),
      WithNonces(Splatter(width, BaseT1(payload, seed)), 13, width, start, n),
      WithNonces(Splatter(width, BaseT2(payload)), 5, width, start, n),
      Splatter(width, T3()), Splatter(width, WordsOfBytes(seed)))
  {
    hide WordsOfBytes, BigEndian64, WithNonces, SaturatingAdd;
    WithNoncesWide(BaseT1(payload, seed), 13, width, start, n);
    WithNoncesWide(BaseT2(payload), 5, width, start, n);
    forall l | 0 <= l < width
      ensures var tail := LaneTails(width, payload, seed, SaturatingAdd(start, n))[l];
        && Lane(WithNonces(Splatter(width, BaseT1(payload, seed)), 13, width, start, n), width, l) == T1(tail)
        && Lane(WithNonces(Splatter(width, BaseT2(payload)), 5, width, start, n), width, l) == T2(tail)
        && Lane(Splatter(width, T3()), width, l) == T3()
        && Lane(Splatter(width, WordsOfBytes(seed)), width, l) == tail[..8]
    {
      WithNoncesLane(BaseT1(payload, seed), 13, width, start, n, l);
      WithNoncesLane(BaseT2(payload), 5, width, start, n, l);
    }
  }

  lemma WithNoncesWide(m: seq<Word>, at: nat, width: nat, start: nat, n: nat)
    requires at + 1 < |m|
    ensures Wide(WithNonces(Splatter(width, m), at, width, start, n), width)
  {
  }

  // The termination blocks before the nonce is known.
  function BaseT1(payload: seq<Byte>, seed: seq<Byte>): Block
    requires |payload| == 20 && |seed| == 32
  {
    WordsOfBytes(seed) + WordsOfBytes(payload) + [0, 0] + [0x80]
  }

  function BaseT2(payload: seq<Byte>): Block
    requires |payload| == 20
  {
    WordsOfBytes(payload) + [0, 0] + [0x80] + Zeros(8)
  }

  function RoundUp(n: nat, width: nat): nat
    requires width > 0
  {
    (n + width - 1) / width * width
  }

  method PlotVector(width: nat, cache: array<Word>, cacheOffset: nat, payload: seq<Byte>, seed: seq<Byte>,
                    t1: seq<Reg>, t2: seq<Reg>, t3: seq<Reg>, seeds: seq<Reg>, ghost start: nat)
    returns (ghost outside: bool)
    requires width > 0 && |payload| == 20 && |seed| == 32 && cache.Length <= SLICE_LIMIT
    requires Terminated(width, LaneTails(width, payload, seed, start), t1, t2, t3, seeds)
    modifies cache
    ensures cacheOffset + width <= cache.Length / NONCE_WORDS ==>
      !outside && cache[..] == Plotted(old(cache[..]), payload, seed, start, cacheOffset, width)
  {
    hide Plotted, Scattered, PlotNonce, TailOf, Terminated, LeavesCache, Spread;
    ghost var before := cache[..];
    var buffer := VNonceBuffer(width, t1, t2, t3, seeds, LaneTails(width, payload, seed, start));
    ghost var skipped;
    skipped, outside := UnpackShuffleScatter(Flat(buffer[..], width), cache, cacheOffset, width);
    if cacheOffset + width <= cache.Length / NONCE_WORDS {
      forall l | 0 <= l < width
        ensures FlatLane(Flat(buffer[..], width), width, l, NONCE_WORDS)
            == PlotNonce(TailOf(payload, seed, SaturatingAdd(start, l)))
      {
        FlatLaneIsLane(buffer[..], width, l);
      }
      ScatteredIsPlotted(before, Flat(buffer[..], width), width, payload, seed, start, cacheOffset);
    }
  }

  // Writes whole vectors: numNonces rounded up to the width.
  method GenerateNoncesVector(width: nat, cache: array<Word>, cacheOffset: nat, payload: seq<Byte>, seed: seq<Byte>,
                              startNonce: nat, numNonces: nat) returns (ghost outside: bool)
    requires width > 0 && |payload| == 20 && |seed| == 32 && cache.Length <= SLICE_LIMIT
    modifies cache
    ensures cacheOffset + RoundUp(numNonces, width) <= cache.Length / NONCE_WORDS ==>
      !outside && cache[..]
        == Plotted(old(cache[..]), payload, seed, startNonce, cacheOffset, RoundUp(numNonces, width))
    ensures numNonces == 0 ==> !outside && cache[..] == old(cache[..])
  {
    hide Plotted, WithNonces, Terminated, BaseT1, BaseT2, WordsOfBytes, RoundUp, LaneTails;
    ghost var was := cache[..];
    ghost var fits := cacheOffset + RoundUp(numNonces, width) <= cache.Length / NONCE_WORDS;
    var t1, t2 := Splatter(width, BaseT1(payload, seed)), Splatter(width, BaseT2(payload));
    var t3, seeds := Splatter(width, T3()), Splatter(width, WordsOfBytes(seed));
    ghost var b1, b2 := t1, t2;
    PlottedNone(was, payload, seed, startNonce, cacheOffset);
    outside := false;
    var n := 0;
    ghost var k := 0;
    while n < numNonces
      invariant n == k * width && n <= RoundUp(numNonces, width)
      invariant SameBut(t1, b1, 13) && SameBut(t2, b2, 5)
      invariant fits ==> !outside && cache[..] == Plotted(was, payload, seed, startNonce, cacheOffset, n)
      invariant if n == 0 then !outside && cache[..] == was else numNonces > 0
      decreases numNonces - n
    {
      WithNoncesAgain(t1, b1, 13, width, startNonce, n);
      WithNoncesAgain(t2, b2, 5, width, startNonce, n);
      t1 := WithNonces(t1, 13, width, startNonce, n);
      t2 := WithNonces(t2, 5, width, startNonce, n);
      SplatteredTerminations(width, payload, seed, startNonce, n);
      ghost var escaped := PlotVector(width, cache, cacheOffset + n, payload, seed, t1, t2, t3, seeds,
                                      SaturatingAdd(startNonce, n));
      outside := outside || escaped;
      StepUp(n, k, width, numNonces);
      PlottedMore(was, payload, seed, startNonce, cacheOffset, n, width);
      n := n + width;
      k := k + 1;
    }
    StepDone(n, k, width, numNonces);
  }

  lemma StepUp(n: nat, k: nat, width: nat, total: nat)
    requires width > 0 && n == k * width && n < total
    ensures n + width <= RoundUp(total, width) && n + width == (k + 1) * width
  {
    var q := (total + width - 1) / width;
    assert total + width - 1 == q * width + (total + width - 1) % width;
    MulMono(q, k, width);
    MulMono(k, q, width);
  }

  lemma StepDone(n: nat, k: nat, width: nat, total: nat)
    requires width > 0 && n == k * width && total <= n <= RoundUp(total, width)
    ensures n == RoundUp(total, width)
  {
    var q := (total + width - 1) / width;
    assert total + width - 1 == q * width + (total + width - 1) % width;
    MulMono(k, q, width);
  }

  // ----- plotting, dispatch on x86 -----

  datatype Outcome = Done | BufferTooSmall(required: nat, available: nat)

  // The bytes that generate_nonces asks for. The offset is a column but is added as bytes, and
  // product and sum wrap at 64 bits.
  function RequiredSize(cacheOffset: U64, numNonces: U64): U64 {
    Mod64(cacheOffset + Mod64(numNonces * NONCE_SIZE))
  }

  // The size check of generate_nonces, in bytes.
  predicate PassesGuard(length: nat, cacheOffset: U64, numNonces: U64) {
    4 * length >= RequiredSize(cacheOffset, numNonces)
  }

  predicate ColumnsFit(length: nat, cacheOffset: nat, numNonces: nat) {
    cacheOffset + numNonces <= length / NONCE_WORDS
  }

  lemma FittingPassesGuard(length: nat, cacheOffset: U64, numNonces: U64)
    requires ColumnsFit(length, cacheOffset, numNonces)
    ensures PassesGuard(length, cacheOffset, numNonces)
  {
    DivParts(length, NONCE_WORDS);
  }

  // One column offset by one into a cache one cell longer than one nonce: the check passes, the
  // column is outside, and nonce 0 of the cache is overwritten, scoop by scoop, by the scoops before.
  lemma GuardTooWeak(cache: seq<Word>, payload: seq<Byte>, seed: seq<Byte>, nonce: nat)
    requires |payload| == 20 && |seed| == 32
    requires |cache| == 65537 && Landed(cache, 1, payload, seed, nonce)
    ensures PassesGuard(|cache|, 1, 1) && !ColumnsFit(|cache|, 1, 1)
    ensures forall s :: 0 <= s < NUM_SCOOPS - 1 ==> CacheScoop(cache, s + 1, 0) == RawScoop(payload, seed, nonce, s)
  {
    hide RawScoop, CacheScoop;
    forall s | 0 <= s < NUM_SCOOPS - 1
      ensures CacheScoop(cache, s + 1, 0) == RawScoop(payload, seed, nonce, s)
    {
      assert LandedScoop(cache, 1, payload, seed, nonce, s);
    }
  }

  // The last column that can be asked for, of a cache of one nonce: the check passes, because the
  // required size wraps, the scoops land one place earlier, and the last cell of scoop 0 outside.
  lemma LastColumnLeaves(cache: seq<Word>, payload: seq<Byte>, seed: seq<Byte>, nonce: nat)
    requires |payload| == 20 && |seed| == 32
    requires |cache| == 65536 && Landed(cache, MAX_U64, payload, seed, nonce)
    ensures PassesGuard(|cache|, MAX_U64, 1) && LeavesCache(1, MAX_U64, 1)
    ensures forall s :: 1 <= s < NUM_SCOOPS ==> CacheScoop(cache, s - 1, 0) == RawScoop(payload, seed, nonce, s)
  {
    hide RawScoop, CacheScoop;
    assert AtTheEnd(0, 0, MAX_U64, 1);
    forall s | 1 <= s < NUM_SCOOPS
      ensures CacheScoop(cache, s - 1, 0) == RawScoop(payload, seed, nonce, s)
    {
      assert LandedScoop(cache, MAX_U64, payload, seed, nonce, s);
    }
  }

  // 2^46 nonces take 2^64 bytes, which wrap to none: at offset 0 the check passes for a cache of one nonce.
  lemma GuardWraps()
    ensures PassesGuard(65536, 0, 0x4000_0000_0000) && !ColumnsFit(65536, 0, 0x4000_0000_0000)
    ensures RequiredSize(0, 0x4000_0000_0000) == 0
  {
  }

  // The check guarantees that the columns fit, in caches of any size, exactly for offset 0 and byte
  // counts of 64 bits; in caches that there can be, also if no cache passes.
  lemma GuardSuffices(cacheOffset: U64, numNonces: U64)
    ensures (forall length: nat ::
              PassesGuard(length, cacheOffset, numNonces) ==> ColumnsFit(length, cacheOffset, numNonces))
       <==> cacheOffset == 0 && numNonces * NONCE_SIZE < U64_RANGE
    ensures (forall length: nat ::
              length <= SLICE_LIMIT && PassesGuard(length, cacheOffset, numNonces) ==>
                ColumnsFit(length, cacheOffset, numNonces))
       <==> (cacheOffset == 0 && numNonces * NONCE_SIZE < U64_RANGE)
            || 4 * SLICE_LIMIT < RequiredSize(cacheOffset, numNonces)
  {
    if cacheOffset == 0 && numNonces * NONCE_SIZE < U64_RANGE {
      forall length: nat | PassesGuard(length, 0, numNonces)
        ensures ColumnsFit(length, 0, numNonces)
      {
        DivParts(length, NONCE_WORDS);
      }
    } else {
      var length := (RequiredSize(cacheOffset, numNonces) + 3) / 4;
      DivParts(length, NONCE_WORDS);
      DivParts(numNonces * NONCE_SIZE, U64_RANGE);
      DivParts(cacheOffset + Mod64(numNonces * NONCE_SIZE), U64_RANGE);
      assert PassesGuard(length, cacheOffset, numNonces) && !ColumnsFit(length, cacheOffset, numNonces);
    }
  }

  method GenerateNonces(cpu: Features, cache: array<Word>, cacheOffset: U64, payload: seq<Byte>, seed: seq<Byte>,
                        startNonce: nat, numNonces: U64) returns (outcome: Outcome, ghost outside: bool)
    requires |payload| == 20 && |seed| == 32 && cache.Length <= SLICE_LIMIT
    modifies cache
    ensures !PassesGuard(cache.Length, cacheOffset, numNonces) ==>
      && outcome == BufferTooSmall(RequiredSize(cacheOffset, numNonces), 4 * cache.Length)
      && !outside && cache[..] == old(cache[..])
    ensures PassesGuard(cache.Length, cacheOffset, numNonces) ==> outcome == Done
    ensures ColumnsFit(cache.Length, cacheOffset, numNonces) ==>
      !outside && cache[..] == Plotted(old(cache[..]), payload, seed, startNonce, cacheOffset, numNonces)
    ensures PassesGuard(cache.Length, cacheOffset, numNonces) && numNonces == 1 && cache.Length >= NONCE_WORDS ==>
      && Landed(cache[..], cacheOffset, payload, seed, SaturatingAdd(startNonce, 0))
      && (outside <==> LeavesCache(1, cacheOffset, cache.Length / NONCE_WORDS))
  {
    hide Plotted, Landed, LeavesCache;
    var required := RequiredSize(cacheOffset, numNonces);
    if 4 * cache.Length < required {
      return BufferTooSmall(required, 4 * cache.Length), false;
    }
    if cpu.avx512f {
      outside := SplitNonces(16, cache, cacheOffset, payload, seed, startNonce, numNonces);
    } else if cpu.avx2 {
      outside := SplitNonces(8, cache, cacheOffset, payload, seed, startNonce, numNonces);
    } else if cpu.avx || cpu.sse2 {
      outside := SplitNonces(4, cache, cacheOffset, payload, seed, startNonce, numNonces);
    } else {
      outside := GenerateNonces32(cache, cacheOffset, payload, seed, startNonce, numNonces);
      OneColumn(cacheOffset, cache.Length);
    }
    outcome := Done;
  }

  // Whole vectors, then the remainder one by one: the same cache as the scalar generator alone.
  method SplitNonces(width: nat, cache: array<Word>, cacheOffset: nat, payload: seq<Byte>, seed: seq<Byte>,
                     startNonce: nat, numNonces: nat) returns (ghost outside: bool)
    requires width > 0 && |payload| == 20 && |seed| == 32 && cacheOffset < U64_RANGE && cache.Length <= SLICE_LIMIT
    modifies cache
    ensures ColumnsFit(cache.Length, cacheOffset, numNonces) ==>
      !outside && cache[..] == Plotted(old(cache[..]), payload, seed, startNonce, cacheOffset, numNonces)
    ensures numNonces == 1 < width && cache.Length >= NONCE_WORDS ==>
      && Landed(cache[..], cacheOffset, payload, seed, SaturatingAdd(startNonce, 0))
      && (outside <==> LeavesCache(1, cacheOffset, cache.Length / NONCE_WORDS))
  {
    hide Plotted, Landed, LeavesCache;
    var simdNonces := numNonces / width * width;
    var reminder := numNonces % width;
    assert simdNonces + reminder == numNonces;
    RoundUpMultiple(numNonces / width, width);
    outside := GenerateNoncesVector(width, cache, cacheOffset, payload, seed, startNonce, simdNonces);
    if reminder > 0 {
      ghost var escaped := GenerateNonces32(cache, SaturatingAdd(cacheOffset, simdNonces), payload, seed,
                                            SaturatingAdd(startNonce, simdNonces), reminder);
      outside := outside || escaped;
      OneColumn(cacheOffset, cache.Length);
      PlottedMore(old(cache[..]), payload, seed, startNonce, cacheOffset, simdNonces, reminder);
    }
  }

  lemma OneColumn(cacheOffset: nat, length: nat)
    ensures (exists k :: 0 <= k < 1 && ColumnLeaves(cacheOffset, k, length))
       <==> LeavesCache(1, cacheOffset, length / NONCE_WORDS)
  {
    assert ColumnLeaves(cacheOffset, 0, length) <==> LeavesCache(1, cacheOffset, length / NONCE_WORDS);
  }

  lemma RoundUpMultiple(q: nat, width: nat)
    requires width > 0
    ensures RoundUp(q * width, width) == q * width
  {
    DivModUnique(q * width + width - 1, width, q, width - 1);
  }

  // ----- single scoops for validation -----

  method GenerateAndExtractScoop32(payload: seq<Byte>, seed: seq<Byte>, nonce: nat, scoop: nat)
    returns (output: seq<Word>)
    requires |payload| == 20 && |seed| == 32 && scoop < NUM_SCOOPS
    ensures output == RawScoop(payload, seed, nonce, scoop)
  {
    hide PlotNonce, TailOf, ScoopOf;
    var buffer := NonceBuffer(payload, seed, nonce);
    FlatLaneOfOne(buffer[..]);
    output := ExtractScoopFromInterleaved(buffer[..], 1, 0, scoop);
  }

  // One row per word position, one lane per column.
  function Interleave(lanes: seq<seq<Word>>, n: nat): (r: seq<Reg>)
    requires forall l :: 0 <= l < |lanes| ==> |lanes[l]| == n
    ensures |r| == n && Wide(r, |lanes|)
  {
    seq(n, j requires 0 <= j < n => seq(|lanes|, l requires 0 <= l < |lanes| => lanes[l][j]))
  }

  lemma InterleaveLane(lanes: seq<seq<Word>>, n: nat, l: nat)
    requires (forall l :: 0 <= l < |lanes| ==> |lanes[l]| == n) && l < |lanes|
    ensures Lane(Interleave(lanes, n), |lanes|, l) == lanes[l]
  {
  }

  // Termination blocks of independent lanes: lane l gets its own account, seed and nonce.
  method PrepareLanes(width: nat, payloads: seq<seq<Byte>>, seeds: seq<seq<Byte>>, nonces: seq<nat>,
                      ghost tails: seq<Tail>)
    returns (t1: seq<Reg>, t2: seq<Reg>, t3: seq<Reg>, seedRows: seq<Reg>)
    requires |payloads| == |seeds| == |nonces| == |tails| == width
    requires forall l :: 0 <= l < width ==>
      |payloads[l]| == 20 && |seeds[l]| == 32 && tails[l] == TailOf(payloads[l], seeds[l], nonces[l])
    ensures Terminated(width, tails, t1, t2, t3, seedRows)
  {
    hide TailOf, T1, T2, T3;
    var l1: seq<seq<Word>>, l2: seq<seq<Word>>, l3: seq<seq<Word>>, ls: seq<seq<Word>> := [], [], [], [];
    for lane := 0 to width
      invariant |l1| == |l2| == |l3| == |ls| == lane
      invariant forall l :: 0 <= l < lane ==>
        l1[l] == T1(tails[l]) && l2[l] == T2(tails[l]) && l3[l] == T3() && ls[l] == tails[l][..8]
    {
      var b1, b2, b3, seedWords := Terminations(payloads[lane], seeds[lane], nonces[lane]);
      l1, l2, l3, ls := l1 + [b1], l2 + [b2], l3 + [b3], ls + [seedWords];
    }
    t1, t2, t3, seedRows := Interleave(l1, 16), Interleave(l2, 16), Interleave(l3, 16), Interleave(ls, 8);
    forall l | 0 <= l < width
      ensures Lane(t1, width, l) == l1[l] && Lane(t2, width, l) == l2[l]
      ensures Lane(t3, width, l) == l3[l] && Lane(seedRows, width, l) == ls[l]
    {
      InterleaveLane(l1, 16, l);
      InterleaveLane(l2, 16, l);
      InterleaveLane(l3, 16, l);
      InterleaveLane(ls, 8, l);
    }
  }

  // Lane independence: output l depends on the inputs of lane l alone, and is the scalar result for them.
  method GenerateAndExtractScoopsVector(width: nat, payloads: seq<seq<Byte>>, seeds: seq<seq<Byte>>,
                                        nonces: seq<nat>, scoops: seq<nat>) returns (outputs: seq<seq<Word>>)
    requires width > 0 && |payloads| == |seeds| == |nonces| == |scoops| == width
    requires forall l :: 0 <= l < width ==> |payloads[l]| == 20 && |seeds[l]| == 32 && scoops[l] < NUM_SCOOPS
    ensures |outputs| == width
    ensures forall l :: 0 <= l < width ==> outputs[l] == RawScoop(payloads[l], seeds[l], nonces[l], scoops[l])
  {
    hide PlotNonce, TailOf, ScoopOf, Terminated;
    ghost var tails: seq<Tail> := seq(width, l requires 0 <= l < width => TailOf(payloads[l], seeds[l], nonces[l]));
    var t1, t2, t3, seedRows := PrepareLanes(width, payloads, seeds, nonces, tails);
    var buffer := VNonceBuffer(width, t1, t2, t3, seedRows, tails);
    var rows := buffer[..];
    var source := Flat(rows, width);
    assert |source| == NONCE_WORDS * width;
    outputs := [];
    for lane := 0 to width
      invariant |outputs| == lane
      invariant forall l :: 0 <= l < lane ==> outputs[l] == RawScoop(payloads[l], seeds[l], nonces[l], scoops[l])
    {
      FlatLaneIsLane(rows, width, lane);
      var output := ExtractScoopFromInterleaved(source, width, lane, scoops[lane]);
      outputs := outputs + [output];
    }
  }
}
