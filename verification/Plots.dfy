// Scanning plot files: buffers are filled from a file, compressed on the fly where a chain asks
// for more than the plot offers, and handed on for hashing.
module Plots {
  import opened Wrappers
  import opened Words
  import opened Layout
  import opened Scoops
  import opened ProofQuality
  import opened Compression
  import opened Cpu

  // ----- buffer size and compression steps -----

  function AndBits(x: nat, y: nat): nat
    decreases x + y
  {
    if x == 0 && y == 0 then 0 else 2 * AndBits(x / 2, y / 2) + (if x % 2 == 1 && y % 2 == 1 then 1 else 0)
  }

  // The floor of the logarithm; minus infinity, for 0, becomes 0 as an integer.
  function Log2(x: nat): nat {
    if x <= 1 then 0 else Log2(x / 2) + 1
  }

  lemma {:induction false} AndBelow(x: nat)
    requires x > 0
    ensures AndBits(x, x - 1) == 0 <==> x == Pow2(Log2(x))
    ensures Pow2(Log2(x)) <= x
  {
    if x == 1 {
      assert AndBits(1, 0) == 2 * AndBits(0, 0);
    } else {
      AndBelow(x / 2);
      if x % 2 == 0 {
        assert (x - 1) / 2 == x / 2 - 1;
      } else {
        assert (x - 1) / 2 == x / 2;
        AndSelf(x / 2);
      }
    }
  }

  // One less, in 64 bits: 0 wraps.
  function OneLess(x: U64): U64 {
    Mod64(x + MAX_U64)
  }

  // The bit test of the compression setup recognises exactly 0 and the powers of two.
  lemma PowerOfTwoTest(x: U64)
    ensures AndBits(x, OneLess(x)) == 0 <==> x == 0 || x == Pow2(Log2(x))
  {
    if x == 0 {
      AndZero(OneLess(0));
    } else {
      DivModUnique(x + MAX_U64, U64_RANGE, 1, x - 1);
      AndBelow(x);
    }
  }

  lemma {:induction false} AndZero(x: nat)
    ensures AndBits(0, x) == 0
  {
    if x > 0 {
      AndZero(x / 2);
    }
  }

  lemma {:induction false} AndSelf(x: nat)
    ensures AndBits(x, x) == x
  {
    if x > 0 {
      AndSelf(x / 2);
    }
  }

  datatype Setup = MaxSteps(steps: nat) | NotPowerOfTwo

  function ValidateCompressionSetup(onTheFly: bool, readCacheInWarps: U64): Setup {
    if !onTheFly then MaxSteps(0)
    else if AndBits(readCacheInWarps, OneLess(readCacheInWarps)) != 0 then NotPowerOfTwo
    else MaxSteps(Log2(readCacheInWarps))
  }

  lemma {:induction false} LogOfPower(n: nat)
    ensures Log2(Pow2(n)) == n
  {
    if n > 0 {
      LogOfPower(n - 1);
    }
  }

  // With on-the-fly compression, s steps are the most if and only if the buffer has 2^s warps, or
  // none, and anything but a power of two is refused.
  lemma SetupExactly(readCacheInWarps: U64, s: nat)
    ensures ValidateCompressionSetup(false, readCacheInWarps) == MaxSteps(0)
    ensures ValidateCompressionSetup(true, readCacheInWarps) == MaxSteps(s)
       <==> readCacheInWarps == Pow2(s) || (readCacheInWarps == 0 && s == 0)
    ensures ValidateCompressionSetup(true, readCacheInWarps) == NotPowerOfTwo ==> readCacheInWarps != Pow2(s)
  {
    hide AndBits, OneLess, Pow2;
    PowerOfTwoTest(readCacheInWarps);
    LogOfPower(s);
    Pow2Positive(s);
  }

  // Every number of steps that the setup allows divides the buffer into whole groups of warps.
  lemma StepsDivideBuffer(readCacheInWarps: U64, s: nat)
    requires var setup := ValidateCompressionSetup(true, readCacheInWarps); setup.MaxSteps? && s <= setup.steps
    ensures readCacheInWarps % Pow2(s) == 0
  {
    PowerOfTwoTest(readCacheInWarps);
    var k := Log2(readCacheInWarps);
    if readCacheInWarps > 0 {
      Pow2Add(k - s, s);
    }
    DivModUnique(readCacheInWarps, Pow2(s), if readCacheInWarps > 0 then Pow2(k - s) else 0, 0);
  }

  // ----- plot files -----

  datatype ReadResult = Warps(n: nat) | ReadError

  class PlotFile {
    const warps: nat
    const compression: nat
    const payload: Payload
    const seed: Seed
    // scoop by scoop, warp by warp
    const data: seq<Word>
    var readProgress: nat

    ghost predicate Valid()
      reads this
    {
      |data| == NUM_SCOOPS * warps * WARP_WORDS && readProgress <= warps
    }

    constructor (warps: nat, compression: nat, payload: Payload, seed: Seed, data: seq<Word>)
      requires |data| == NUM_SCOOPS * warps * WARP_WORDS
      ensures Valid() && readProgress == 0
      ensures this.warps == warps && this.compression == compression
      ensures this.payload == payload && this.seed == seed && this.data == data
    {
      this.warps, this.compression, this.payload, this.seed, this.data := warps, compression, payload, seed, data;
      readProgress := 0;
    }

    // Reads the next warps of a scoop to the front of the buffer, as many as fit. A read that
    // fails leaves the progress alone and may have overwritten the buffer.
    method Read(bs: array<Word>, scoop: nat) returns (r: ReadResult)
      requires Valid()
      modifies this`readProgress, bs
      ensures Valid()
      ensures scoop >= NUM_SCOOPS || old(readProgress) == warps ==> r.ReadError?
      ensures r.ReadError? ==> readProgress == old(readProgress)
      ensures r.Warps? ==>
        && scoop < NUM_SCOOPS
        && r.n == Min(warps - old(readProgress), bs.Length / WARP_WORDS)
        && readProgress == old(readProgress) + r.n
        && r.n * WARP_WORDS <= bs.Length
        && FileOffset(scoop, old(readProgress)) + r.n * WARP_WORDS <= |data|
        && bs[..r.n * WARP_WORDS]
          == data[FileOffset(scoop, old(readProgress))..FileOffset(scoop, old(readProgress)) + r.n * WARP_WORDS]
    {
      var capacity, remaining := bs.Length / WARP_WORDS, warps - readProgress;
      var warpsToRead := if remaining < capacity then remaining else capacity;
      if scoop >= NUM_SCOOPS || readProgress >= warps {
        return ReadError;
      }
      FileBound(scoop, readProgress, warpsToRead, warps);
      hide FileOffset;
      var start := FileOffset(scoop, readProgress);
      var fault: bool := *;
      for i := 0 to warpsToRead * WARP_WORDS
        invariant bs[..i] == data[start..start + i]
        invariant readProgress == old(readProgress)
      {
        bs[i] := data[start + i];
      }
      if fault {
        return ReadError;
      }
      readProgress := readProgress + warpsToRead;
      return Warps(warpsToRead);
    }

    function FileOffset(scoop: nat, warp: nat): nat {
      scoop * warps * WARP_WORDS + warp * WARP_WORDS
    }
  }

  lemma FileBound(scoop: nat, warp: nat, n: nat, warps: nat)
    requires scoop < NUM_SCOOPS && warp + n <= warps
    ensures scoop * warps * WARP_WORDS + warp * WARP_WORDS + n * WARP_WORDS <= NUM_SCOOPS * warps * WARP_WORDS
    ensures (scoop * warps + warp) * WARP_WORDS == scoop * warps * WARP_WORDS + warp * WARP_WORDS
  {
    MulMono(scoop, NUM_SCOOPS, warps);
  }

  // Of this scoop, the file holds, at its compression level, the nonces of its account and seed.
  ghost predicate Genuine(plot: PlotFile, s: nat) {
    |plot.data| == NUM_SCOOPS * plot.warps * WARP_WORDS && s < NUM_SCOOPS &&
    forall w, i :: 0 <= w < plot.warps && 0 <= i < NUM_SCOOPS ==> GenuineScoop(plot, s, w, i)
  }

  ghost predicate GenuineScoop(plot: PlotFile, s: nat, w: nat, i: nat) {
    && |plot.data| == NUM_SCOOPS * plot.warps * WARP_WORDS && s < NUM_SCOOPS && w < plot.warps && i < NUM_SCOOPS
    && (FileBound(s, w, 1, plot.warps);
        var at := plot.FileOffset(s, w) + 16 * i;
        plot.data[at..at + 16] == AtLevel(RawOf(plot.payload, plot.seed), s, w * NUM_SCOOPS + i, plot.compression))
  }

  // Nonce i of the k warps from lo on is.
  ghost predicate GenuineWarps(plot: PlotFile, s: nat, lo: nat, k: nat, i: nat) {
    forall w :: lo <= w < lo + k ==> GenuineScoop(plot, s, w, i)
  }

  // All that a nonce is folded from is genuine, when the warps of the file are folded in groups of k.
  ghost predicate GenuineGroup(plot: PlotFile, s: nat, k: nat, nonce: nat) {
    GenuineWarps(plot, s, nonce / NUM_SCOOPS * k, k, nonce % NUM_SCOOPS)
  }

  // ----- what a reader does, as seen from outside -----

  datatype ReadReply = ReadReply(buffer: seq<Word>, warpOffset: nat, numberOfWarps: nat, payload: Payload, seed: Seed,
                                 compressionLevel: nat)

  // Messages to the collector, and the movements of buffers out of and into the pool.
  datatype Event =
    | Taken
    | Returned
    | WarpsProcessed(n: nat)
    | Data(reply: ReadReply)
    | ReadFailed
    | ScanInterrupted
    | ScanFinished

  // Every cell group of the reply is the scoop of the nonce it will be reported as, at the reported level.
  ghost predicate GenuineReply(reply: ReadReply, scoop: nat) {
    && reply.numberOfWarps > 0
    && reply.numberOfWarps * WARP_WORDS <= |reply.buffer|
    && forall o :: 0 <= o < reply.numberOfWarps * NUM_SCOOPS ==> GenuineNonce(reply, scoop, o)
  }

  ghost predicate GenuineNonce(reply: ReadReply, scoop: nat, o: nat) {
    && 16 * o + 16 <= |reply.buffer|
    && reply.buffer[16 * o..16 * o + 16]
       == AtLevel(RawOf(reply.payload, reply.seed), scoop, reply.warpOffset * NUM_SCOOPS + o, reply.compressionLevel)
  }

  // Every nonce that is folded from genuine ones is what it will be reported as.
  ghost predicate FaithfulReply(reply: ReadReply, plot: PlotFile, scoop: nat, k: nat) {
    && (reply.warpOffset + reply.numberOfWarps) * k <= plot.warps
    && forall o :: 0 <= o < reply.numberOfWarps * NUM_SCOOPS ==> FaithfulNonce(reply, plot, scoop, k, o)
  }

  ghost predicate FaithfulNonce(reply: ReadReply, plot: PlotFile, scoop: nat, k: nat, o: nat) {
    GenuineGroup(plot, scoop, k, reply.warpOffset * NUM_SCOOPS + o) ==> GenuineNonce(reply, scoop, o)
  }

  ghost predicate AllFaithful(events: seq<Event>, plot: PlotFile, scoop: nat, k: nat) {
    forall i :: 0 <= i < |events| && events[i].Data? ==> FaithfulReply(events[i].reply, plot, scoop, k)
  }

  ghost predicate AllGenuine(events: seq<Event>, scoop: nat) {
    forall i :: 0 <= i < |events| && events[i].Data? ==> GenuineReply(events[i].reply, scoop)
  }

  // Every reply is of some warps, and names the account and seed of the file and this level.
  ghost predicate Labelled(events: seq<Event>, plot: PlotFile, level: nat) {
    forall i :: 0 <= i < |events| && events[i].Data? ==> LabelledReply(events[i].reply, plot, level)
  }

  ghost predicate LabelledReply(reply: ReadReply, plot: PlotFile, level: nat) {
    && 0 < reply.numberOfWarps && reply.numberOfWarps * WARP_WORDS <= |reply.buffer|
    && (reply.payload, reply.seed, reply.compressionLevel) == (plot.payload, plot.seed, level)
  }

  lemma LabelledConcat(x: seq<Event>, y: seq<Event>, plot: PlotFile, level: nat)
    requires Labelled(x, plot, level) && Labelled(y, plot, level)
    ensures Labelled(x + y, plot, level)
  {
    hide LabelledReply;
  }

  // The warps delivered for hashing, in order.
  function Delivered(events: seq<Event>): seq<nat> {
    if |events| == 0 then []
    else
      var e := events[|events| - 1];
      Delivered(events[..|events| - 1])
        + (if e.Data? then Range(e.reply.warpOffset, e.reply.warpOffset + e.reply.numberOfWarps) else [])
  }

  function Range(lo: nat, hi: nat): (r: seq<nat>)
    ensures |r| == if lo <= hi then hi - lo else 0
  {
    seq(if lo <= hi then hi - lo else 0, i => lo + i)
  }

  // Buffers taken from the pool and not yet given back or handed on.
  function Held(events: seq<Event>): int {
    if |events| == 0 then 0
    else
      var e := events[|events| - 1];
      Held(events[..|events| - 1]) + (if e.Taken? then 1 else if e.Returned? || e.Data? then -1 else 0)
  }

  // Where a reader stands after what it has done: an order that no reader may break.
  datatype Phase = Idle | Holding | Returning | Over | Stuck

  function Advance(p: Phase, e: Event): Phase {
    match p
    case Idle => if e.Taken? then Holding else if e.ScanFinished? then Over else Stuck
    case Holding =>
      if e.WarpsProcessed? || e.ReadFailed? then Holding
      else if e.Data? || e.Returned? then Idle
      else if e.ScanInterrupted? then Returning
      else Stuck
    case Returning => if e.Returned? then Over else Stuck
    case _ => Stuck
  }

  function PhaseOf(events: seq<Event>): Phase {
    if |events| == 0 then Idle else Advance(PhaseOf(events[..|events| - 1]), events[|events| - 1])
  }

  ghost predicate Has(events: seq<Event>, e: Event) {
    e in events
  }

  lemma {:induction false} EventsConcat(x: seq<Event>, y: seq<Event>)
    ensures Delivered(x + y) == Delivered(x) + Delivered(y)
    ensures Held(x + y) == Held(x) + Held(y)
    ensures PhaseOf(x) == Idle ==> PhaseOf(x + y) == PhaseOf(y)
  {
    hide Advance, Range;
    if |y| == 0 {
      assert x + y == x;
    } else {
      var n := |y| - 1;
      EventsConcat(x, y[..n]);
      OneEvent(x + y[..n], y[n]);
      OneEvent(y[..n], y[n]);
      assert x + y == x + y[..n] + [y[n]] && y == y[..n] + [y[n]];
    }
  }

  // ----- the buffer that goes out -----

  // A full buffer straight from the file.
  lemma PlainReply(plot: PlotFile, scoop: nat, start: nat, n: nat, buf: seq<Word>)
    requires scoop < NUM_SCOOPS && start + n <= plot.warps && 0 < n
    requires n * WARP_WORDS <= |buf|
    requires plot.FileOffset(scoop, start) + n * WARP_WORDS <= |plot.data|
    requires buf[..n * WARP_WORDS]
        == plot.data[plot.FileOffset(scoop, start)..plot.FileOffset(scoop, start) + n * WARP_WORDS]
    ensures FaithfulReply(ReadReply(buf, start, n, plot.payload, plot.seed, plot.compression), plot, scoop, 1)
  {
    hide AtLevel, RawOf, GenuineScoop;
    var reply := ReadReply(buf, start, n, plot.payload, plot.seed, plot.compression);
    forall o | 0 <= o < n * NUM_SCOOPS
      ensures FaithfulNonce(reply, plot, scoop, 1, o)
    {
      var w, i := o / NUM_SCOOPS, o % NUM_SCOOPS;
      DivModUnique(start * NUM_SCOOPS + o, NUM_SCOOPS, start + w, i);
      if GenuineGroup(plot, scoop, 1, start * NUM_SCOOPS + o) {
        assert GenuineScoop(plot, scoop, start + w, i);
        FileCells(plot, scoop, start, n, buf, w, i);
      }
    }
  }

  lemma FileCells(plot: PlotFile, scoop: nat, start: nat, n: nat, buf: seq<Word>, w: nat, i: nat)
    requires scoop < NUM_SCOOPS && start + n <= plot.warps && w < n && i < NUM_SCOOPS
    requires GenuineScoop(plot, scoop, start + w, i)
    requires n * WARP_WORDS <= |buf|
    requires plot.FileOffset(scoop, start) + n * WARP_WORDS <= |plot.data|
    requires buf[..n * WARP_WORDS]
        == plot.data[plot.FileOffset(scoop, start)..plot.FileOffset(scoop, start) + n * WARP_WORDS]
    ensures var x := w * WARP_WORDS + 16 * i;
      && x + 16 <= n * WARP_WORDS
      && buf[x..x + 16] == AtLevel(RawOf(plot.payload, plot.seed), scoop, (start + w) * NUM_SCOOPS + i,
        plot.compression)
  {
    hide AtLevel, RawOf;
    var x, at := w * WARP_WORDS + 16 * i, plot.FileOffset(scoop, start);
    assert plot.FileOffset(scoop, start + w) == at + w * WARP_WORDS;
    SliceOfPrefix(buf, n * WARP_WORDS, x, 16);
    SliceOfSlice(plot.data, at, n * WARP_WORDS, x, 16);
  }

  // The XOR of raw warps in the buffer is, nonce by nonce, the XOR of their scoops.
  lemma {:induction false} RangeIsFold(plot: PlotFile, scoop: nat, start: nat, n: nat, buf: seq<Word>, lo: nat,
                                       k: nat, i: nat)
    requires GenuineWarps(plot, scoop, start + lo, k, i) && scoop < NUM_SCOOPS && start + n <= plot.warps
        && i < NUM_SCOOPS
    requires n * WARP_WORDS <= |buf| && lo + k <= n
    requires plot.FileOffset(scoop, start) + n * WARP_WORDS <= |plot.data|
    requires buf[..n * WARP_WORDS]
        == plot.data[plot.FileOffset(scoop, start)..plot.FileOffset(scoop, start) + n * WARP_WORDS]
    ensures XorWarpRange(buf, WARP_WORDS, lo, k)[16 * i..16 * i + 16]
         == FoldWarps(RawOf(plot.payload, plot.seed), scoop, i, plot.compression, start + lo, k)
    decreases k
  {
    hide AtLevel, RawOf, Xor, XorSeq, XorScoop, GenuineScoop;
    if k > 0 {
      assert GenuineScoop(plot, scoop, start + lo + k - 1, i);
      RangeIsFold(plot, scoop, start, n, buf, lo, k - 1, i);
      FileCells(plot, scoop, start, n, buf, lo + k - 1, i);
      FoldOne(RawOf(plot.payload, plot.seed), scoop, i, plot.compression, start, buf, lo, k);
    } else {
      assert XorWarpRange(buf, WARP_WORDS, lo, 0)[16 * i..16 * i + 16] == ZeroScoop();
    }
  }

  lemma FoldOne(raw: Raw, scoop: nat, i: nat, c: nat, start: nat, buf: seq<Word>, lo: nat, k: nat)
    requires k > 0 && (lo + k) * WARP_WORDS <= |buf| && i < NUM_SCOOPS
    requires XorWarpRange(buf, WARP_WORDS, lo, k - 1)[16 * i..16 * i + 16]
        == FoldWarps(raw, scoop, i, c, start + lo, k - 1)
    requires var at := (lo + k - 1) * WARP_WORDS + 16 * i;
      buf[at..at + 16] == AtLevel(raw, scoop, (start + lo + k - 1) * NUM_SCOOPS + i, c)
    ensures XorWarpRange(buf, WARP_WORDS, lo, k)[16 * i..16 * i + 16] == FoldWarps(raw, scoop, i, c, start + lo, k)
  {
    hide AtLevel, Xor, XorSeq, XorScoop;
    SliceOfSlice(buf, (lo + k - 1) * WARP_WORDS, WARP_WORDS, 16 * i, 16);
    XorSlice(XorWarpRange(buf, WARP_WORDS, lo, k - 1), Warp(buf, WARP_WORDS, lo + k - 1), 16 * i);
  }

  lemma XorSlice(x: seq<Word>, y: seq<Word>, at: nat)
    requires |x| == |y| && at + 16 <= |x|
    ensures XorSeq(x, y)[at..at + 16] == XorScoop(x[at..at + 16], y[at..at + 16])
  {
    hide Xor;
  }

  // How many compressed warps n raw ones make.
  function Groups(n: nat, k: nat): nat {
    if k > 0 then n / k else 0
  }

  predicate Aligns(x: nat, k: nat) {
    k > 0 && x % k == 0
  }

  // A buffer compressed in place by s steps.
  lemma CompressedReply(plot: PlotFile, scoop: nat, start: nat, n: nat, was: seq<Word>, now: seq<Word>, warps: nat,
                        s: nat, reply: ReadReply)
    requires scoop < NUM_SCOOPS && start + n <= plot.warps && plot.compression >= 1
    requires n * WARP_WORDS <= |was| && warps <= n
    requires plot.FileOffset(scoop, start) + n * WARP_WORDS <= |plot.data|
    requires was[..n * WARP_WORDS]
        == plot.data[plot.FileOffset(scoop, start)..plot.FileOffset(scoop, start) + n * WARP_WORDS]
    requires Folded(was, now, WARP_WORDS, warps, s) && Aligns(start, Pow2(s))
    requires reply == ReadReply(now, Groups(start, Pow2(s)), Groups(warps, Pow2(s)), plot.payload, plot.seed,
                                plot.compression + s)
    ensures FaithfulReply(reply, plot, scoop, Pow2(s))
  {
    hide AtLevel, RawOf, GenuineWarps, Folded, Pow2;
    var k := Pow2(s);
    FoldedFits(was, now, warps, s);
    GroupsEnd(start, k, warps);
    forall o | 0 <= o < reply.numberOfWarps * NUM_SCOOPS
      ensures FaithfulNonce(reply, plot, scoop, k, o)
    {
      var j, i := o / NUM_SCOOPS, o % NUM_SCOOPS;
      DivModUnique(start / k * NUM_SCOOPS + o, NUM_SCOOPS, start / k + j, i);
      AlignedGroup(start, k, j);
      if GenuineGroup(plot, scoop, k, start / k * NUM_SCOOPS + o) {
        CompressedNonce(plot, scoop, start, n, was, now, warps, s, j, i);
      }
    }
  }

  lemma FoldedFits(was: seq<Word>, now: seq<Word>, warps: nat, s: nat)
    requires Folded(was, now, WARP_WORDS, warps, s)
    ensures |now| == |was| && warps * WARP_WORDS <= |was| && warps / Pow2(s) * WARP_WORDS <= |now|
  {
    hide Pow2;
    QuotientShrinks(warps, s);
  }

  lemma CompressedNonce(plot: PlotFile, scoop: nat, start: nat, n: nat, was: seq<Word>, now: seq<Word>, warps: nat,
                        s: nat, j: nat, i: nat)
    requires GenuineWarps(plot, scoop, start + j * Pow2(s), Pow2(s), i)
    requires scoop < NUM_SCOOPS && start + n <= plot.warps && plot.compression >= 1
    requires n * WARP_WORDS <= |was| && warps <= n
    requires plot.FileOffset(scoop, start) + n * WARP_WORDS <= |plot.data|
    requires was[..n * WARP_WORDS]
        == plot.data[plot.FileOffset(scoop, start)..plot.FileOffset(scoop, start) + n * WARP_WORDS]
    requires Folded(was, now, WARP_WORDS, warps, s)
    requires start % Pow2(s) == 0 && j < warps / Pow2(s) && i < NUM_SCOOPS
    ensures var at := j * WARP_WORDS + 16 * i;
      && at + 16 <= |now|
      && now[at..at + 16]
         == AtLevel(RawOf(plot.payload, plot.seed), scoop, (start / Pow2(s) + j) * NUM_SCOOPS + i, plot.compression + s)
  {
    hide AtLevel, RawOf, GenuineWarps, Pow2, XorWarpRange, FoldWarps;
    var k := Pow2(s);
    Pow2Positive(s);
    RangeBound(j, s, warps, WARP_WORDS, |was|);
    assert RangeFolded(was, now, WARP_WORDS, warps, s, j);
    GroupBound(j, k, warps);
    RangeIsFold(plot, scoop, start, n, was, j * k, k, i);
    LevelUpMany(RawOf(plot.payload, plot.seed), scoop, start / k + j, i, plot.compression, s);
    AlignedGroup(start, k, j);
    SliceOfSlice(now, j * WARP_WORDS, WARP_WORDS, 16 * i, 16);
  }

  lemma AlignedGroup(start: nat, k: nat, j: nat)
    requires k > 0 && start % k == 0
    ensures k * (start / k + j) == start + j * k == (start / k + j) * k
  {
    var q := start / k;
    assert start == q * k;
    assert k * (q + j) == q * k + j * k;
  }

  lemma GroupsEnd(start: nat, k: nat, warps: nat)
    requires k > 0 && start % k == 0
    ensures (start / k + warps / k) * k <= start + warps
  {
    DivParts(start, k);
    DivParts(warps, k);
    MulGap(start / k, warps / k, k);
  }

  lemma GroupBound(j: nat, k: nat, warps: nat)
    requires k > 0 && j < warps / k
    ensures j * k + k <= warps
  {
    assert warps == warps / k * k + warps % k;
    MulMono(j, warps / k, k);
  }

  // ----- filling one buffer -----

  datatype Fill = Full(total: nat) | Nothing | Interrupted

  ghost predicate Filled(plot: PlotFile, scoop: nat, start: nat, total: nat, buf: seq<Word>) {
    && scoop < NUM_SCOOPS && 0 < total && start + total <= plot.warps && total * WARP_WORDS <= |buf|
    && plot.FileOffset(scoop, start) + total * WARP_WORDS <= |plot.data|
    && buf[..total * WARP_WORDS]
      == plot.data[plot.FileOffset(scoop, start)..plot.FileOffset(scoop, start) + total * WARP_WORDS]
  }

  // Reads until the buffer is full or the file ends. After every read the interrupt flag is
  // looked at; an interrupted reader gives its buffer back although the progress has moved on.
  method FillBuffer(plot: PlotFile, bs: array<Word>, cap: nat, scoop: nat) returns (r: Fill, events: seq<Event>)
    requires plot.Valid() && plot.readProgress < plot.warps && bs.Length == cap * WARP_WORDS
    modifies plot`readProgress, bs
    ensures plot.Valid()
    ensures var start, all := old(plot.readProgress), Min(plot.warps - old(plot.readProgress), cap);
      match r
      case Full(total) =>
        total == all && plot.readProgress == start + total
        && Filled(plot, scoop, start, total, bs[..]) && events == [WarpsProcessed(total)]
      case Interrupted =>
        all > 0 && plot.readProgress == start + all && events == [WarpsProcessed(all), ScanInterrupted, Returned]
      case Nothing =>
        (events == [ReadFailed] && plot.readProgress == plot.warps)
          || (events == [] && plot.readProgress == start && cap == 0)
  {
    var total := 0;
    events := [];
    ghost var start := plot.readProgress;
    ghost var all := if plot.warps - start < cap then plot.warps - start else cap;
    while total == 0 || (plot.readProgress < plot.warps && total * WARP_WORDS < bs.Length)
      invariant plot.Valid()
      invariant total == 0 ==> plot.readProgress == start && events == []
      invariant total > 0 ==> total == all && plot.readProgress == start + total
      invariant total > 0 ==> Filled(plot, scoop, start, total, bs[..]) && events == [WarpsProcessed(total)]
      decreases plot.warps - plot.readProgress
    {
      var read := plot.Read(bs, scoop);
      match read
      case Warps(warpsRed) =>
        if warpsRed == 0 {
          break;
        }
        total := total + warpsRed;
        events := events + [WarpsProcessed(warpsRed)];
        var interrupt: bool := *;
        if interrupt {
          return Interrupted, events + [ScanInterrupted, Returned];
        }
        assert bs[..][..total * WARP_WORDS] == bs[..total * WARP_WORDS];
      case ReadError =>
        plot.readProgress := plot.warps;
        events := events + [ReadFailed];
        break;
    }
    if total == 0 {
      return Nothing, events;
    }
    return Full(total), events;
  }

  // ----- handing a buffer on -----

  function Steps(action: Action): nat {
    if action.CompressOnFly? then action.steps else 0
  }

  lemma DropOdd(total: nat, s: nat)
    requires s >= 1
    ensures (total - total % 2) / Pow2(s) == total / Pow2(s)
    ensures total < 2 ==> total / Pow2(s) == 0
  {
    hide Pow2;
    Pow2Next(s - 1);
    Pow2Positive(s - 1);
    DivDiv(total, 2, Pow2(s - 1));
    DivDiv(total - total % 2, 2, Pow2(s - 1));
    assert (total - total % 2) / 2 == total / 2;
    if total < 2 {
      DivModUnique(0, Pow2(s - 1), 0, 0);
    }
  }

  method SendBuffer(cpu: Features, plot: PlotFile, bs: array<Word>, action: Action, start: nat, total: nat, scoop: nat)
    returns (event: Event)
    requires !action.Skip? && Filled(plot, scoop, start, total, bs[..])
    requires action.CompressOnFly? ==> action.steps >= 1
    modifies bs
    ensures var k := Pow2(Steps(action));
      if total / k == 0 then event == Returned
      else event.Data? && event.reply.warpOffset == start / k && event.reply.numberOfWarps == total / k
           && LabelledReply(event.reply, plot, plot.compression + Steps(action))
           && (start % k == 0 && (action.CompressOnFly? ==> plot.compression >= 1) ==>
                FaithfulReply(event.reply, plot, scoop, k))
  {
    hide FaithfulReply, Folded, Pow2, PlotFile.FileOffset;
    var finalWarps, finalCompression, offset := total, plot.compression, start;
    ghost var was := bs[..];
    if action.CompressOnFly? {
      var steps := action.steps;
      DropOdd(total, steps);
      var compressible := if total % 2 == 1 then total - 1 else total;
      if compressible == 0 {
        finalWarps := 0;
      } else {
        WarpsFit(compressible, total, bs.Length);
        finalWarps := CompressWarpsInline(cpu, bs, compressible, steps);
        finalCompression := plot.compression + steps;
        QuotientShrinks(compressible, steps);
      }
      offset := start / Pow2(steps);
    } else {
      OneWhole();
    }
    if finalWarps == 0 {
      return Returned;
    }
    var reply := ReadReply(bs[..], offset, finalWarps, plot.payload, plot.seed, finalCompression);
    WarpsFit(finalWarps, total, bs.Length);
    if !action.CompressOnFly? {
      PlainReply(plot, scoop, start, total, bs[..]);
    } else if plot.compression >= 1 && start % Pow2(action.steps) == 0 {
      CompressedReply(plot, scoop, start, total, was, bs[..], total - total % 2, action.steps, reply);
    }
    return Data(reply);
  }

  lemma WarpsFit(compressible: nat, total: nat, length: nat)
    requires compressible <= total && total * WARP_WORDS <= length
    ensures compressible * WARP_WORDS <= length
  {
  }

  lemma OneWhole()
    ensures Pow2(0) == 1
  {
  }

  // ----- scanning one file -----

  datatype CompressionConfig = CompressionConfig(minLevel: nat, targetLevel: nat, maxSteps: nat)

  // Progress stays on buffer boundaries until the file ends; on-the-fly compression relies on it.
  predicate Aligned(progress: nat, cap: nat, warps: nat) {
    cap == 0 || progress % cap == 0 || progress == warps
  }

  function ActionAt(level: nat, config: Option<CompressionConfig>): Action {
    if config.Some?
    then DetermineCompressionAction(level, config.value.minLevel, config.value.targetLevel, config.value.maxSteps)
    else MineNormal
  }

  function ActionFor(plot: PlotFile, config: Option<CompressionConfig>): Action {
    ActionAt(plot.compression, config)
  }

  // How many warps of the file make one of those delivered.
  function GroupSize(plot: PlotFile, config: Option<CompressionConfig>): (k: nat)
    ensures k > 0
  {
    Pow2(Steps(ActionFor(plot, config)))
  }

  // The level at which the file's nonces are reported.
  function ReportedLevel(plot: PlotFile, config: Option<CompressionConfig>): nat {
    plot.compression + Steps(ActionFor(plot, config))
  }

  ghost predicate GoodConfig(config: Option<CompressionConfig>, cap: nat) {
    config.Some? ==> cap < U64_RANGE && ValidateCompressionSetup(true, cap) == MaxSteps(config.value.maxSteps)
  }

  datatype Status = Skipped | Completed | Failed | Paused

  lemma QuotientsAdd(x: nat, y: nat, k: nat)
    requires k > 0 && x % k == 0
    ensures (x + y) / k == x / k + y / k
    ensures y % k == 0 ==> (x + y) % k == 0
  {
    var q, r := x / k, y / k;
    assert x == q * k && y == r * k + y % k;
    assert (q + r) * k == q * k + r * k;
    DivModUnique(x + y, k, q + r, y % k);
  }

  lemma MultipleOfMultiple(x: nat, cap: nat, k: nat)
    requires cap > 0 && k > 0 && x % cap == 0 && cap % k == 0
    ensures x % k == 0
  {
    var q, r := x / cap, cap / k;
    assert x == q * cap && cap == r * k;
    MulTurn(q, r, k);
    assert q * (r * k) == q * r * k by { MulTurn(q, k, r); MulTurn(q, r, k); }
    DivModUnique(x, k, q * r, 0);
  }

  lemma NextBuffer(start: nat, cap: nat, warps: nat, k: nat)
    requires cap > 0 && Aligned(start, cap, warps) && start < warps && k > 0 && cap % k == 0
    ensures start % k == 0 && start % cap == 0
    ensures var total := if warps - start < cap then warps - start else cap;
      Aligned(start + total, cap, warps) && (start + total) / k == start / k + total / k
  {
    var total := if warps - start < cap then warps - start else cap;
    MultipleOfMultiple(start, cap, k);
    QuotientsAdd(start, total, k);
    if total == cap {
      DivModUnique(cap, cap, 1, 0);
      QuotientsAdd(start, cap, cap);
    }
  }

  lemma OneEvent(events: seq<Event>, e: Event)
    ensures Delivered(events + [e]) == Delivered(events)
      + (if e.Data? then Range(e.reply.warpOffset, e.reply.warpOffset + e.reply.numberOfWarps) else [])
    ensures Held(events + [e]) == Held(events) + (if e.Taken? then 1 else if e.Returned? || e.Data? then -1 else 0)
    ensures forall x :: Has(events + [e], x) <==> Has(events, x) || x == e
    ensures PhaseOf(events + [e]) == Advance(PhaseOf(events), e)
  {
    hide Advance;
    assert (events + [e])[..|events|] == events;
  }

  lemma Quiet(events: seq<Event>, more: seq<Event>)
    requires forall i :: 0 <= i < |more| ==> !more[i].Data? && !more[i].Taken? && !more[i].Returned?
    ensures Delivered(events + more) == Delivered(events) && Held(events + more) == Held(events)
    ensures
      PhaseOf(events) == Holding
      && (forall i :: 0 <= i < |more| ==> more[i].WarpsProcessed? || more[i].ReadFailed?) ==>
        PhaseOf(events + more) == Holding
  {
    if |more| == 0 {
      assert events + more == events;
    } else {
      var n := |more| - 1;
      assert events + more == (events + more[..n]) + [more[n]];
      Quiet(events, more[..n]);
      OneEvent(events + more[..n], more[n]);
    }
  }

  lemma Concat(x: seq<Event>, y: seq<Event>, lo: nat, mid: nat, hi: nat, plot: PlotFile, scoop: nat, k: nat,
               good: bool)
    requires Held(x) == 0 && Held(y) == 0 && lo <= mid <= hi
    requires Delivered(x) == Range(lo, mid) && Delivered(y) == Range(mid, hi)
    requires good ==> AllFaithful(x, plot, scoop, k) && AllFaithful(y, plot, scoop, k)
    ensures Held(x + y) == 0 && Delivered(x + y) == Range(lo, hi)
    ensures good ==> AllFaithful(x + y, plot, scoop, k)
    ensures forall e :: Has(x + y, e) <==> Has(x, e) || Has(y, e)
    ensures PhaseOf(x) == Idle ==> PhaseOf(x + y) == PhaseOf(y)
  {
    hide FaithfulReply;
    EventsConcat(x, y);
    RangeGrows(lo, mid, hi);
  }

  // The warps delivered while the progress moved on, counted in groups of k: one by one from the
  // group the progress stood at, and never one the progress has not passed.
  ghost predicate Scanned(events: seq<Event>, from: nat, to: nat, hi: nat, k: nat) {
    k > 0 && from / k <= hi <= to / k && Delivered(events) == Range(from / k, hi)
  }

  ghost predicate Whole(to: nat, hi: nat, k: nat) {
    k > 0 && hi == to / k
  }

  // An interrupted reader has moved past raw warps that nobody will hash: some, at most a buffer
  // full, and from the start of a buffer on.
  ghost predicate Lost(progress: nat, hi: nat, cap: nat, k: nat) {
    hi * k < progress <= hi * k + cap && (cap > 0 ==> hi * k % cap == 0)
  }

  // A reader whose read failed has stopped delivering at the start of a buffer.
  ghost predicate Broken(warps: nat, hi: nat, cap: nat, k: nat) {
    hi * k < warps && (cap > 0 ==> hi * k % cap == 0)
  }

  lemma BrokenOne(start: nat, warps: nat, cap: nat, k: nat)
    requires k > 0 && start < warps && start % k == 0 && (cap > 0 ==> start % cap == 0)
    ensures Broken(warps, start / k, cap, k)
  {
  }

  lemma LostOne(start: nat, progress: nat, cap: nat, k: nat)
    requires k > 0 && start < progress <= start + cap && start % k == 0 && start % cap == 0
    ensures Lost(progress, start / k, cap, k)
  {
  }

  // One turn of the scan: a buffer is taken, filled, and sent on or given back.
  method ScanBuffer(cpu: Features, plot: PlotFile, cap: nat, action: Action, scoop: nat)
    returns (events: seq<Event>, status: Status, ghost hi: nat)
    requires plot.Valid() && plot.readProgress < plot.warps && !action.Skip?
    requires action.CompressOnFly? ==> action.steps >= 1
    requires Aligned(plot.readProgress, cap, plot.warps) && (cap > 0 ==> cap % Pow2(Steps(action)) == 0)
    modifies plot`readProgress
    ensures plot.Valid() && Aligned(plot.readProgress, cap, plot.warps)
    ensures plot.readProgress >= old(plot.readProgress) && !status.Skipped?
    ensures Held(events) == 0 && PhaseOf(events) == if status == Paused then Over else Idle
    ensures status == Paused <==> Has(events, ScanInterrupted)
    ensures status == Paused ==> Lost(plot.readProgress, hi, cap, Pow2(Steps(action)))
    ensures status == Failed && cap > 0 ==> Has(events, ReadFailed) && plot.readProgress == plot.warps
    ensures status == Failed && cap > 0 ==> Broken(plot.warps, hi, cap, Pow2(Steps(action)))
    ensures Has(events, ReadFailed) ==> status == Failed
    ensures Scanned(events, old(plot.readProgress), plot.readProgress, hi, Pow2(Steps(action)))
    ensures Labelled(events, plot, plot.compression + Steps(action))
    ensures status == Completed ==>
      Whole(plot.readProgress, hi, Pow2(Steps(action))) && plot.readProgress > old(plot.readProgress)
    ensures (action.CompressOnFly? ==> plot.compression >= 1) ==>
      AllFaithful(events, plot, scoop, Pow2(Steps(action)))
  {
    hide FaithfulReply, Filled, Pow2, Aligned, Held, Delivered, PhaseOf, Has, Lost, Broken, AllFaithful, Range,
        LabelledReply;
    ghost var k := Pow2(Steps(action));
    Pow2Positive(Steps(action));
    var bs := new Word[cap * WARP_WORDS];
    var start := plot.readProgress;
    hi := start / k;
    var filled, more := FillBuffer(plot, bs, cap, scoop);
    events := [Taken] + more;
    Opening(more);
    QuotientGrows(start, plot.readProgress, k);
    if cap > 0 {
      NextBuffer(start, cap, plot.warps, k);
    } else {
      NoRoom(plot.readProgress, plot.warps);
    }
    if filled.Interrupted? {
      assert more[1] == ScanInterrupted;
      LostOne(start, plot.readProgress, cap, k);
      NoData(events, plot, scoop, k);
      return events, Paused, hi;
    }
    if filled.Nothing? {
      WholeFile(cap, plot.warps);
      if cap > 0 {
        BrokenOne(start, plot.warps, cap, k);
      }
      OneEvent(events, Returned);
      NoData(events + [Returned], plot, scoop, k);
      return events + [Returned], Failed, hi;
    }
    var event := SendBuffer(cpu, plot, bs, action, start, filled.total, scoop);
    hi := hi + filled.total / k;
    SentOn(filled.total, event, start, k, plot, scoop);
    events := events + [event];
    status := Completed;
  }

  // The events of a turn that fills its buffer.
  lemma SentOn(total: nat, event: Event, start: nat, k: nat, plot: PlotFile, scoop: nat)
    requires k > 0
    requires if total / k == 0 then event == Returned
             else event.Data? && event.reply.warpOffset == start / k && event.reply.numberOfWarps == total / k
    ensures var events := [Taken] + [WarpsProcessed(total)] + [event];
      && Held(events) == 0 && PhaseOf(events) == Idle && !Has(events, ScanInterrupted) && !Has(events, ReadFailed)
      && Delivered(events) == Range(start / k, start / k + total / k)
      && ((event.Data? ==> FaithfulReply(event.reply, plot, scoop, k)) ==> AllFaithful(events, plot, scoop, k))
  {
    hide Held, Delivered, PhaseOf, FaithfulReply;
    Opening([WarpsProcessed(total)]);
    OneEvent([Taken] + [WarpsProcessed(total)], event);
  }

  lemma NoData(events: seq<Event>, plot: PlotFile, scoop: nat, k: nat)
    requires forall i :: 0 <= i < |events| ==> !events[i].Data?
    ensures AllFaithful(events, plot, scoop, k) && forall level :: Labelled(events, plot, level)
  {
  }

  lemma NoRoom(progress: nat, warps: nat)
    ensures Aligned(progress, 0, warps)
  {
  }

  lemma WholeFile(cap: nat, warps: nat)
    ensures Aligned(warps, cap, warps)
  {
  }

  // What a turn has moved before it sends anything.
  lemma Opening(more: seq<Event>)
    ensures forall n :: more == [WarpsProcessed(n)] ==>
      Held([Taken] + more) == 1 && Delivered([Taken] + more) == [] && PhaseOf([Taken] + more) == Holding
    ensures more == [ReadFailed] || more == [] ==>
      Held([Taken] + more) == 1 && Delivered([Taken] + more) == [] && PhaseOf([Taken] + more) == Holding
    ensures forall n :: more == [WarpsProcessed(n), ScanInterrupted, Returned] ==>
      Held([Taken] + more) == 0 && Delivered([Taken] + more) == [] && PhaseOf([Taken] + more) == Over
    ensures forall x :: Has([Taken] + more, x) <==> x == Taken || x in more
  {
    var e: seq<Event> := [];
    OneEvent(e, Taken);
    assert e + [Taken] == [Taken];
    assert [Taken] + more == e + [Taken] + more;
    if |more| == 3 && more[0].WarpsProcessed? && more[1] == ScanInterrupted && more[2] == Returned {
      InterruptedEvents([], more);
    } else if |more| == 1 && (more[0].WarpsProcessed? || more[0].ReadFailed?) {
      Quiet([Taken], more);
    }
  }

  method ScanPlot(cpu: Features, plot: PlotFile, cap: nat, config: Option<CompressionConfig>, scoop: nat)
    returns (events: seq<Event>, status: Status, ghost hi: nat)
    requires plot.Valid() && Aligned(plot.readProgress, cap, plot.warps) && GoodConfig(config, cap)
    modifies plot`readProgress
    ensures plot.Valid() && Aligned(plot.readProgress, cap, plot.warps)
    ensures plot.readProgress >= old(plot.readProgress)
    ensures Held(events) == 0 && PhaseOf(events) == if status == Paused then Over else Idle
    ensures status == Paused <==> Has(events, ScanInterrupted)
    ensures status == Paused ==> Lost(plot.readProgress, hi, cap, GroupSize(plot, config))
    ensures status == Failed && cap > 0 ==> Has(events, ReadFailed) && plot.readProgress == plot.warps
    ensures status == Failed && cap > 0 ==> Broken(plot.warps, hi, cap, GroupSize(plot, config))
    ensures Has(events, ReadFailed) ==> status == Failed
    ensures Scanned(events, old(plot.readProgress), plot.readProgress, hi, GroupSize(plot, config))
    ensures Labelled(events, plot, ReportedLevel(plot, config))
    ensures status == Completed ==> Whole(plot.warps, hi, GroupSize(plot, config)) && plot.readProgress == plot.warps
    ensures status == Skipped <==> ActionFor(plot, config).Skip?
    ensures status == Skipped ==> events == [] && plot.readProgress == old(plot.readProgress)
    ensures Foldable(plot, config) ==> AllFaithful(events, plot, scoop, GroupSize(plot, config))
  {
    hide AllFaithful, ValidateCompressionSetup, Pow2, Aligned, Held, Delivered, PhaseOf, Has, Lost, Broken,
        Labelled;
    var action := ActionFor(plot, config);
    ghost var k := Pow2(Steps(action));
    Pow2Positive(Steps(action));
    NoEvents();
    NoData([], plot, scoop, k);
    events := [];
    hi := plot.readProgress / k;
    if action.Skip? {
      return [], Skipped, hi;
    }
    ghost var lo := hi;
    ghost var good := Foldable(plot, config);
    if cap > 0 {
      StepsFit(plot, config, cap);
    }
    while plot.readProgress < plot.warps
      invariant plot.Valid() && Aligned(plot.readProgress, cap, plot.warps)
      invariant plot.readProgress >= old(plot.readProgress)
      invariant Held(events) == 0 && PhaseOf(events) == Idle
      invariant Delivered(events) == Range(lo, hi) && lo <= hi == plot.readProgress / k
      invariant !Has(events, ScanInterrupted) && !Has(events, ReadFailed)
      invariant good ==> AllFaithful(events, plot, scoop, k)
      invariant Labelled(events, plot, ReportedLevel(plot, config))
      decreases plot.warps - plot.readProgress
    {
      ghost var mid := hi;
      var more;
      more, status, hi := ScanBuffer(cpu, plot, cap, action, scoop);
      Concat(events, more, lo, mid, hi, plot, scoop, k, good);
      LabelledConcat(events, more, plot, ReportedLevel(plot, config));
      events := events + more;
      if !status.Completed? {
        return;
      }
    }
    status := Completed;
  }

  lemma NoEvents()
    ensures forall e :: !Has([], e)
    ensures Held([]) == 0 && PhaseOf([]) == Idle && Delivered([]) == Range(0, 0)
  {
  }

  // ----- scanning a disk -----

  datatype Turn = Turn(events: seq<Event>, status: Status, hi: nat)

  function AllEvents(turns: seq<Turn>): seq<Event> {
    if |turns| == 0 then [] else AllEvents(turns[..|turns| - 1]) + turns[|turns| - 1].events
  }

  // How far each file has been read; saved when a scan pauses.
  function Progress(plots: seq<PlotFile>): (p: seq<nat>)
    reads plots
    ensures |p| == |plots|
  {
    seq(|plots|, i requires 0 <= i < |plots| reads plots => plots[i].readProgress)
  }

  ghost predicate Distinct(plots: seq<PlotFile>) {
    forall i, j :: 0 <= i < j < |plots| ==> plots[i] != plots[j]
  }

  ghost predicate Ready(plots: seq<PlotFile>, cap: nat)
    reads plots
  {
    forall i :: 0 <= i < |plots| ==> plots[i].Valid() && Aligned(plots[i].readProgress, cap, plots[i].warps)
  }

  // What one reader did with one file on its way from one progress to another.
  ghost predicate TurnOf(plot: PlotFile, turn: Turn, from: nat, to: nat, cap: nat, config: Option<CompressionConfig>,
                         scoop: nat) {
    var action := ActionFor(plot, config);
    var k := GroupSize(plot, config);
    && Scanned(turn.events, from, to, turn.hi, k)
    && Labelled(turn.events, plot, ReportedLevel(plot, config))
    && Held(turn.events) == 0 && PhaseOf(turn.events) == (if turn.status == Paused then Over else Idle)
    && (turn.status == Skipped <==> action.Skip?)
    && (turn.status == Skipped ==> turn.events == [] && to == from)
    && (turn.status == Completed ==> Whole(plot.warps, turn.hi, k) && to == plot.warps)
    && (turn.status == Paused ==> Lost(to, turn.hi, cap, k))
    && (turn.status == Paused <==> Has(turn.events, ScanInterrupted))
    && (turn.status == Failed && cap > 0 ==>
          Has(turn.events, ReadFailed) && to == plot.warps && Broken(to, turn.hi, cap, k))
    && (Has(turn.events, ReadFailed) ==> turn.status == Failed)
    && (Foldable(plot, config) ==> AllFaithful(turn.events, plot, scoop, k))
  }

  // The files read so far took their turns; the others have not been touched.
  ghost predicate TookTurns(plots: seq<PlotFile>, turns: seq<Turn>, was: seq<nat>, now: seq<nat>, cap: nat,
                            config: Option<CompressionConfig>, scoop: nat) {
    && |turns| <= |plots| == |was| == |now|
    && (forall i :: 0 <= i < |turns| ==> TurnOf(plots[i], turns[i], was[i], now[i], cap, config, scoop))
    && (forall i :: |turns| <= i < |plots| ==> now[i] == was[i])
    && (forall i :: 0 <= i < |turns| - 1 ==> turns[i].status != Paused)
  }

  lemma NextTurn(plots: seq<PlotFile>, turns: seq<Turn>, turn: Turn, was: seq<nat>, now: seq<nat>, to: nat, cap: nat,
                 config: Option<CompressionConfig>, scoop: nat)
    requires TookTurns(plots, turns, was, now, cap, config, scoop) && |turns| < |plots|
    requires |turns| > 0 ==> turns[|turns| - 1].status != Paused
    requires TurnOf(plots[|turns|], turn, was[|turns|], to, cap, config, scoop)
    ensures TookTurns(plots, turns + [turn], was, now[|turns| := to], cap, config, scoop)
    ensures AllEvents(turns + [turn]) == AllEvents(turns) + turn.events
  {
    hide TurnOf;
    var all, later := turns + [turn], now[|turns| := to];
    assert all[..|turns|] == turns;
    forall i | 0 <= i < |all|
      ensures TurnOf(plots[i], all[i], was[i], later[i], cap, config, scoop)
    {
      if i < |turns| {
        assert TurnOf(plots[i], turns[i], was[i], now[i], cap, config, scoop);
      } else {
        assert all[i] == turn && later[i] == to && i == |turns|;
      }
    }
  }

  // One reader: file after file, until all are done or it is interrupted. A file that asks for
  // nothing, or fails, does not stop the files after it.
  method ReadDisk(cpu: Features, plots: seq<PlotFile>, cap: nat, config: Option<CompressionConfig>, scoop: nat)
    returns (events: seq<Event>, interrupted: bool, ghost turns: seq<Turn>)
    requires Distinct(plots) && Ready(plots, cap) && GoodConfig(config, cap)
    modifies plots
    ensures Ready(plots, cap)
    ensures TookTurns(plots, turns, old(Progress(plots)), Progress(plots), cap, config, scoop)
    ensures !interrupted ==> |turns| == |plots|
    ensures interrupted <==> |turns| > 0 && turns[|turns| - 1].status == Paused
    ensures events == AllEvents(turns) + if interrupted then [] else [ScanFinished]
    ensures Held(events) == 0 && PhaseOf(events) == Over
  {
    hide Aligned, GoodConfig, TurnOf, Held, PhaseOf, AllEvents, TookTurns, PlotFile.Valid;
    ghost var was := Progress(plots);
    NoTurns(plots, was, cap, config, scoop);
    events, interrupted, turns := [], false, [];
    for n := 0 to |plots|
      invariant Ready(plots, cap)
      invariant |turns| == n && events == AllEvents(turns)
      invariant n > 0 ==> turns[n - 1].status != Paused
      invariant TookTurns(plots, turns, was, Progress(plots), cap, config, scoop)
    {
      ghost var now := Progress(plots);
      Untouched(plots, turns, was, now, cap, config, scoop);
      var more, status, turn := ReadPlot(cpu, plots[n], cap, config, scoop);
      assert Progress(plots) == now[n := plots[n].readProgress];
      NextTurn(plots, turns, turn, was, now, plots[n].readProgress, cap, config, scoop);
      events, turns := events + more, turns + [turn];
      if status == Paused {
        TurnsObey(plots, turns, was, Progress(plots), cap, config, scoop);
        return events, true, turns;
      }
    }
    TurnsObey(plots, turns, was, Progress(plots), cap, config, scoop);
    Finishing(events);
    events := events + [ScanFinished];
  }

  lemma NoTurns(plots: seq<PlotFile>, was: seq<nat>, cap: nat, config: Option<CompressionConfig>, scoop: nat)
    requires |plots| == |was|
    ensures TookTurns(plots, [], was, was, cap, config, scoop) && AllEvents([]) == []
  {
  }

  lemma Untouched(plots: seq<PlotFile>, turns: seq<Turn>, was: seq<nat>, now: seq<nat>, cap: nat,
                  config: Option<CompressionConfig>, scoop: nat)
    requires TookTurns(plots, turns, was, now, cap, config, scoop) && |turns| < |plots|
    ensures |was| == |now| == |plots| && now[|turns|] == was[|turns|]
  {
  }

  lemma Finishing(events: seq<Event>)
    requires Held(events) == 0 && PhaseOf(events) == Idle
    ensures Held(events + [ScanFinished]) == 0 && PhaseOf(events + [ScanFinished]) == Over
  {
    OneEvent(events, ScanFinished);
  }

  lemma {:induction false} TurnsObey(plots: seq<PlotFile>, turns: seq<Turn>, was: seq<nat>, now: seq<nat>, cap: nat,
                                     config: Option<CompressionConfig>, scoop: nat)
    requires TookTurns(plots, turns, was, now, cap, config, scoop)
    ensures Held(AllEvents(turns)) == 0
    ensures PhaseOf(AllEvents(turns)) == if |turns| > 0 && turns[|turns| - 1].status == Paused then Over else Idle
  {
    hide Scanned, Whole, Lost, Broken, AllFaithful, ActionFor, Held, PhaseOf, Delivered, Has, Pow2;
    if |turns| == 0 {
      NoEvents();
    } else {
      var n := |turns| - 1;
      TurnsObey(plots[..n], turns[..n], was[..n], now[..n], cap, config, scoop);
      assert TurnOf(plots[n], turns[n], was[n], now[n], cap, config, scoop);
      EventsConcat(AllEvents(turns[..n]), turns[n].events);
    }
  }

  // A file at level 0 cannot be compressed further.
  ghost predicate Foldable(plot: PlotFile, config: Option<CompressionConfig>) {
    ActionFor(plot, config).CompressOnFly? ==> plot.compression >= 1
  }

  // The files are genuine in this scoop, and all can be compressed as far as the chain asks.
  ghost predicate GenuineFiles(plots: seq<PlotFile>, config: Option<CompressionConfig>, scoop: nat) {
    forall i :: 0 <= i < |plots| ==> Genuine(plots[i], scoop) && Foldable(plots[i], config)
  }

  // From a genuine file, every nonce of a faithful reply is genuine.
  lemma FaithfulIsGenuine(reply: ReadReply, plot: PlotFile, scoop: nat, k: nat, level: nat)
    requires FaithfulReply(reply, plot, scoop, k) && LabelledReply(reply, plot, level) && Genuine(plot, scoop) && k > 0
    ensures GenuineReply(reply, scoop)
  {
    hide GenuineScoop, GenuineNonce;
    forall o | 0 <= o < reply.numberOfWarps * NUM_SCOOPS
      ensures GenuineNonce(reply, scoop, o)
    {
      var w, i := o / NUM_SCOOPS, o % NUM_SCOOPS;
      DivModUnique(reply.warpOffset * NUM_SCOOPS + o, NUM_SCOOPS, reply.warpOffset + w, i);
      MulMono(reply.warpOffset + w, reply.warpOffset + reply.numberOfWarps, k);
      assert FaithfulNonce(reply, plot, scoop, k, o);
    }
  }

  // Whatever a reader hands on from genuine files is genuine.
  lemma {:induction false} DiskIsGenuine(plots: seq<PlotFile>, turns: seq<Turn>, was: seq<nat>, now: seq<nat>, cap: nat,
                                         config: Option<CompressionConfig>, scoop: nat)
    requires TookTurns(plots, turns, was, now, cap, config, scoop) && GenuineFiles(plots, config, scoop)
    ensures AllGenuine(AllEvents(turns), scoop)
  {
    hide Whole, Lost, Broken, Genuine, GenuineReply, FaithfulReply, LabelledReply, ActionFor, Held, PhaseOf, Delivered,
        Has, Pow2, ReportedLevel, GroupSize, Range;
    if |turns| > 0 {
      var n := |turns| - 1;
      DiskIsGenuine(plots[..n], turns[..n], was[..n], now[..n], cap, config, scoop);
      assert TurnOf(plots[n], turns[n], was[n], now[n], cap, config, scoop);
      forall i | 0 <= i < |turns[n].events| && turns[n].events[i].Data?
        ensures GenuineReply(turns[n].events[i].reply, scoop)
      {
        FaithfulIsGenuine(turns[n].events[i].reply, plots[n], scoop, GroupSize(plots[n], config),
                          ReportedLevel(plots[n], config));
      }
    }
  }

  method ReadPlot(cpu: Features, plot: PlotFile, cap: nat, config: Option<CompressionConfig>, scoop: nat)
    returns (events: seq<Event>, status: Status, ghost turn: Turn)
    requires plot.Valid() && Aligned(plot.readProgress, cap, plot.warps) && GoodConfig(config, cap)
    modifies plot`readProgress
    ensures plot.Valid() && Aligned(plot.readProgress, cap, plot.warps)
    ensures events == turn.events && status == turn.status
    ensures TurnOf(plot, turn, old(plot.readProgress), plot.readProgress, cap, config, scoop)
  {
    hide Aligned, GoodConfig, Scanned, Whole, Lost, Broken, Foldable, AllFaithful, Held, PhaseOf, ActionFor,
        PlotFile.Valid;
    ghost var hi;
    events, status, hi := ScanPlot(cpu, plot, cap, config, scoop);
    turn := Turn(events, status, hi);
  }

  method Reset(plots: seq<PlotFile>, cap: nat)
    requires Distinct(plots) && forall p :: p in plots ==> p.Valid()
    modifies plots
    ensures Ready(plots, cap)
    ensures Progress(plots) == seq(|plots|, i => 0)
  {
    for n := 0 to |plots|
      invariant forall p :: p in plots ==> p.Valid()
      invariant forall i :: 0 <= i < n ==> plots[i].readProgress == 0
    {
      plots[n].readProgress := 0;
    }
  }

  method GetResumeInfo(plots: seq<PlotFile>) returns (scanProgress: seq<nat>, warpsScanned: nat)
    ensures scanProgress == Progress(plots) && warpsScanned == Sum(scanProgress)
  {
    scanProgress, warpsScanned := [], 0;
    for n := 0 to |plots|
      invariant scanProgress == Progress(plots)[..n] && warpsScanned == Sum(scanProgress)
    {
      assert (scanProgress + [plots[n].readProgress])[..n] == scanProgress;
      scanProgress := scanProgress + [plots[n].readProgress];
      warpsScanned := warpsScanned + plots[n].readProgress;
    }
  }

  function Sum(s: seq<nat>): nat {
    if |s| == 0 then 0 else Sum(s[..|s| - 1]) + s[|s| - 1]
  }

  // Restoring what was saved puts every file back where its scan was paused, whatever has
  // read the files in between; each file is again fit to be scanned.
  method SetResumeInfo(plots: seq<PlotFile>, saved: seq<nat>, cap: nat)
    requires Distinct(plots) && |saved| == |plots|
    requires forall i :: 0 <= i < |plots| ==>
      plots[i].Valid() && saved[i] <= plots[i].warps && Aligned(saved[i], cap, plots[i].warps)
    modifies plots
    ensures Ready(plots, cap) && Progress(plots) == saved
  {
    for n := 0 to |plots|
      invariant forall i :: 0 <= i < |plots| ==> plots[i].Valid()
      invariant forall i :: 0 <= i < n ==> plots[i].readProgress == saved[i]
    {
      plots[n].readProgress := saved[n];
    }
  }

  lemma QuotientGrows(x: nat, y: nat, k: nat)
    requires k > 0 && x <= y
    ensures x / k <= y / k
  {
    assert x == x / k * k + x % k && y == y / k * k + y % k;
    MulMono(y / k, x / k, k);
  }

  lemma RangeGrows(lo: nat, mid: nat, hi: nat)
    requires lo <= mid <= hi
    ensures Range(lo, mid) + Range(mid, hi) == Range(lo, hi)
  {
  }

  lemma InterruptedEvents(events: seq<Event>, more: seq<Event>)
    requires |more| == 3 && more[0].WarpsProcessed? && more[1] == ScanInterrupted && more[2] == Returned
    ensures var all := events + [Taken] + more;
      Held(all) == Held(events) && Delivered(all) == Delivered(events)
      && (PhaseOf(events) == Idle ==> PhaseOf(all) == Over)
  {
    OneEvent(events, Taken);
    OneEvent(events + [Taken], more[0]);
    OneEvent(events + [Taken] + [more[0]], more[1]);
    OneEvent(events + [Taken] + [more[0]] + [more[1]], Returned);
    assert events + [Taken] + more == events + [Taken] + [more[0]] + [more[1]] + [Returned];
  }

  lemma StepsFit(plot: PlotFile, config: Option<CompressionConfig>, cap: nat)
    requires cap > 0 && GoodConfig(config, cap)
    ensures cap % GroupSize(plot, config) == 0
  {
    if ActionFor(plot, config).CompressOnFly? {
      StepsDivideBuffer(cap, Steps(ActionFor(plot, config)));
    } else {
      OneWhole();
    }
  }
}
