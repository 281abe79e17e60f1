// Plotting on the CPU: nonces are hashed in batches of two warps, and each batch is folded into
// one warp of a write buffer by XOR of a warp with the mirrored other one. After the last batch
// the warp is one of its compression level.
module Plotter {
  import opened Words
  import opened PlotChain
  import opened Layout
  import opened Nonces
  import opened Scoops
  import opened ProofQuality
  import opened Cpu

  // Nonces of a batch, and of the part of it that one task of the thread pool hashes.
  const COMPRESS_BATCH: nat := 8192
  const CPU_TASK_SIZE: nat := 64

  // A warp with all its scoops.
  const WARP_CELLS: nat := 0x1000_0000

  // ----- hashing a batch -----

  // Column k of the cache is nonce start + k.
  ghost predicate HoldsNonce(cache: seq<Word>, payload: Payload, seed: Seed, start: nat, k: nat) {
    k < |cache| / NONCE_WORDS && forall s :: 0 <= s < NUM_SCOOPS ==> HoldsScoop(cache, payload, seed, start, k, s)
  }

  ghost predicate HoldsScoop(cache: seq<Word>, payload: Payload, seed: Seed, start: nat, k: nat, s: nat) {
    k < |cache| / NONCE_WORDS && s < NUM_SCOOPS && CacheScoop(cache, s, k) == PlotScoop(payload, seed, start + k, s)
  }

  lemma PlottedElsewhere(old_: seq<Word>, payload: Payload, seed: Seed, start: nat, offset: nat, count: nat, k: nat,
                         s: nat)
    requires k < |old_| / NONCE_WORDS && !(offset <= k < offset + count) && s < NUM_SCOOPS
    ensures CacheScoop(Plotted(old_, payload, seed, start, offset, count), s, k) == CacheScoop(old_, s, k)
  {
    hide RawScoop, RowOf, ColumnOf, CacheScoop;
    var r := Plotted(old_, payload, seed, start, offset, count);
    forall c | 0 <= c < 16
      ensures CacheScoop(r, s, k)[c] == CacheScoop(old_, s, k)[c]
    {
      CacheWord(old_, s, k, c);
      CacheWord(r, s, k, c);
    }
  }

  // Within a task that starts at a multiple of its size, the saturating count never saturates.
  lemma TaskNonce(first: nat, i: nat)
    requires first % CPU_TASK_SIZE == 0 && i < CPU_TASK_SIZE
    ensures SaturatingAdd(Mod64(first), i) == Mod64(first + i)
  {
    var q, m := first / U64_RANGE, Mod64(first);
    DivParts(first, U64_RANGE);
    DivParts(first, CPU_TASK_SIZE);
    DivModUnique(m, CPU_TASK_SIZE, first / CPU_TASK_SIZE - q * 0x400_0000_0000_0000, 0);
    DivModUnique(first + i, U64_RANGE, q, m + i);
  }

  lemma TaskColumn(old_: seq<Word>, now: seq<Word>, payload: Payload, seed: Seed, start: nat, offset: nat, count: nat,
                   k: nat)
    requires (start + offset) % CPU_TASK_SIZE == 0 && count <= CPU_TASK_SIZE && offset <= k < offset + count
    requires offset + count <= |old_| / NONCE_WORDS
    requires now == Plotted(old_, payload, seed, Mod64(start + offset), offset, count)
    ensures HoldsNonce(now, payload, seed, start, k)
  {
    hide Plotted, RawScoop, PlotScoop, Mod64, CacheScoop;
    var i := k - offset;
    TaskNonce(start + offset, i);
    forall s: nat | s < NUM_SCOOPS
      ensures HoldsScoop(now, payload, seed, start, k, s)
    {
      PlottedScoop(old_, payload, seed, Mod64(start + offset), offset, count, i, s);
      NonceWraps(payload, seed, start + k, s);
      PlotScoopIs(payload, seed, Mod64(start + k), s);
    }
  }

  lemma OtherColumn(old_: seq<Word>, now: seq<Word>, payload: Payload, seed: Seed, first: nat, offset: nat, count: nat,
                    start: nat, k: nat)
    requires HoldsNonce(old_, payload, seed, start, k) && !(offset <= k < offset + count)
    requires now == Plotted(old_, payload, seed, first, offset, count)
    ensures HoldsNonce(now, payload, seed, start, k)
  {
    hide Plotted, PlotScoop, CacheScoop;
    forall s: nat | s < NUM_SCOOPS
      ensures HoldsScoop(now, payload, seed, start, k, s)
    {
      assert HoldsScoop(old_, payload, seed, start, k, s);
      PlottedElsewhere(old_, payload, seed, first, offset, count, k, s);
    }
  }

  function Below(n: nat): (r: set<nat>)
    ensures forall t: nat :: t in r <==> t < n
  {
    if n == 0 then {} else Below(n - 1) + {n - 1}
  }

  // The tasks of the thread pool run in any order; each fills columns of its own.
  method HashNonces(cpu: Features, scatter: array<Word>, payload: Payload, seed: Seed, startNonce: U64, numNonces: U64)
    requires ColumnsFit(scatter.Length, 0, numNonces) && scatter.Length <= SLICE_LIMIT
    modifies scatter
    ensures startNonce % CPU_TASK_SIZE == 0 ==>
      forall k :: 0 <= k < numNonces ==> HoldsNonce(scatter[..], payload, seed, startNonce, k)
  {
    hide Plotted, HoldsNonce, Mod64, PassesGuard;
    var tasks := Below((numNonces + CPU_TASK_SIZE - 1) / CPU_TASK_SIZE);
    while tasks != {}
      invariant forall t :: t in tasks ==> t * CPU_TASK_SIZE < numNonces
      invariant startNonce % CPU_TASK_SIZE == 0 ==>
        forall k :: 0 <= k < numNonces && k / CPU_TASK_SIZE !in tasks ==>
          HoldsNonce(scatter[..], payload, seed, startNonce, k)
      decreases |tasks|
    {
      var t :| t in tasks;
      var offset := t * CPU_TASK_SIZE;
      var chunkSize := Min(CPU_TASK_SIZE, numNonces - offset);
      ghost var was := scatter[..];
      FittingPassesGuard(scatter.Length, offset, chunkSize);
      var outcome, outside := GenerateNonces(cpu, scatter, offset, payload, seed, Mod64(startNonce + offset),
          chunkSize);
      forall k | 0 <= k < numNonces && k / CPU_TASK_SIZE !in tasks - {t} && startNonce % CPU_TASK_SIZE == 0
        ensures HoldsNonce(scatter[..], payload, seed, startNonce, k)
      {
        DivParts(k, CPU_TASK_SIZE);
        if k / CPU_TASK_SIZE == t {
          TaskColumn(was, scatter[..], payload, seed, startNonce, offset, chunkSize, k);
        } else {
          MulMono(t, k / CPU_TASK_SIZE, CPU_TASK_SIZE);
          MulMono(k / CPU_TASK_SIZE, t, CPU_TASK_SIZE);
          OtherColumn(was, scatter[..], payload, seed, Mod64(startNonce + offset), offset, chunkSize, startNonce, k);
        }
      }
      tasks := tasks - {t};
    }
  }

  // ----- folding a batch into a warp -----

  // Scoop s, nonce x of a pair of warps: the scoop in the even one, and its mirror image in the odd one.
  function Mirrored(source: seq<Word>, s: nat, x: nat, w: nat): Scoop
    requires s < NUM_SCOOPS && x < NUM_SCOOPS && (w + 1) * COMPRESS_BATCH <= |source| / NONCE_WORDS
  {
    XorScoop(CacheScoop(source, s, x + w * COMPRESS_BATCH), CacheScoop(source, x, w * COMPRESS_BATCH + NUM_SCOOPS + s))
  }

  // A call of helix_compress, or with add of helix_compress_xor: outputLen pairs of warps of the
  // source go to the warps of the target from warpOffset on.
  datatype Helix = Helix(was: seq<Word>, source: seq<Word>, warpOffset: nat, outputLen: nat, add: bool) {
    predicate Fits() {
      && |source| % WARP_CELLS == 0 && |was| % WARP_CELLS == 0
      && outputLen * COMPRESS_BATCH <= |source| / NONCE_WORDS
      && (warpOffset + outputLen) * NUM_SCOOPS <= |was| / NONCE_WORDS
    }

    predicate Writes(column: nat) {
      warpOffset * NUM_SCOOPS <= column < (warpOffset + outputLen) * NUM_SCOOPS
    }

    // What becomes of a scoop of a column that is written.
    function Into(s: nat, column: nat): Scoop
      requires Fits() && Writes(column) && s < NUM_SCOOPS && column < |was| / NONCE_WORDS
    {
      WarpOfColumn(column, warpOffset, outputLen);
      var pair := Mirrored(source, s, column % NUM_SCOOPS, column / NUM_SCOOPS - warpOffset);
      if add then XorScoop(CacheScoop(was, s, column), pair) else pair
    }
  }

  lemma WarpOfColumn(column: nat, warpOffset: nat, outputLen: nat)
    requires warpOffset * NUM_SCOOPS <= column < (warpOffset + outputLen) * NUM_SCOOPS
    ensures warpOffset <= column / NUM_SCOOPS < warpOffset + outputLen
    ensures (column / NUM_SCOOPS - warpOffset + 1) * COMPRESS_BATCH <= outputLen * COMPRESS_BATCH
  {
    DivParts(column, NUM_SCOOPS);
  }

  // The scoops that are done: these rows, and of row y what lies before nonce x and warp w.
  datatype Reach = Reach(rows: set<nat>, y: nat, x: nat, w: nat)

  predicate Reached(h: Helix, r: Reach, s: nat, column: nat) {
    var x, w := column % NUM_SCOOPS, column / NUM_SCOOPS;
    h.Writes(column) && (s in r.rows || (s == r.y && (x < r.x || (x == r.x && w < h.warpOffset + r.w))))
  }

  ghost predicate FoldedUpTo(h: Helix, now: seq<Word>, r: Reach)
    requires h.Fits()
  {
    |now| == |h.was| && forall s, column :: 0 <= s < NUM_SCOOPS && 0 <= column < |h.was| / NONCE_WORDS ==>
      CacheScoop(now, s, column) == if Reached(h, r, s, column) then h.Into(s, column) else CacheScoop(h.was, s, column)
  }

  // All that the call is to write is written, and nothing else.
  ghost predicate AllFolded(h: Helix, now: seq<Word>)
    requires h.Fits()
  {
    |now| == |h.was| && forall s, column :: 0 <= s < NUM_SCOOPS && 0 <= column < |h.was| / NONCE_WORDS ==>
      CacheScoop(now, s, column) == if h.Writes(column) then h.Into(s, column) else CacheScoop(h.was, s, column)
  }

  // Where a scoop of a column is, in a buffer of so many warps.
  function ScoopAt(s: nat, warps: nat, column: nat): nat {
    s * warps * 65536 + column * 16
  }

  lemma ScoopThere(cache: seq<Word>, s: nat, column: nat)
    requires |cache| % WARP_CELLS == 0 && column < |cache| / NONCE_WORDS && s < NUM_SCOOPS
    ensures var at := ScoopAt(s, |cache| / WARP_CELLS, column);
      at + 16 <= |cache| && CacheScoop(cache, s, column) == cache[at..at + 16]
  {
    WarpColumns(|cache|);
    CacheBound(|cache|, s, column);
    Stride(s, |cache| / WARP_CELLS);
  }

  lemma WarpColumns(length: nat)
    requires length % WARP_CELLS == 0
    ensures length / NONCE_WORDS == length / WARP_CELLS * NUM_SCOOPS
  {
    DivParts(length, WARP_CELLS);
    DivModUnique(length, NONCE_WORDS, length / WARP_CELLS * NUM_SCOOPS, 0);
  }

  lemma Stride(s: nat, warps: nat)
    ensures s * warps * 65536 == s * (warps * NUM_SCOOPS) * 16
  {
  }

  lemma SamePlace(s: nat, column: nat, r: nat, k: nat, warps: nat)
    requires column < warps * NUM_SCOOPS && k < warps * NUM_SCOOPS
    ensures var a, b := ScoopAt(s, warps, column), ScoopAt(r, warps, k);
      if s == r && column == k then a == b else a + 16 <= b || b + 16 <= a
  {
    var n := warps * NUM_SCOOPS;
    Stride(s, warps);
    Stride(r, warps);
    if s * n + column == r * n + k {
      DivModUnique(s * n + column, n, s, column);
      DivModUnique(r * n + k, n, r, k);
    }
  }

  // One scoop replaced.
  ghost predicate Put(was: seq<Word>, now: seq<Word>, at: nat, v: Scoop) {
    |now| == |was| && at + 16 <= |was| && now[..at] == was[..at] && now[at..at + 16] == v && now[at + 16..]
      == was[at + 16..]
  }

  lemma PutCells(was: seq<Word>, now: seq<Word>, at: nat, v: Scoop)
    requires |now| == |was| && at + 16 <= |was|
    requires forall i :: 0 <= i < |was| ==> now[i] == if at <= i < at + 16 then v[i - at] else was[i]
    ensures Put(was, now, at, v)
  {
  }

  lemma PutElsewhere(was: seq<Word>, now: seq<Word>, at: nat, v: Scoop, b: nat)
    requires Put(was, now, at, v) && b + 16 <= |was| && (b + 16 <= at || at + 16 <= b)
    ensures now[b..b + 16] == was[b..b + 16]
  {
    if b + 16 <= at {
      assert now[b..b + 16] == now[..at][b..b + 16];
    } else {
      assert now[b..b + 16] == now[at + 16..][b - at - 16..b - at];
    }
  }

  lemma PutScoop(was: seq<Word>, now: seq<Word>, s: nat, column: nat, v: Scoop, r: nat, k: nat)
    requires |was| % WARP_CELLS == 0 && Put(was, now, ScoopAt(s, |was| / WARP_CELLS, column), v)
    requires column < |was| / NONCE_WORDS && s < NUM_SCOOPS && k < |was| / NONCE_WORDS && r < NUM_SCOOPS
    ensures CacheScoop(now, r, k) == if r == s && k == column then v else CacheScoop(was, r, k)
  {
    hide CacheScoop, ScoopAt;
    WarpColumns(|was|);
    ScoopThere(was, r, k);
    ScoopThere(now, r, k);
    SamePlace(s, column, r, k, |was| / WARP_CELLS);
    if r != s || k != column {
      PutElsewhere(was, now, ScoopAt(s, |was| / WARP_CELLS, column), v, ScoopAt(r, |was| / WARP_CELLS, k));
    }
  }

  // One step of the innermost loop over the warps.
  lemma FoldStep(h: Helix, now: seq<Word>, next: seq<Word>, r: Reach)
    requires h.Fits() && r.y < NUM_SCOOPS && r.x < NUM_SCOOPS && r.w < h.outputLen && r.y !in r.rows
    requires FoldedUpTo(h, now, r)
    requires HelixPut(h, now, next, r.y, r.x, r.w)
    ensures FoldedUpTo(h, next, r.(w := r.w + 1))
  {
    hide CacheScoop, XorScoop, ScoopAt, Put;
    var column := (h.warpOffset + r.w) * NUM_SCOOPS + r.x;
    DivModUnique(column, NUM_SCOOPS, h.warpOffset + r.w, r.x);
    var pair := Mirrored(h.source, r.y, r.x, r.w);
    var v := if h.add then XorScoop(CacheScoop(now, r.y, column), pair) else pair;
    forall s: nat, k: nat | s < NUM_SCOOPS && k < |h.was| / NONCE_WORDS
      ensures CacheScoop(next, s, k)
           == if Reached(h, r.(w := r.w + 1), s, k) then h.Into(s, k) else CacheScoop(h.was, s, k)
    {
      PutScoop(now, next, r.y, column, v, s, k);
      DivParts(k, NUM_SCOOPS);
    }
  }

  // Scoop y of nonce x of warp w has been written.
  ghost predicate HelixPut(h: Helix, now: seq<Word>, next: seq<Word>, y: nat, x: nat, w: nat)
    requires h.Fits() && y < NUM_SCOOPS && x < NUM_SCOOPS && w < h.outputLen
  {
    var column := (h.warpOffset + w) * NUM_SCOOPS + x;
    |now| == |next| == |h.was| &&
    var pair := Mirrored(h.source, y, x, w);
    Put(now, next, ScoopAt(y, |now| / WARP_CELLS, column), if h.add then XorScoop(CacheScoop(now, y, column), pair)
      else pair)
  }

  // The end of a nonce is the start of the next, and the end of a row makes it a row that is done.
  lemma FoldNext(h: Helix, now: seq<Word>, r: Reach, t: Reach)
    requires h.Fits() && FoldedUpTo(h, now, r)
    requires (r.w == h.outputLen && t == r.(x := r.x + 1, w := 0))
          || (r.x == NUM_SCOOPS && r.w == 0 && t == Reach(r.rows + {r.y}, t.y, 0, 0))
          || (r.x == 0 && r.w == 0 && t == r.(y := t.y))
    ensures FoldedUpTo(h, now, t)
  {
    hide CacheScoop, Helix.Into;
    forall s: nat, column: nat | s < NUM_SCOOPS && column < |h.was| / NONCE_WORDS
      ensures Reached(h, r, s, column) <==> Reached(h, t, s, column)
    {
      DivParts(column, NUM_SCOOPS);
    }
  }

  lemma FoldDone(h: Helix, now: seq<Word>, r: Reach)
    requires h.Fits() && FoldedUpTo(h, now, r) && forall s: nat :: s < NUM_SCOOPS ==> s in r.rows
    ensures AllFolded(h, now)
  {
    hide CacheScoop, Helix.Into, Helix.Fits;
  }

  lemma FoldNone(h: Helix)
    requires h.Fits()
    ensures FoldedUpTo(h, h.was, Reach({}, 0, 0, 0))
  {
  }

  // What is written for the two scoops at these places of the source.
  function PairInto(was: seq<Word>, source: seq<Word>, offset: nat, mirrorOffset: nat, targetOffset: nat,
                    add: bool): Scoop
    requires offset + 16 <= |source| && mirrorOffset + 16 <= |source| && targetOffset + 16 <= |was|
  {
    var pair := XorScoop(source[offset..offset + 16], source[mirrorOffset..mirrorOffset + 16]);
    if add then XorScoop(was[targetOffset..targetOffset + 16], pair) else pair
  }

  // One scoop, word by word; words outside of the buffers are skipped.
  method HelixScoop(source: array<Word>, target: array<Word>, offset: nat, mirrorOffset: nat, targetOffset: nat,
                    add: bool)
    requires source != target
    modifies target
    ensures offset + 16 <= source.Length && mirrorOffset + 16 <= source.Length && targetOffset + 16 <= target.Length ==>
      var was := old(target[..]);
      Put(was, target[..], targetOffset, PairInto(was, source[..], offset, mirrorOffset, targetOffset, add))
  {
    hide Xor, PairInto, Put;
    ghost var was, src := target[..], source[..];
    ghost var inside := offset + 16 <= |src| && mirrorOffset + 16 <= |src| && targetOffset + 16 <= |was|;
    ghost var v := if inside then PairInto(was, src, offset, mirrorOffset, targetOffset, add) else ZeroScoop();
    for z := 0 to SCOOP_WORDS
      invariant inside ==> forall i :: 0 <= i < |was| ==>
        target[i] == if targetOffset <= i < targetOffset + z then v[i - targetOffset] else was[i]
    {
      var si, mi, ti := offset + z, mirrorOffset + z, targetOffset + z;
      if inside {
        PairWord(was, src, offset, mirrorOffset, targetOffset, add, z);
      }
      if si < source.Length && mi < source.Length && ti < target.Length {
        target[ti] := if add then Xor(target[ti], Xor(source[si], source[mi])) else Xor(source[si], source[mi]);
      }
    }
    if inside {
      PutCells(was, target[..], targetOffset, v);
    }
  }

  lemma PairWord(was: seq<Word>, source: seq<Word>, offset: nat, mirrorOffset: nat, targetOffset: nat, add: bool,
                 z: nat)
    requires offset + 16 <= |source| && mirrorOffset + 16 <= |source| && targetOffset + 16 <= |was| && z < 16
    ensures var pair := Xor(source[offset + z], source[mirrorOffset + z]);
      PairInto(was, source, offset, mirrorOffset, targetOffset, add)[z]
        == if add then Xor(was[targetOffset + z], pair) else pair
  {
  }

  // Overwrites warps of the target, or with add accumulates into them. The rows are written by
  // threads, in any order.
  method HelixCompress(source: array<Word>, target: array<Word>, warpOffset: nat, outputLen: nat, add: bool)
    requires source != target
    modifies target
    ensures var h := Helix(old(target[..]), source[..], warpOffset, outputLen, add);
      h.Fits() ==> AllFolded(h, target[..])
  {
    hide FoldedUpTo, Helix.Fits, Below, AllFolded;
    ghost var h := Helix(target[..], source[..], warpOffset, outputLen, add);
    var todo := Below(NUM_SCOOPS);
    ghost var r := Reach({}, 0, 0, 0);
    if h.Fits() {
      FoldNone(h);
    }
    while todo != {}
      invariant forall y: nat :: y in todo ==> y < NUM_SCOOPS
      invariant r == Reach(Below(NUM_SCOOPS) - todo, r.y, 0, 0)
      invariant h.Fits() ==> FoldedUpTo(h, target[..], r)
      decreases |todo|
    {
      var y :| y in todo;
      ghost var start := r.(y := y);
      if h.Fits() {
        FoldNext(h, target[..], r, start);
      }
      HelixRow(source, target, warpOffset, outputLen, add, y, h, start);
      todo := todo - {y};
      r := Reach(Below(NUM_SCOOPS) - todo, y, 0, 0);
      assert start.rows + {y} == r.rows;
      if h.Fits() {
        FoldNext(h, target[..], start.(x := NUM_SCOOPS), r);
      }
    }
    if h.Fits() {
      FoldDone(h, target[..], r);
    }
  }

  method HelixRow(source: array<Word>, target: array<Word>, warpOffset: nat, outputLen: nat, add: bool, y: nat,
                  ghost h: Helix, ghost start: Reach)
    requires source != target && y < NUM_SCOOPS && |h.was| == target.Length
    requires h == Helix(h.was, source[..], warpOffset, outputLen, add)
    requires start.y == y && start.x == 0 && start.w == 0 && y !in start.rows
    requires h.Fits() ==> FoldedUpTo(h, target[..], start)
    modifies target
    ensures h.Fits() ==> FoldedUpTo(h, target[..], start.(x := NUM_SCOOPS))
  {
    hide FoldedUpTo, Helix.Fits, ScoopAt, PairInto, Put, HelixPut;
    var targetLen, sourceLen := target.Length / WARP_CELLS, source.Length / WARP_CELLS;
    for x := 0 to NUM_SCOOPS
      invariant h.Fits() ==> FoldedUpTo(h, target[..], start.(x := x))
    {
      for w := 0 to outputLen
        invariant h.Fits() ==> FoldedUpTo(h, target[..], start.(x := x, w := w))
      {
        var offset := ScoopAt(y, sourceLen, x + w * (NUM_SCOOPS * 2));
        var mirrorOffset := ScoopAt(x, sourceLen, w * (NUM_SCOOPS * 2) + NUM_SCOOPS + y);
        var targetOffset := ScoopAt(y, targetLen, (warpOffset + w) * NUM_SCOOPS + x);
        ghost var before := target[..];
        HelixScoop(source, target, offset, mirrorOffset, targetOffset, add);
        if h.Fits() {
          PairIsPut(h, before, target[..], y, x, w, offset, mirrorOffset, targetOffset);
          FoldStep(h, before, target[..], start.(x := x, w := w));
        }
      }
      if h.Fits() {
        FoldNext(h, target[..], start.(x := x, w := outputLen), start.(x := x + 1));
      }
    }
  }

  lemma PairIsPut(h: Helix, before: seq<Word>, now: seq<Word>, y: nat, x: nat, w: nat, offset: nat, mirrorOffset: nat,
                  targetOffset: nat)
    requires h.Fits() && y < NUM_SCOOPS && x < NUM_SCOOPS && w < h.outputLen && |before| == |now| == |h.was|
    requires offset == ScoopAt(y, |h.source| / WARP_CELLS, x + w * COMPRESS_BATCH)
    requires mirrorOffset == ScoopAt(x, |h.source| / WARP_CELLS, w * COMPRESS_BATCH + NUM_SCOOPS + y)
    requires targetOffset == ScoopAt(y, |before| / WARP_CELLS, (h.warpOffset + w) * NUM_SCOOPS + x)
    requires offset + 16 <= |h.source| && mirrorOffset + 16 <= |h.source| && targetOffset + 16 <= |before| ==>
      Put(before, now, targetOffset, PairInto(before, h.source, offset, mirrorOffset, targetOffset, h.add))
    ensures HelixPut(h, before, now, y, x, w)
  {
    hide ScoopAt, CacheScoop, XorScoop, Put;
    ScoopThere(h.source, y, x + w * COMPRESS_BATCH);
    ScoopThere(h.source, x, w * COMPRESS_BATCH + NUM_SCOOPS + y);
    ScoopThere(before, y, (h.warpOffset + w) * NUM_SCOOPS + x);
  }

  // ----- a warp of its level -----

  // Slot j of the buffer is warp w of the plot at level c.
  ghost predicate HoldsWarp(buffer: seq<Word>, j: nat, payload: Payload, seed: Seed, c: nat, w: nat) {
    forall s, i :: 0 <= s < NUM_SCOOPS && 0 <= i < NUM_SCOOPS ==> WarpScoop(buffer, j, payload, seed, c, w, s, i)
  }

  ghost predicate WarpScoop(buffer: seq<Word>, j: nat, payload: Payload, seed: Seed, c: nat, w: nat, s: nat, i: nat) {
    && s < NUM_SCOOPS && j * NUM_SCOOPS + i < |buffer| / NONCE_WORDS
    && CacheScoop(buffer, s, j * NUM_SCOOPS + i) == AtLevel(RawOf(payload, seed), s, w * NUM_SCOOPS + i, c)
  }

  // Slot j of the buffer is the fold of n uncompressed warps from v on.
  ghost predicate HoldsPart(buffer: seq<Word>, j: nat, payload: Payload, seed: Seed, v: nat, n: nat) {
    forall s, i :: 0 <= s < NUM_SCOOPS && 0 <= i < NUM_SCOOPS ==> PartScoop(buffer, j, payload, seed, v, n, s, i)
  }

  ghost predicate PartScoop(buffer: seq<Word>, j: nat, payload: Payload, seed: Seed, v: nat, n: nat, s: nat, i: nat) {
    && s < NUM_SCOOPS && j * NUM_SCOOPS + i < |buffer| / NONCE_WORDS
    && CacheScoop(buffer, s, j * NUM_SCOOPS + i) == XorWarps(RawOf(payload, seed), s, i, v, n)
  }

  // The cache holds the nonces of the two warps from v on.
  ghost predicate HoldsBatch(cache: seq<Word>, payload: Payload, seed: Seed, v: nat) {
    forall k :: 0 <= k < COMPRESS_BATCH ==> HoldsNonce(cache, payload, seed, Mod64(v * NUM_SCOOPS), k)
  }

  lemma BatchScoop(cache: seq<Word>, payload: Payload, seed: Seed, v: nat, k: nat, s: nat)
    requires HoldsBatch(cache, payload, seed, v) && k < COMPRESS_BATCH && s < NUM_SCOOPS
    ensures k < |cache| / NONCE_WORDS
    ensures CacheScoop(cache, s, k) == RawOf(payload, seed)(v * NUM_SCOOPS + k, s)
  {
    hide PlotScoop, CacheScoop, Mod64;
    var start := Mod64(v * NUM_SCOOPS);
    assert HoldsNonce(cache, payload, seed, start, k);
    assert HoldsScoop(cache, payload, seed, start, k, s);
    Mod64Again(v * NUM_SCOOPS, k);
    NonceWraps(payload, seed, start + k, s);
    NonceWraps(payload, seed, v * NUM_SCOOPS + k, s);
  }

  // Two warps of which the first has an even number, folded, extend the fold by two.
  lemma BatchIsWarps(cache: seq<Word>, payload: Payload, seed: Seed, v: nat, n: nat, s: nat, i: nat)
    requires HoldsBatch(cache, payload, seed, v + n) && (v + n) % 2 == 0 && s < NUM_SCOOPS && i < NUM_SCOOPS
    requires COMPRESS_BATCH <= |cache| / NONCE_WORDS
    ensures var pair := Mirrored(cache, s, i, 0);
      XorWarps(RawOf(payload, seed), s, i, v, n + 2)
        == if n > 0 then XorScoop(XorWarps(RawOf(payload, seed), s, i, v, n), pair) else pair
  {
    hide XorScoop, CacheScoop, RawOf, HoldsBatch;
    var raw := RawOf(payload, seed);
    BatchScoop(cache, payload, seed, v + n, i, s);
    BatchScoop(cache, payload, seed, v + n, NUM_SCOOPS + s, i);
    var even, odd := raw((v + n) * NUM_SCOOPS + i, s), raw((v + n + 1) * NUM_SCOOPS + s, i);
    assert (v + n) * NUM_SCOOPS + (NUM_SCOOPS + s) == (v + n + 1) * NUM_SCOOPS + s;
    assert XorWarps(raw, s, i, v, n + 2) == XorScoop(XorWarps(raw, s, i, v, n + 1), odd);
    assert XorWarps(raw, s, i, v, n + 1) == XorScoop(XorWarps(raw, s, i, v, n), even);
    XorScoopAssoc(XorWarps(raw, s, i, v, n), even, odd);
    if n == 0 {
      XorScoopZero(XorScoop(even, odd));
    }
  }

  // One pass: the first overwrites the slot, every further one accumulates into it.
  lemma PassStep(h: Helix, now: seq<Word>, payload: Payload, seed: Seed, v: nat, n: nat)
    requires h.Fits() && AllFolded(h, now) && h.outputLen == 1 && (h.add <==> n > 0)
    requires HoldsBatch(h.source, payload, seed, v + n) && (v + n) % 2 == 0
    requires n > 0 ==> HoldsPart(h.was, h.warpOffset, payload, seed, v, n)
    ensures HoldsPart(now, h.warpOffset, payload, seed, v, n + 2)
  {
    hide XorScoop, CacheScoop, RawOf, HoldsBatch, XorWarps, Mirrored;
    var m := n + 2;
    forall s: nat, i: nat | s < NUM_SCOOPS && i < NUM_SCOOPS
      ensures PartScoop(now, h.warpOffset, payload, seed, v, m, s, i)
    {
      var column := h.warpOffset * NUM_SCOOPS + i;
      DivModUnique(column, NUM_SCOOPS, h.warpOffset, i);
      BatchIsWarps(h.source, payload, seed, v, n, s, i);
      assert CacheScoop(now, s, column) == h.Into(s, column);
      if n > 0 {
        assert PartScoop(h.was, h.warpOffset, payload, seed, v, n, s, i);
      }
    }
  }

  lemma OtherSlot(h: Helix, now: seq<Word>, j: nat, payload: Payload, seed: Seed, c: nat, w: nat)
    requires h.Fits() && AllFolded(h, now) && h.outputLen == 1 && j != h.warpOffset
    requires HoldsWarp(h.was, j, payload, seed, c, w)
    ensures HoldsWarp(now, j, payload, seed, c, w)
  {
    hide CacheScoop, AtLevel, RawOf;
    forall s: nat, i: nat | s < NUM_SCOOPS && i < NUM_SCOOPS
      ensures WarpScoop(now, j, payload, seed, c, w, s, i)
    {
      assert WarpScoop(h.was, j, payload, seed, c, w, s, i);
      MulMono(j, h.warpOffset, NUM_SCOOPS);
      MulMono(h.warpOffset, j, NUM_SCOOPS);
    }
  }

  // After 2^(c - 1) passes the fold is a warp of level c.
  lemma WarpDone(buffer: seq<Word>, j: nat, payload: Payload, seed: Seed, c: nat, w: nat)
    requires c >= 1 && HoldsPart(buffer, j, payload, seed, Pow2(c) * w, Pow2(c))
    ensures HoldsWarp(buffer, j, payload, seed, c, w)
  {
    hide CacheScoop, AtLevel, RawOf, XorWarps, Pow2;
    forall s: nat, i: nat | s < NUM_SCOOPS && i < NUM_SCOOPS
      ensures WarpScoop(buffer, j, payload, seed, c, w, s, i)
    {
      assert PartScoop(buffer, j, payload, seed, Pow2(c) * w, Pow2(c), s, i);
      AtLevelIsWarps(RawOf(payload, seed), s, w, i, c);
    }
  }
}
