// The scheduling thread of the plotter: it hashes and folds warp after warp into a write buffer,
// hands full buffers to the writers, and goes around the output paths. It may be stopped anywhere.
module PlotScheduler {
  import opened Wrappers
  import opened Words
  import opened PlotChain
  import opened Layout
  import opened ProofQuality
  import opened Cpu
  import opened Plotter
  import opened PlotWriter
  import opened Directory

  datatype PlotterTask = PlotterTask(payload: Payload, compress: nat, escalate: nat, warps: seq<nat>,
                                     numberOfPlots: seq<nat>, seeds: seq<Option<Seed>>)

  // What the thread is given: one entry per path, and a resume point only where a seed is given.
  predicate ValidTask(task: PlotterTask, resumes: seq<nat>) {
    && 0 < |task.warps| == |task.numberOfPlots| == |task.seeds| == |resumes|
    && 0 < task.escalate && task.compress < 256
    && forall p :: 0 <= p < |resumes| && task.seeds[p].None? ==> resumes[p] == 0
  }

  // 1 << (compress - 1), on eight bits and with the distance taken modulo 64.
  function PassesPerWarp(compress: nat): (n: nat)
    ensures n > 0
  {
    Pow2((compress + 255) % 256 % 64)
  }

  lemma PassesOfLevel(c: nat)
    requires Levelled(c)
    ensures 2 * PassesPerWarp(c) == Pow2(c)
  {
    hide Pow2;
    Pow2Next(c - 1);
    DivModUnique(c + 255, 256, 1, c - 1);
    DivModUnique(c - 1, 64, 0, c - 1);
  }

  // Every other level has as many passes as the level from 1 to 64 that differs from it by a
  // multiple of 64; level 0 has as many as level 64.
  lemma PassesWrap(c: nat, level: nat)
    requires c < 256 && Levelled(level) && (c - level) % 64 == 0
    ensures 2 * PassesPerWarp(c) == Pow2(level)
  {
    hide Pow2;
    PassesOfLevel(level);
    DivParts(c + 255, 256);
    DivModUnique((c + 255) % 256, 64, ((c + 255) % 256 - (level - 1)) / 64, level - 1);
    DivModUnique(level + 255, 256, 1, level - 1);
    DivModUnique(level - 1, 64, 0, level - 1);
  }

  // The first nonce of a pass, on 64 bits.
  function NonceOf(passes: nat, warp: nat, pass: nat): U64 {
    Mod64((passes * warp + pass) * COMPRESS_BATCH)
  }

  lemma NextNonce(passes: nat, warp: nat, pass: nat)
    ensures Mod64(NonceOf(passes, warp, pass) + COMPRESS_BATCH) == NonceOf(passes, warp, pass + 1)
    ensures NonceOf(passes, warp, passes) == NonceOf(passes, warp + 1, 0)
    ensures NonceOf(passes, warp, pass) % CPU_TASK_SIZE == 0
  {
    var n := passes * warp + pass;
    Mod64Again(n * COMPRESS_BATCH, COMPRESS_BATCH);
    assert passes * (warp + 1) == passes * warp + passes;
    DivParts(n * COMPRESS_BATCH, U64_RANGE);
    DivModUnique(NonceOf(passes, warp, pass), CPU_TASK_SIZE,
                 n * 128 - n * COMPRESS_BATCH / U64_RANGE * 0x400_0000_0000_0000, 0);
  }

  // ----- what is sent to the writer of a path -----

  function CourseOf(task: PlotterTask, p: nat, first: Seed, resume: nat): Course
    requires p < |task.warps|
  {
    Course(task.warps[p], first, resume)
  }

  // Every buffer holds the warps that its task says, and nothing is finished unwritten but a file
  // that is resumed at its end.
  ghost predicate SoundQueue(q: seq<WriterTask>, task: PlotterTask, p: nat, first: Seed, resume: nat) {
    && p < |task.warps|
    && (forall i :: 0 <= i < |q| ==> !q[i].EndTask? && GoodBuffer(q[i], task.payload, task.compress))
    && (forall i :: 0 <= i < |q| && q[i].Finalize? ==>
          i == 0 && q[i] == Finalize(first, task.warps[p]) && 0 < task.warps[p] <= resume)
    && (task.warps[p] > 0 ==> InOrder(q, CourseOf(task, p, first, resume)))
  }

  // The file with this seed comes next, at this warp.
  ghost predicate ComesNext(q: seq<WriterTask>, task: PlotterTask, p: nat, first: Seed, resume: nat, seed: Seed,
                            warp: nat) {
    && p < |task.warps|
    && (task.warps[p] > 0 ==>
          var c := CourseOf(task, p, first, resume);
          After(q, c) == warp && (warp > 0 ==> Current(q, c) == seed))
  }

  // The files that these tasks finish.
  function FilesIn(q: seq<WriterTask>): nat {
    if |q| == 0 then 0 else FilesIn(q[..|q| - 1]) + if Finishes(q[|q| - 1]) then 1 else 0
  }

  lemma EmptyQueue(task: PlotterTask, p: nat, first: Seed, resume: nat)
    requires p < |task.warps|
    ensures SoundQueue([], task, p, first, resume) && ComesNext([], task, p, first, resume, first, resume)
    ensures FilesIn([]) == 0
  {
  }

  lemma QueueMore(q: seq<WriterTask>, t: WriterTask, task: PlotterTask, p: nat, first: Seed, resume: nat)
    requires SoundQueue(q, task, p, first, resume) && !t.EndTask? && GoodBuffer(t, task.payload, task.compress)
    requires t.Finalize? ==> q == [] && t == Finalize(first, task.warps[p]) && 0 < task.warps[p] <= resume
    requires task.warps[p] > 0 ==> NextInOrder(q, t, CourseOf(task, p, first, resume))
    ensures SoundQueue(q + [t], task, p, first, resume)
    ensures FilesIn(q + [t]) == FilesIn(q) + if Finishes(t) then 1 else 0
    ensures t.ProcessTask? ==>
      var end := t.warpOffset + t.warpsToWrite;
      ComesNext(q + [t], task, p, first, resume, t.seed, if end == task.warps[p] then 0 else end)
    ensures t.Finalize? ==> forall seed :: ComesNext(q + [t], task, p, first, resume, seed, 0)
  {
    hide GoodBuffer;
    var r := q + [t];
    assert r[..|r| - 1] == q;
    if task.warps[p] > 0 {
      var c := CourseOf(task, p, first, resume);
      forall i | 0 <= i < |r|
        ensures NextInOrder(r[..i], r[i], c)
      {
        if i < |q| {
          assert NextInOrder(q[..i], q[i], c);
          assert r[..i] == q[..i];
        }
      }
    }
  }

  // ----- the buffer that is being filled -----

  // The buffer holds n warps from start on, and so many passes of the next one.
  ghost predicate Filling(buf: seq<Word>, name: Name, start: nat, n: nat, pass: nat) {
    && HoldsWarps(buf, name, start, n)
    && (pass > 0 ==> HoldsPart(buf, n, name.payload, name.seed, Pow2(name.compress) * (start + n), 2 * pass))
  }

  lemma FillPass(h: Helix, now: seq<Word>, name: Name, start: nat, n: nat, pass: nat)
    requires Levelled(name.compress) && Filling(h.was, name, start, n, pass)
    requires h.Fits() && AllFolded(h, now) && h.outputLen == 1 && h.warpOffset == n && (h.add <==> pass > 0)
    requires var first := NonceOf(PassesPerWarp(name.compress), start + n, pass);
      forall k :: 0 <= k < COMPRESS_BATCH ==> HoldsNonce(h.source, name.payload, name.seed, first, k)
    ensures Filling(now, name, start, n, pass + 1)
  {
    hide HoldsPart, HoldsWarp, HoldsNonce, AllFolded, Mod64, Pow2, PassesPerWarp;
    var c, w := name.compress, start + n;
    PassesOfLevel(c);
    var v := Pow2(c) * w;
    PassWarps(PassesPerWarp(c), Pow2(c), w, pass);
    EvenPower(c, w, pass);
    assert NonceOf(PassesPerWarp(c), w, pass) == Mod64((v + 2 * pass) * NUM_SCOOPS);
    assert HoldsBatch(h.source, name.payload, name.seed, v + 2 * pass);
    PassStep(h, now, name.payload, name.seed, v, 2 * pass);
    forall j | 0 <= j < n
      ensures HoldsNext(now, name, start, j)
    {
      assert HoldsNext(h.was, name, start, j);
      OtherSlot(h, now, j, name.payload, name.seed, c, start + j);
    }
  }

  lemma PassWarps(passes: nat, count: nat, w: nat, pass: nat)
    requires count == 2 * passes
    ensures (passes * w + pass) * COMPRESS_BATCH == (count * w + 2 * pass) * NUM_SCOOPS
  {
    assert count * w == 2 * (passes * w);
  }

  lemma EvenPower(c: nat, w: nat, pass: nat)
    requires c >= 1
    ensures (Pow2(c) * w + 2 * pass) % 2 == 0
  {
    Pow2Next(c - 1);
    var h := Pow2(c - 1) * w + pass;
    assert Pow2(c) * w == 2 * (Pow2(c - 1) * w);
    DivModUnique(Pow2(c) * w + 2 * pass, 2, h, 0);
  }

  lemma FillWarp(buf: seq<Word>, name: Name, start: nat, n: nat)
    requires Levelled(name.compress) && Filling(buf, name, start, n, PassesPerWarp(name.compress))
    ensures Filling(buf, name, start, n + 1, 0)
  {
    hide HoldsPart, HoldsWarp, Pow2, PassesPerWarp;
    var c := name.compress;
    PassesOfLevel(c);
    Pow2Positive(c);
    WarpDone(buf, n, name.payload, name.seed, c, start + n);
    forall j | 0 <= j < n + 1
      ensures HoldsNext(buf, name, start, j)
    {
      assert j < n ==> HoldsNext(buf, name, start, j);
    }
  }

  // ----- the thread -----

  class PlotScheduler {
    const task: PlotterTask
    const resumes: seq<nat>
    ghost const first: seq<Seed>
    const passes: nat
    const scatter: array<Word>
    // per path
    var seeds: seq<Seed>
    var warpOffsets: seq<nat>
    var filesDone: seq<nat>
    var globalNonces: seq<U64>
    var passInWarp: nat
    var pathPointer: nat
    // the write buffer, while one is held
    var held: bool
    var buffer: array<Word>
    var warpsInBuffer: nat
    var bufferStartWarp: nat
    var bufferPath: nat
    // the loop has been left; a writer was gone and the plotter is asked to stop
    var over: bool
    var stop: bool
    var sent: seq<seq<WriterTask>>

    ghost predicate Shape()
      reads this
    {
      && ValidTask(task, resumes) && |first| == |task.warps| && passes == PassesPerWarp(task.compress)
      && |seeds| == |warpOffsets| == |filesDone| == |globalNonces| == |sent| == |task.warps|
      && pathPointer < |task.warps|
      && scatter.Length == COMPRESS_BATCH * NONCE_WORDS && buffer != scatter
    }

    function NameOfPath(p: nat): Name
      reads this
      requires p < |seeds| && p < |task.warps|
    {
      Name(task.payload, seeds[p], task.warps[p], task.compress)
    }

    // The warp of a path that is to be sent next.
    function Unsent(p: nat): nat
      reads this
      requires p < |warpOffsets|
    {
      if held && p == pathPointer then bufferStartWarp else warpOffsets[p]
    }

    ghost predicate PathOk(p: nat)
      reads this
      requires Shape() && p < |task.warps|
    {
      && SoundQueue(sent[p], task, p, first[p], resumes[p])
      && (!stop ==> filesDone[p] == FilesIn(sent[p]))
      && (!over ==>
            && globalNonces[p] == NonceOf(passes, warpOffsets[p], if p == pathPointer then passInWarp else 0)
            && ComesNext(sent[p], task, p, first[p], resumes[p], seeds[p], Unsent(p))
            && (task.warps[p] > 0 ==> warpOffsets[p] < task.warps[p]))
    }

    ghost predicate BufferOk()
      reads this, buffer
      requires Shape()
    {
      && passInWarp <= passes
      && if held then
           && !over && bufferPath == pathPointer && buffer.Length == task.escalate * WARP_CELLS
           && warpsInBuffer < task.escalate && bufferStartWarp + warpsInBuffer == warpOffsets[pathPointer]
           && (Levelled(task.compress) ==>
                 Filling(buffer[..], NameOfPath(pathPointer), bufferStartWarp, warpsInBuffer, passInWarp))
         else !over ==> warpsInBuffer == 0 && passInWarp == 0
    }

    ghost predicate Valid()
      reads this, buffer
    {
      && Shape() && BufferOk() && (stop ==> over) && (!over ==> passInWarp < passes)
      && PathsOk()
    }

    // A seed that is not given is drawn. A file that its resume point shows to be full is finished,
    // and counts as done; the first path that has files left comes first.
    constructor (task: PlotterTask, resumes: seq<nat>)
      requires ValidTask(task, resumes)
      ensures Valid() && !over && !stop && fresh(scatter) && fresh(buffer)
      ensures this.task == task && this.resumes == resumes && passes == PassesPerWarp(task.compress)
      ensures filesDone == StartDone(task, resumes) && warpOffsets == StartOffsets(task, resumes) && passInWarp == 0
      ensures OnTurn()
      ensures forall p :: 0 <= p < |first| && task.seeds[p].Some? ==> first[p] == task.seeds[p].value
    {
      var drawn := DrawSeeds(task);
      var nonces := StartNonces(task, resumes);
      this.task, this.resumes, this.first := task, resumes, drawn;
      passes := PassesPerWarp(task.compress);
      scatter := new Word[COMPRESS_BATCH * NONCE_WORDS];
      seeds, warpOffsets, globalNonces := drawn, resumes, nonces;
      filesDone, sent := seq(|task.warps|, _ => 0), seq(|task.warps|, _ => []);
      passInWarp, pathPointer, warpsInBuffer, bufferStartWarp, bufferPath := 0, 0, 0, 0, 0;
      held, over, stop := false, false, false;
      buffer := new Word[0];
      new;
      Begin();
    }

    method Begin()
      requires Shape() && !held && !over && !stop && passInWarp == 0 && warpsInBuffer == 0 && pathPointer == 0
      requires forall p :: 0 <= p < |task.warps| ==> PathStarts(p)
      modifies this`sent, this`filesDone, this`warpOffsets, this`globalNonces, this`seeds, this`pathPointer,
        this`bufferStartWarp
      ensures Valid() && OnTurn()
      ensures filesDone == StartDone(task, resumes) && warpOffsets == StartOffsets(task, resumes)
    {
      hide SoundQueue, ComesNext, NonceOf, PassesPerWarp, FilesIn, ValidTask, AllReached;
      FinishResumed();
      label finished:
      if Exhausted(pathPointer) {
        var found, path := NextPath(|task.warps| - 1);
        pathPointer := path;
      }
      bufferStartWarp := warpOffsets[pathPointer];
      forall p | 0 <= p < |task.warps|
        ensures PathOk(p)
      {
        assert old@finished(PathOk(p));
      }
    }

    ghost predicate PathsOk()
      reads this
      requires Shape()
    {
      forall p :: 0 <= p < |task.warps| ==> PathOk(p)
    }

    // What a path is before the first step, while full files are looked for.
    ghost predicate PathStarts(p: nat)
      reads this
      requires Shape() && p < |task.warps|
    {
      && sent[p] == [] && filesDone[p] == 0 && seeds[p] == first[p] && warpOffsets[p] == resumes[p]
      && globalNonces[p] == NonceOf(passes, resumes[p], 0)
    }

    method FinishResumed()
      requires Shape() && !held && !over && passInWarp == 0
      requires forall p :: 0 <= p < |task.warps| ==> PathStarts(p)
      modifies this`sent, this`filesDone, this`warpOffsets, this`globalNonces, this`seeds
      ensures Shape() && PathsOk()
      ensures filesDone == StartDone(task, resumes) && warpOffsets == StartOffsets(task, resumes)
    {
      hide PathOk, PathStarts;
      for i := 0 to |task.warps|
        invariant Shape()
        invariant forall p :: 0 <= p < i ==> PathOk(p)
        invariant forall p :: i <= p < |task.warps| ==> PathStarts(p)
        invariant forall p :: 0 <= p < i ==>
          filesDone[p] == StartDone(task, resumes)[p] && warpOffsets[p] == StartOffsets(task, resumes)[p]
      {
        FinishFull(i);
      }
    }

    method FinishFull(i: nat)
      requires Shape() && !held && !over && passInWarp == 0 && i < |task.warps| && PathStarts(i)
      modifies this`sent, this`filesDone, this`warpOffsets, this`globalNonces, this`seeds
      ensures Shape() && PathOk(i)
      ensures filesDone == old(filesDone)[i := StartDone(task, resumes)[i]]
      ensures warpOffsets == old(warpOffsets)[i := StartOffsets(task, resumes)[i]]
      ensures forall p :: 0 <= p < |task.warps| && p != i ==> old(PathOk(p)) ==> PathOk(p)
      ensures forall p :: 0 <= p < |task.warps| && p != i ==> old(PathStarts(p)) ==> PathStarts(p)
    {
      hide SoundQueue, ComesNext, NonceOf, PassesPerWarp, FilesIn;
      EmptyQueue(task, i, first[i], resumes[i]);
      if task.warps[i] != 0 && resumes[i] >= task.warps[i] {
        var t := Finalize(seeds[i], task.warps[i]);
        QueueMore([], t, task, i, first[i], resumes[i]);
        FirstNonce(passes);
        sent, filesDone := sent[i := sent[i] + [t]], filesDone[i := filesDone[i] + 1];
        warpOffsets, globalNonces := warpOffsets[i := 0], globalNonces[i := 0];
        if filesDone[i] < task.numberOfPlots[i] {
          var drawn: Seed := *;
          seeds := seeds[i := drawn];
        }
      }
    }

    // A buffer comes from the pool, with any contents, unless the pool has been closed.
    method Acquire(faults: bool)
      requires Valid() && !over
      modifies this`held, this`buffer, this`bufferStartWarp, this`bufferPath, this`over
      ensures Valid() && (over || held) && fresh({buffer} - {old(buffer)})
      ensures !faults ==> !over
    {
      hide SoundQueue, ComesNext, NonceOf, PassesPerWarp, FilesIn;
      if !held {
        var closed: bool := *;
        if closed && faults {
          over := true;
        } else {
          buffer := new Word[task.escalate * WARP_CELLS];
          held, bufferStartWarp, bufferPath := true, warpOffsets[pathPointer], pathPointer;
        }
        forall p | 0 <= p < |task.warps|
          ensures PathOk(p)
        {
          assert old(PathOk(p));
        }
      }
    }

    // The batch is folded into the next slot of the buffer.
    method Fold()
      requires Valid() && held
      requires forall k :: 0 <= k < COMPRESS_BATCH ==>
        HoldsNonce(scatter[..], task.payload, seeds[pathPointer], globalNonces[pathPointer], k)
      modifies this`globalNonces, this`passInWarp, buffer
      ensures Shape() && BufferOk() && PathsOk() && passInWarp == old(passInWarp) + 1 <= passes
    {
      hide SoundQueue, ComesNext, NonceOf, PassesPerWarp, FilesIn, Filling, HoldsNonce, AllFolded;
      var p := pathPointer;
      assert PathOk(p);
      ghost var h := Helix(buffer[..], scatter[..], warpsInBuffer, 1, passInWarp > 0);
      SlotFits(h, task.escalate);
      HelixCompress(scatter, buffer, warpsInBuffer, 1, passInWarp > 0);
      if Levelled(task.compress) {
        FillPass(h, buffer[..], NameOfPath(p), bufferStartWarp, warpsInBuffer, passInWarp);
      }
      NextNonce(passes, warpOffsets[p], passInWarp);
      globalNonces := globalNonces[p := Mod64(globalNonces[p] + COMPRESS_BATCH)];
      passInWarp := passInWarp + 1;
      forall q | 0 <= q < |task.warps|
        ensures PathOk(q)
      {
        assert old(PathOk(q));
      }
    }

    // The buffer goes to the writer of its path. If the writer is gone, the plotter is to stop.
    method Flush(nextWarpOffset: nat, currentWarps: nat, faults: bool)
      requires bufferPath < |sent| && bufferPath < |seeds| && held && !stop
      modifies this`held, this`sent, this`warpsInBuffer, this`bufferStartWarp, this`over, this`stop
      ensures !held && (!faults ==> !stop)
      ensures stop ==> over && sent == old(sent)
      ensures !stop ==>
        && over == old(over) && warpsInBuffer == 0 && bufferStartWarp == nextWarpOffset
        && sent == old(sent[bufferPath := sent[bufferPath] + [NextTask(currentWarps)]])
    {
      var t := NextTask(currentWarps);
      held := false;
      var gone: bool := *;
      if gone && faults {
        over, stop := true, true;
        return;
      }
      sent := sent[bufferPath := sent[bufferPath] + [t]];
      warpsInBuffer, bufferStartWarp := 0, nextWarpOffset;
    }

    function NextTask(currentWarps: nat): WriterTask
      reads this, buffer
      requires bufferPath < |seeds|
    {
      ProcessTask(buffer[..], seeds[bufferPath], bufferStartWarp, warpsInBuffer, currentWarps)
    }

    // The task that the buffer makes is sound and in order.
    lemma NextTaskGood()
      requires Shape() && held && bufferPath == pathPointer
      requires buffer.Length == task.escalate * WARP_CELLS && 0 < warpsInBuffer <= task.escalate
      requires Levelled(task.compress) ==>
        HoldsWarps(buffer[..], NameOfPath(pathPointer), bufferStartWarp, warpsInBuffer)
      requires var p := pathPointer;
        && SoundQueue(sent[p], task, p, first[p], resumes[p])
        && ComesNext(sent[p], task, p, first[p], resumes[p], seeds[p], bufferStartWarp)
        && (task.warps[p] > 0 ==> bufferStartWarp + warpsInBuffer <= task.warps[p])
      ensures var p, end := pathPointer, bufferStartWarp + warpsInBuffer;
        var t := NextTask(task.warps[p]);
        && SoundQueue(sent[p] + [t], task, p, first[p], resumes[p])
        && FilesIn(sent[p] + [t]) == FilesIn(sent[p]) + (if end == task.warps[p] then 1 else 0)
        && ComesNext(sent[p] + [t], task, p, first[p], resumes[p], seeds[p], if end == task.warps[p] then 0 else end)
    {
      hide HoldsWarps, SoundQueue, FilesIn;
      var p := pathPointer;
      FileColumns(task.escalate);
      QueueMore(sent[p], NextTask(task.warps[p]), task, p, first[p], resumes[p]);
    }

    // The next path, after this one, that has files left.
    method NextPath(oldPath: nat) returns (found: bool, path: nat)
      requires Shape() && oldPath < |task.warps|
      ensures path < |task.warps|
      ensures found <==> !AllDone()
      ensures found ==> !Exhausted(path)
    {
      hide Candidate;
      var n := |task.warps|;
      for i := 1 to n + 1
        invariant forall k :: 1 <= k < i ==> Exhausted(Candidate(oldPath, k, n))
      {
        var candidate := Candidate(oldPath, i, n);
        if filesDone[candidate] < task.numberOfPlots[candidate] {
          assert !Exhausted(candidate);
          return true, candidate;
        }
      }
      forall p | 0 <= p < n
        ensures Reaches(filesDone, task.numberOfPlots, p)
      {
        Around(oldPath, p, n);
      }
      return false, oldPath;
    }

    predicate Exhausted(p: nat)
      reads this
    {
      Reaches(filesDone, task.numberOfPlots, p)
    }

    predicate AllDone()
      reads this
    {
      AllReached(filesDone, task.numberOfPlots)
    }

    // The path whose turn it is has files left, unless none has.
    predicate OnTurn()
      reads this
    {
      AllDone() || !Exhausted(pathPointer)
    }

    // No path has more files than it is to get, and one with empty files has none.
    ghost predicate Bounded()
      reads this
      requires Shape()
    {
      AllBounded(task, resumes, filesDone)
    }

    // The passes that are left to do.
    ghost function Work(): int
      reads this
      requires Shape()
    {
      WorkLeft(task, filesDone, warpOffsets, |task.warps|) * passes - passInWarp
    }

    // At the end of a warp, before it is seen whether the buffer is to be sent.
    ghost predicate WarpEnded()
      reads this, buffer
      requires Shape()
    {
      && held && !over && !stop && passInWarp == 0 && bufferPath == pathPointer
      && buffer.Length == task.escalate * WARP_CELLS && 0 < warpsInBuffer <= task.escalate
      && bufferStartWarp + warpsInBuffer == warpOffsets[pathPointer]
      && (Levelled(task.compress) ==> HoldsWarps(buffer[..], NameOfPath(pathPointer), bufferStartWarp, warpsInBuffer))
      && forall p :: 0 <= p < |task.warps| ==> PathEnded(p)
    }

    ghost predicate PathEnded(p: nat)
      reads this
      requires Shape() && p < |task.warps|
    {
      && SoundQueue(sent[p], task, p, first[p], resumes[p])
      && filesDone[p] == FilesIn(sent[p]) && globalNonces[p] == NonceOf(passes, warpOffsets[p], 0)
      && ComesNext(sent[p], task, p, first[p], resumes[p], seeds[p], Unsent(p))
      && (task.warps[p] > 0 ==>
            warpOffsets[p] <= task.warps[p] && (p != pathPointer ==> warpOffsets[p] != task.warps[p]))
    }

    method CountWarp()
      requires Shape() && BufferOk() && PathsOk() && held && !over && !stop && passInWarp == passes
      modifies this`passInWarp, this`warpsInBuffer, this`warpOffsets
      ensures Shape() && WarpEnded() && warpsInBuffer <= task.escalate && passInWarp == 0
      ensures warpOffsets == old(warpOffsets[pathPointer := warpOffsets[pathPointer] + 1])
    {
      hide SoundQueue, ComesNext, NonceOf, PassesPerWarp, FilesIn, HoldsWarps, HoldsPart;
      var p := pathPointer;
      if Levelled(task.compress) {
        FillWarp(buffer[..], NameOfPath(p), bufferStartWarp, warpsInBuffer);
      }
      NextNonce(passes, warpOffsets[p], passes);
      passInWarp, warpsInBuffer := 0, warpsInBuffer + 1;
      warpOffsets := warpOffsets[p := warpOffsets[p] + 1];
      forall q | 0 <= q < |task.warps|
        ensures PathEnded(q)
      {
        assert old(PathOk(q));
      }
    }

    lemma NotYetFull()
      requires Shape() && WarpEnded()
      requires warpsInBuffer < task.escalate && warpOffsets[pathPointer] != task.warps[pathPointer]
      ensures Valid()
    {
      hide SoundQueue, ComesNext, NonceOf, PassesPerWarp, FilesIn, HoldsWarps, HoldsPart;
      forall p | 0 <= p < |task.warps|
        ensures PathOk(p)
      {
        assert PathEnded(p);
      }
    }

    // The buffer has been sent; its last warp was the last of a file of the path that ended, if any did.
    ghost predicate Sent(ended: Option<nat>)
      reads this
      requires Shape()
    {
      && !held && passInWarp == 0 && (stop ==> over) && (!over ==> warpsInBuffer == 0)
      && forall p :: 0 <= p < |task.warps| ==> PathSent(p, ended)
    }

    ghost predicate PathSent(p: nat, ended: Option<nat>)
      reads this
      requires Shape() && p < |task.warps|
    {
      var done := ended == Some(p);
      && SoundQueue(sent[p], task, p, first[p], resumes[p])
      && (!stop ==>
            && filesDone[p] == FilesIn(sent[p])
            && ComesNext(sent[p], task, p, first[p], resumes[p], seeds[p], if done then 0 else warpOffsets[p]))
      && globalNonces[p] == NonceOf(passes, warpOffsets[p], 0)
      && (task.warps[p] > 0 && !done ==> warpOffsets[p] < task.warps[p])
    }

    // A file that is done is followed by one with another seed.
    method SendBuffer(faults: bool) returns (atFileBoundary: bool)
      requires Shape() && WarpEnded()
      modifies this`held, this`sent, this`warpsInBuffer, this`bufferStartWarp, this`over, this`stop, this`filesDone,
        this`seeds
      ensures Shape() && Sent(if atFileBoundary then Some(pathPointer) else None)
      ensures atFileBoundary <==> warpOffsets[pathPointer] == task.warps[pathPointer]
      ensures filesDone == if atFileBoundary then old(filesDone[pathPointer := filesDone[pathPointer] + 1])
          else old(filesDone)
      ensures !faults ==> !stop && !over
    {
      hide SoundQueue, ComesNext, NonceOf, PassesPerWarp, FilesIn, HoldsWarps, HoldsPart;
      var p := pathPointer;
      var currentWarps := task.warps[p];
      atFileBoundary := warpOffsets[p] == currentWarps;
      ghost var ended := if atFileBoundary then Some(p) else None;
      assert PathEnded(p);
      NextTaskGood();
      Flush(warpOffsets[p], currentWarps, faults);
      if atFileBoundary {
        filesDone := filesDone[p := filesDone[p] + 1];
        if filesDone[p] < task.numberOfPlots[p] {
          var drawn: Seed := *;
          if !stop {
            Redrawn(sent[p], task, p, first[p], resumes[p], seeds[p], drawn);
          }
          seeds := seeds[p := drawn];
        }
      }
      forall q | 0 <= q < |task.warps|
        ensures PathSent(q, ended)
      {
        assert old(PathEnded(q));
      }
    }

    // It is the turn of the next path that has files left.
    method NextTurn(atFileBoundary: bool)
      requires Shape() && Sent(if atFileBoundary then Some(pathPointer) else None)
      modifies this`pathPointer, this`over, this`warpOffsets, this`globalNonces, this`bufferStartWarp
      ensures Valid() && passInWarp == 0 && OnTurn() && (over ==> old(over) || AllDone())
      ensures AllDone() || warpOffsets
          == if atFileBoundary then old(warpOffsets[pathPointer := 0]) else old(warpOffsets)
    {
      hide AllReached, PassesPerWarp, SoundQueue, ComesNext, NonceOf, FilesIn;
      var oldPath := pathPointer;
      ghost var ended := if atFileBoundary then Some(oldPath) else None;
      var found := true;
      if |task.warps| > 1 {
        found, pathPointer := NextPath(oldPath);
        over := over || !found;
        forall q | 0 <= q < |task.warps|
          ensures PathSent(q, ended)
        {
          assert old(PathSent(q, ended));
        }
      }
      if found && (pathPointer != oldPath || atFileBoundary) {
        if atFileBoundary {
          Restart(oldPath);
        }
        StartBuffer(None);
      }
      Settled(if found then None else ended);
      if |task.warps| == 1 && Exhausted(0) {
        OnlyPath(filesDone, task.numberOfPlots);
      }
    }

    method StartBuffer(ghost ended: Option<nat>)
      requires Shape() && Sent(ended)
      modifies this`bufferStartWarp
      ensures Shape() && Sent(ended)
    {
      hide SoundQueue, ComesNext, NonceOf, PassesPerWarp, FilesIn;
      bufferStartWarp := warpOffsets[pathPointer];
      forall q | 0 <= q < |task.warps|
        ensures PathSent(q, ended)
      {
        assert old(PathSent(q, ended));
      }
    }

    method Restart(path: nat)
      requires Shape() && Sent(Some(path)) && path < |task.warps|
      modifies this`warpOffsets, this`globalNonces
      ensures Shape() && Sent(None) && warpOffsets == old(warpOffsets)[path := 0]
    {
      hide SoundQueue, ComesNext, NonceOf, PassesPerWarp, FilesIn;
      warpOffsets, globalNonces := warpOffsets[path := 0], globalNonces[path := 0];
      FirstNonce(passes);
      forall q | 0 <= q < |task.warps|
        ensures PathSent(q, None)
      {
        assert old(PathSent(q, Some(path)));
      }
    }

    lemma Settled(ended: Option<nat>)
      requires Shape() && Sent(ended) && (over || ended == None)
      ensures Valid()
    {
      hide SoundQueue, ComesNext, NonceOf, PassesPerWarp, FilesIn;
      forall q | 0 <= q < |task.warps|
        ensures PathOk(q)
      {
        assert PathSent(q, ended);
      }
    }

    lemma Aligned()
      requires Valid() && !over
      ensures globalNonces[pathPointer] % CPU_TASK_SIZE == 0
    {
      hide SoundQueue, ComesNext, NonceOf, FilesIn, BufferOk;
      assert PathOk(pathPointer);
      NextNonce(passes, warpOffsets[pathPointer], passInWarp);
    }

    // A full buffer, and one that ends with its file, is sent, and it is the turn of the next path.
    method EndWarp(faults: bool)
      requires Shape() && BufferOk() && PathsOk() && held && !over && !stop && passInWarp == passes
      requires OnTurn() && !AllDone()
      modifies this
      ensures Valid() && buffer == old(buffer) && OnTurn() && passInWarp == 0
      ensures old(Bounded()) ==> Bounded()
      ensures !faults && NoEmptyFiles(task) ==>
        !stop && (over ==> AllDone())
        && WorkLeft(task, filesDone, warpOffsets, |task.warps|)
          == old(WorkLeft(task, filesDone, warpOffsets, |task.warps|)) - 1
    {
      hide BufferOk, PathsOk, PathOk, WarpEnded, Sent, WorkLeft, WarpsLeft, AllReached;
      ghost var p, done, offsets := pathPointer, filesDone, warpOffsets;
      Inside();
      CountWarp();
      if warpsInBuffer == task.escalate || warpOffsets[pathPointer] == task.warps[pathPointer] {
        var atFileBoundary := SendBuffer(faults);
        NextTurn(atFileBoundary);
      } else {
        NotYetFull();
      }
      if !faults && NoEmptyFiles(task) {
        WarpCounted(task, done, offsets, filesDone, warpOffsets, p, AllDone());
      }
    }

    // The path whose turn it is has not come to the end of its file.
    lemma Inside()
      requires Shape() && PathsOk() && !over
      ensures forall p :: 0 <= p < |task.warps| && task.warps[p] > 0 ==> warpOffsets[p] < task.warps[p]
    {
      hide SoundQueue, ComesNext, NonceOf, FilesIn;
      forall p | 0 <= p < |task.warps| && task.warps[p] > 0
        ensures warpOffsets[p] < task.warps[p]
      {
        assert PathOk(p);
      }
    }

    // Something is left to do exactly as long as some path has files left.
    lemma WorkIsThere()
      requires Valid() && NoEmptyFiles(task) && (over ==> AllDone())
      ensures if AllDone() then passInWarp == 0 ==> Work() == 0 else Work() > 0
    {
      hide BufferOk, PathsOk, WorkLeft;
      if !over {
        Inside();
      }
      forall q | 0 <= q < |task.warps|
        ensures AllDone() ==> filesDone[q] >= task.numberOfPlots[q]
      {
        assert AllDone() ==> Reaches(filesDone, task.numberOfPlots, q);
      }
      WorkSign(task, filesDone, warpOffsets, |task.warps|);
      MulMono(1, WorkLeft(task, filesDone, warpOffsets, |task.warps|), passes);
    }

    // One round of the loop. Anything may be in the buffer at first, and the passes of a warp may be
    // cut short by the end of the pool. Without faults, a round is one pass less to do.
    method Step(cpu: Features, faults: bool)
      requires Valid() && !over && OnTurn() && !AllDone()
      modifies this, scatter, buffer
      ensures Valid() && fresh({buffer} - {old(buffer)}) && OnTurn()
      ensures old(Bounded()) ==> Bounded()
      ensures AllDone() ==> passInWarp == 0
      ensures !faults && NoEmptyFiles(task) ==> !stop && (over ==> AllDone()) && Work() == old(Work()) - 1
    {
      hide HoldsNonce, BufferOk, PathsOk, PathOk, WorkLeft, AllReached, AllBounded;
      ghost var left := WorkLeft(task, filesDone, warpOffsets, |task.warps|);
      Aligned();
      HashNonces(cpu, scatter, task.payload, seeds[pathPointer], globalNonces[pathPointer], COMPRESS_BATCH);
      Acquire(faults);
      if over {
        return;
      }
      Fold();
      if passInWarp == passes {
        EndWarp(faults);
        MulGap(left - 1, 1, passes);
      }
    }

    // What is left in the buffer when the loop has ended is sent.
    method FlushRest(faults: bool)
      requires Valid()
      modifies this`held, this`sent, this`warpsInBuffer, this`bufferStartWarp, this`over, this`stop
      ensures Shape() && forall p :: 0 <= p < |task.warps| ==> PathFlushed(p)
      ensures !faults && !old(stop) ==> !stop
    {
      hide SoundQueue, ComesNext, NonceOf, PassesPerWarp, FilesIn, HoldsWarps, HoldsPart;
      var p := pathPointer;
      assert PathOk(p);
      if warpsInBuffer > 0 && held {
        NextTaskGood();
        Flush(warpOffsets[p], task.warps[p], faults);
      }
      forall q | 0 <= q < |task.warps|
        ensures PathFlushed(q)
      {
        assert old(PathOk(q));
      }
    }

    // Every writer is told to end.
    method EndAll() returns (queues: seq<seq<WriterTask>>)
      requires Shape() && forall p :: 0 <= p < |task.warps| ==> PathFlushed(p)
      ensures |queues| == |task.warps|
      ensures forall p :: 0 <= p < |queues| ==> EndedQueue(queues[p], task, p, first[p], resumes[p])
      ensures AllDone() && !stop && Bounded() ==>
        forall p :: 0 <= p < |queues| ==> FilesIn(queues[p]) == FilesAsked(task, resumes, p)
      ensures AllDone() && Bounded() ==> NoEmptyFiles(task)
    {
      hide SoundQueue, FilesIn, EndedQueue;
      queues := [];
      for p := 0 to |task.warps|
        invariant |queues| == p
        invariant forall k :: 0 <= k < p ==> EndedQueue(queues[k], task, k, first[k], resumes[k])
        invariant AllDone() && !stop && Bounded() ==>
          forall k :: 0 <= k < p ==> FilesIn(queues[k]) == FilesAsked(task, resumes, k)
        invariant AllDone() && Bounded() ==>
          forall k :: 0 <= k < p && task.numberOfPlots[k] > 0 ==> task.warps[k] > 0
      {
        assert PathFlushed(p) && (AllDone() ==> Exhausted(p));
        EndQueue(sent[p], task, p, first[p], resumes[p]);
        queues := queues + [sent[p] + [EndTask]];
      }
    }

    ghost predicate PathFlushed(p: nat)
      reads this
      requires Shape() && p < |task.warps|
    {
      SoundQueue(sent[p], task, p, first[p], resumes[p]) && (!stop ==> filesDone[p] == FilesIn(sent[p]))
    }
  }

  lemma Redrawn(q: seq<WriterTask>, task: PlotterTask, p: nat, first: Seed, resume: nat, seed: Seed, drawn: Seed)
    requires ComesNext(q, task, p, first, resume, seed, 0)
    ensures ComesNext(q, task, p, first, resume, drawn, 0)
  {
  }

  // ----- how much there is to do -----

  predicate Reaches(done: seq<nat>, plots: seq<nat>, p: nat) {
    p < |done| && p < |plots| ==> done[p] >= plots[p]
  }

  predicate AllReached(done: seq<nat>, plots: seq<nat>) {
    forall p :: 0 <= p < |plots| ==> Reaches(done, plots, p)
  }

  lemma OnlyPath(done: seq<nat>, plots: seq<nat>)
    requires |plots| == 1 && Reaches(done, plots, 0)
    ensures AllReached(done, plots)
  {
  }

  // Whoever asks for files asks for files of some warps.
  predicate NoEmptyFiles(task: PlotterTask)
    requires |task.numberOfPlots| == |task.warps|
  {
    forall p :: 0 <= p < |task.warps| && task.numberOfPlots[p] > 0 ==> task.warps[p] > 0
  }

  ghost predicate AllBounded(task: PlotterTask, resumes: seq<nat>, done: seq<nat>)
    requires |task.warps| == |task.numberOfPlots| == |resumes| == |done|
  {
    forall p :: 0 <= p < |task.warps| ==>
      && StartDone(task, resumes)[p] <= done[p] <= FilesAsked(task, resumes, p)
      && (task.warps[p] == 0 ==> done[p] == 0)
  }

  function StartDone(task: PlotterTask, resumes: seq<nat>): (r: seq<nat>)
    requires |task.warps| == |resumes|
    ensures |r| == |resumes|
  {
    seq(|resumes|, p requires 0 <= p < |resumes| => if ResumedFull(task, resumes, p) then 1 else 0)
  }

  function StartOffsets(task: PlotterTask, resumes: seq<nat>): (r: seq<nat>)
    requires |task.warps| == |resumes|
    ensures |r| == |resumes|
  {
    seq(|resumes|, p requires 0 <= p < |resumes| => if ResumedFull(task, resumes, p) then 0 else resumes[p])
  }

  // The passes that there are to do.
  ghost function TotalWork(task: PlotterTask, resumes: seq<nat>): int
    requires |task.warps| == |task.numberOfPlots| == |resumes|
  {
    WorkLeft(task, StartDone(task, resumes), StartOffsets(task, resumes), |resumes|) * PassesPerWarp(task.compress)
  }

  predicate ResumedFull(task: PlotterTask, resumes: seq<nat>, p: nat)
    requires p < |task.warps| && p < |resumes|
  {
    task.warps[p] != 0 && resumes[p] >= task.warps[p]
  }

  // The files of a path: those asked for, and a file that is resumed at its end in any case.
  function FilesAsked(task: PlotterTask, resumes: seq<nat>, p: nat): nat
    requires p < |task.warps| && p < |task.numberOfPlots| && p < |resumes|
  {
    if task.numberOfPlots[p] == 0 && ResumedFull(task, resumes, p) then 1 else task.numberOfPlots[p]
  }

  // The warps that a path has left.
  function WarpsLeft(plots: nat, warps: nat, done: nat, offset: nat): int {
    if done < plots then (plots - done) * warps - offset else 0
  }

  function LeftOf(task: PlotterTask, done: seq<nat>, offsets: seq<nat>, p: nat): int
    requires p < |task.warps| && p < |task.numberOfPlots| && p < |done| && p < |offsets|
  {
    WarpsLeft(task.numberOfPlots[p], task.warps[p], done[p], offsets[p])
  }

  // The warps that the first n paths have left.
  ghost function WorkLeft(task: PlotterTask, done: seq<nat>, offsets: seq<nat>, n: nat): int
    requires n <= |task.warps| && n <= |task.numberOfPlots| && n <= |done| && n <= |offsets|
  {
    if n == 0 then 0 else WorkLeft(task, done, offsets, n - 1) + LeftOf(task, done, offsets, n - 1)
  }

  lemma {:induction false} WorkSign(task: PlotterTask, done: seq<nat>, offsets: seq<nat>, n: nat)
    requires n <= |task.warps| == |task.numberOfPlots| == |done| == |offsets|
    requires forall q :: 0 <= q < n && done[q] < task.numberOfPlots[q] ==> offsets[q] < task.warps[q]
    ensures WorkLeft(task, done, offsets, n) >= 0
    ensures WorkLeft(task, done, offsets, n) == 0 <==> forall q :: 0 <= q < n ==> done[q] >= task.numberOfPlots[q]
  {
    if n > 0 {
      WorkSign(task, done, offsets, n - 1);
      if done[n - 1] < task.numberOfPlots[n - 1] {
        MulMono(1, task.numberOfPlots[n - 1] - done[n - 1], task.warps[n - 1]);
      }
    }
  }

  // Another warp: the file goes on, or it ends and the next one starts, or it was the last.
  lemma WarpCounted(task: PlotterTask, done: seq<nat>, offsets: seq<nat>, next: seq<nat>, nextOffsets: seq<nat>, p: nat,
                    end: bool)
    requires p < |task.warps| == |task.numberOfPlots| == |done| == |offsets| == |next| == |nextOffsets|
    requires done[p] < task.numberOfPlots[p] && offsets[p] < task.warps[p]
    requires next == if offsets[p] + 1 == task.warps[p] then done[p := done[p] + 1] else done
    requires end <==> AllReached(next, task.numberOfPlots)
    requires end || nextOffsets == offsets[p := if offsets[p] + 1 == task.warps[p] then 0 else offsets[p] + 1]
    ensures WorkLeft(task, next, nextOffsets, |task.warps|) == WorkLeft(task, done, offsets, |task.warps|) - 1
  {
    forall q | 0 <= q < |task.warps|
      ensures LeftOf(task, next, nextOffsets, q) == LeftOf(task, done, offsets, q) - (if q == p then 1 else 0)
    {
      assert end ==> Reaches(next, task.numberOfPlots, q);
      if q == p {
        MulGap(task.numberOfPlots[p] - done[p] - 1, 1, task.warps[p]);
      }
    }
    WorkChange(task, done, offsets, next, nextOffsets, p, |task.warps|);
  }

  lemma {:induction false} WorkChange(task: PlotterTask, done: seq<nat>, offsets: seq<nat>, next: seq<nat>,
                                      nextOffsets: seq<nat>, p: nat, n: nat)
    requires n <= |task.warps| == |task.numberOfPlots| == |done| == |offsets| == |next| == |nextOffsets|
    requires forall q :: 0 <= q < n ==>
      LeftOf(task, next, nextOffsets, q) == LeftOf(task, done, offsets, q) - (if q == p then 1 else 0)
    ensures WorkLeft(task, next, nextOffsets, n) == WorkLeft(task, done, offsets, n) - (if p < n then 1 else 0)
  {
    hide WarpsLeft;
    if n > 0 {
      WorkChange(task, done, offsets, next, nextOffsets, p, n - 1);
      assert LeftOf(task, next, nextOffsets, n - 1)
          == LeftOf(task, done, offsets, n - 1) - (if n - 1 == p then 1 else 0);
    }
  }

  // A run of the thread, stopped after any number of rounds. If it ends by itself, and no writer
  // is gone, every path has exactly its files. Without faults that takes as many rounds as there are
  // passes to do, and with empty files asked for it never does.
  method RunThread(cpu: Features, task: PlotterTask, resumes: seq<nat>, rounds: nat, faults: bool)
    returns (queues: seq<seq<WriterTask>>, finished: bool, ghost first: seq<Seed>)
    requires ValidTask(task, resumes)
    ensures |queues| == |first| == |task.warps|
    ensures forall p :: 0 <= p < |first| && task.seeds[p].Some? ==> first[p] == task.seeds[p].value
    ensures forall p :: 0 <= p < |queues| ==> EndedQueue(queues[p], task, p, first[p], resumes[p])
    ensures finished ==> forall p :: 0 <= p < |queues| ==> FilesIn(queues[p]) == FilesAsked(task, resumes, p)
    ensures !faults ==> (finished <==> NoEmptyFiles(task) && TotalWork(task, resumes) <= rounds)
    ensures finished ==> NoEmptyFiles(task)
  {
    hide SoundQueue, FilesIn, WorkLeft, PassesPerWarp, PlotScheduler.BufferOk, PlotScheduler.PathsOk,
        PlotScheduler.PathFlushed, AllReached;
    var thread := new PlotScheduler(task, resumes);
    first := thread.first;
    ghost var counted := !faults && NoEmptyFiles(task);
    ghost var steps := 0;
    for i := 0 to rounds
      invariant thread.Valid() && thread.task == task && thread.resumes == resumes && thread.first == first
      invariant fresh(thread) && fresh(thread.scatter) && fresh(thread.buffer)
      invariant thread.OnTurn() && thread.Bounded() && (thread.AllDone() ==> thread.passInWarp == 0) && steps == i
      invariant counted ==>
        !thread.stop && (thread.over ==> thread.AllDone()) && thread.Work() == TotalWork(task, resumes) - steps
    {
      if thread.over || thread.AllDone() {
        break;
      }
      thread.Step(cpu, faults);
      steps := steps + 1;
    }
    if counted {
      thread.WorkIsThere();
    }
    thread.FlushRest(faults);
    finished := thread.AllDone() && !thread.stop;
    queues := thread.EndAll();
  }

  // Sound tasks, and the order to end.
  ghost predicate EndedQueue(q: seq<WriterTask>, task: PlotterTask, p: nat, first: Seed, resume: nat) {
    |q| > 0 && q[|q| - 1].EndTask? && SoundQueue(q[..|q| - 1], task, p, first, resume)
  }

  lemma EndQueue(q: seq<WriterTask>, task: PlotterTask, p: nat, first: Seed, resume: nat)
    requires SoundQueue(q, task, p, first, resume)
    ensures EndedQueue(q + [EndTask], task, p, first, resume) && FilesIn(q + [EndTask]) == FilesIn(q)
  {
    assert (q + [EndTask])[..|q|] == q;
  }

  method DrawSeeds(task: PlotterTask) returns (seeds: seq<Seed>)
    ensures |seeds| == |task.seeds|
    ensures forall p :: 0 <= p < |seeds| && task.seeds[p].Some? ==> seeds[p] == task.seeds[p].value
  {
    seeds := [];
    for i := 0 to |task.seeds|
      invariant |seeds| == i
      invariant forall p :: 0 <= p < i && task.seeds[p].Some? ==> seeds[p] == task.seeds[p].value
    {
      var seed: Seed := *;
      if task.seeds[i].Some? {
        seed := task.seeds[i].value;
      }
      seeds := seeds + [seed];
    }
  }

  method StartNonces(task: PlotterTask, resumes: seq<nat>) returns (nonces: seq<U64>)
    ensures |nonces| == |resumes|
    ensures forall p :: 0 <= p < |nonces| ==> nonces[p] == NonceOf(PassesPerWarp(task.compress), resumes[p], 0)
  {
    hide NonceOf, PassesPerWarp;
    var passes := PassesPerWarp(task.compress);
    nonces := [];
    for i := 0 to |resumes|
      invariant |nonces| == i
      invariant forall p :: 0 <= p < i ==> nonces[p] == NonceOf(passes, resumes[p], 0)
    {
      FirstNonce(passes);
      ResumedNonce(passes, resumes[i]);
      nonces := nonces + [if resumes[i] > 0 then Mod64(Mod64(resumes[i] * passes) * COMPRESS_BATCH) else 0];
    }
  }

  lemma ResumedNonce(passes: nat, resume: nat)
    ensures Mod64(Mod64(resume * passes) * COMPRESS_BATCH) == NonceOf(passes, resume, 0)
  {
    Mod64Again(resume * passes, COMPRESS_BATCH);
    assert resume * passes == passes * resume;
  }

  lemma FirstNonce(passes: nat)
    ensures NonceOf(passes, 0, 0) == 0
  {
  }

  // Path i of a round that starts after the old path.
  function Candidate(oldPath: nat, i: nat, n: nat): (p: nat)
    requires n > 0
    ensures p < n
  {
    (oldPath + i) % n
  }

  lemma Around(oldPath: nat, p: nat, n: nat)
    requires oldPath < n && p < n
    ensures exists k :: 1 <= k <= n && Candidate(oldPath, k, n) == p
  {
    var k := if p > oldPath then p - oldPath else p + n - oldPath;
    DivModUnique(oldPath + k, n, if p > oldPath then 0 else 1, p);
    assert Candidate(oldPath, k, n) == p;
  }

  lemma SlotFits(h: Helix, escalate: nat)
    requires |h.source| == COMPRESS_BATCH * NONCE_WORDS && |h.was| == escalate * WARP_CELLS
    requires h.outputLen == 1 && h.warpOffset < escalate
    ensures h.Fits()
  {
    FileColumns(escalate);
  }
}
