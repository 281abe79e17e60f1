// A directory of plot files and the thread that writes to it. Errors may strike anywhere, and a
// run may be cut off anywhere: the marker of a file never counts more than the file holds, and it
// stays where it was, unless the run is cut off right at the end of the file; then it may be gone and
// the file is plotted again.
module Directory {
  import opened Words
  import opened Layout
  import opened ProofQuality
  import opened Plotter
  import opened PlotWriter

  datatype OpenResult = Opened | FileNotFound | OpenFailed

  datatype ResumeInfo = Progress(warps: nat) | NoResumeInfo | ReadFailed

  datatype WriteResult = Written | ResumeGap(expected: nat, actual: nat) | WriteExceedsEof | WriteFailed

  // What the scheduler sends to a writer; a buffer belongs to the task until it is written.
  datatype WriterTask =
    | ProcessTask(buffer: seq<Word>, seed: Seed, warpOffset: nat, warpsToWrite: nat, numberOfWarps: nat)
    | Finalize(seed: Seed, numberOfWarps: nat)
    | EndTask

  datatype Served = Ended | Failed | Killed

  class Directory {
    var tmp: map<Name, seq<Word>>
    var plots: map<Name, seq<Word>>

    ghost predicate Sound()
      reads this
    {
      && (forall name :: name in tmp ==> SoundTmp(name, tmp[name]))
      && (forall name :: name in plots ==> SoundPlot(name, plots[name]))
    }

    // Opens a file in progress, or creates it: reserved, reading as zero, and with a marker. With
    // faults, creation may get stuck half way.
    method Open(name: Name, create: bool, faults: bool) returns (r: OpenResult)
      requires Sound()
      modifies this
      ensures Sound() && plots == old(plots) && tmp - {name} == old(tmp) - {name}
      ensures name in old(tmp) ==> tmp == old(tmp)
      ensures r == FileNotFound <==> !create && name !in old(tmp)
      ensures r == FileNotFound ==> tmp == old(tmp)
      ensures r == Opened ==> name in tmp
      ensures r == Opened && name !in old(tmp) ==>
        Whole(name, tmp[name]) && HasMarker(tmp[name]) && Marked(tmp[name]) == 0
      ensures !faults && (name in old(tmp) || (create && name.warps > 0)) ==> r == Opened
    {
      var stage: nat := *;
      if name !in tmp {
        if !create {
          return FileNotFound;
        }
        if faults && stage == 0 {
          return OpenFailed;
        }
        tmp := tmp[name := []];
        if faults && stage == 1 {
          return OpenFailed;
        }
        tmp := tmp[name := seq(name.warps * WARP_CELLS, _ => 0)];
        var ok := WriteResumeInfo(name, 0, faults);
        if !ok {
          return OpenFailed;
        }
      }
      if faults && stage == 2 {
        return OpenFailed;
      }
      return Opened;
    }

    method ReadResumeInfo(name: Name, faults: bool) returns (r: ResumeInfo)
      requires name in tmp
      ensures r.Progress? ==> Whole(name, tmp[name]) && HasMarker(tmp[name]) && r.warps == Marked(tmp[name])
      ensures r.NoResumeInfo? ==> Whole(name, tmp[name]) && !HasMarker(tmp[name])
      ensures !faults && Whole(name, tmp[name]) ==> !r.ReadFailed?
    {
      var fault: bool := *;
      var data := tmp[name];
      if (faults && fault) || name.warps == 0 || |data| != name.warps * WARP_CELLS {
        return ReadFailed;
      }
      if data[|data| - 1] == RESUME_MAGIC {
        return Progress(data[|data| - 2]);
      }
      return NoResumeInfo;
    }

    // Count and magic are written one after the other. The count is cut to 32 bits.
    method WriteResumeInfo(name: Name, warpsWritten: nat, faults: bool) returns (ok: bool)
      requires name in tmp && Sound()
      requires Whole(name, tmp[name]) && Levelled(name.compress) ==>
        forall w :: 0 <= w < name.warps && w < warpsWritten ==> FileWarp(name, tmp[name], w)
      modifies this
      ensures Sound() && plots == old(plots) && tmp - {name} == old(tmp) - {name} && name in tmp
      ensures ok ==>
        && Whole(name, old(tmp)[name])
        && tmp[name] == WithMarker(old(tmp)[name], warpsWritten % WORD_RANGE)
      ensures HasMarker(old(tmp)[name]) ==>
        HasMarker(tmp[name]) && Marked(tmp[name]) in {Marked(old(tmp)[name]), warpsWritten % WORD_RANGE}
      ensures !faults && Whole(name, old(tmp)[name]) ==> ok
    {
      var stage: nat := *;
      var data := tmp[name];
      if (faults && stage == 0) || name.warps == 0 || |data| != name.warps * WARP_CELLS {
        return false;
      }
      var progress := warpsWritten % WORD_RANGE;
      DivParts(warpsWritten, WORD_RANGE);
      MarkerIsSound(name, data, data[|data| - 2 := progress], warpsWritten);
      tmp := tmp[name := data[|data| - 2 := progress]];
      if faults && stage == 1 {
        return false;
      }
      MarkerIsSound(name, data, WithMarker(data, progress), warpsWritten);
      tmp := tmp[name := WithMarker(data, progress)];
      return true;
    }

    // Copies the rows of the buffer to the file. With faults, it may stop within any of them.
    method WriteScoops(name: Name, buffer: seq<Word>, startWarp: nat, warpsToWrite: nat, faults: bool,
                       ghost v: Write) returns (ok: bool)
      requires Sound() && name in tmp
      requires v == Write(tmp[name], buffer, name.warps, startWarp, warpsToWrite) && v.Fits()
      requires ProgressOf(tmp[name]) == startWarp
      requires Levelled(name.compress) ==> HoldsWarps(buffer, name, startWarp, warpsToWrite)
      modifies this
      ensures Sound() && plots == old(plots) && tmp - {name} == old(tmp) - {name} && name in tmp
      ensures ok ==> WrittenUpTo(v, tmp[name], NUM_SCOOPS, 0)
      ensures !faults ==> ok
      ensures startWarp + warpsToWrite < name.warps ==> SameMarker(old(tmp)[name], tmp[name])
    {
      hide SoundTmp, SoundPlot, WrittenUpTo, HoldsWarps, Overwritten, ScoopAt, Chunk;
      NothingWritten(v);
      for scoop := 0 to NUM_SCOOPS
        invariant Sound() && plots == old(plots) && tmp - {name} == old(tmp) - {name} && name in tmp
        invariant WrittenUpTo(v, tmp[name], scoop, 0)
        invariant startWarp + warpsToWrite < name.warps ==> SameMarker(old(tmp)[name], tmp[name])
      {
        var fault: bool := *;
        var cut: nat := *;
        var k := if faults && fault then Min(cut, warpsToWrite * 65536) else warpsToWrite * 65536;
        RowStep(v, tmp[name], scoop, k);
        var fileAddress := ScoopAt(scoop, name.warps, startWarp * NUM_SCOOPS);
        tmp := tmp[name := Overwritten(tmp[name], fileAddress, Chunk(buffer, scoop, warpsToWrite)[..k])];
        CutOffIsSound(v, tmp[name], scoop, k, name);
        CutOffMarker(v, tmp[name], scoop, k);
        if faults && fault {
          return false;
        }
        RowWritten(v, tmp[name], scoop);
      }
      return true;
    }

    // Writes the warps that come next, then the marker; the last warps also finish the plot.
    method WriteBuffer(name: Name, buffer: seq<Word>, startWarp: nat, warpsToWrite: nat, faults: bool)
      returns (r: WriteResult)
      requires Sound() && name in tmp
      requires |buffer| % WARP_CELLS == 0 && warpsToWrite <= |buffer| / WARP_CELLS
      requires Levelled(name.compress) ==> HoldsWarps(buffer, name, startWarp, warpsToWrite)
      modifies this
      ensures Sound() && tmp - {name} == old(tmp) - {name} && plots - {name} == old(plots) - {name}
      ensures r.ResumeGap? || r.WriteExceedsEof? ==> tmp == old(tmp) && plots == old(plots)
      ensures Whole(name, old(tmp)[name]) && (r != WriteFailed || !faults) ==>
        r == Verdict(name, ProgressOf(old(tmp)[name]), startWarp, warpsToWrite)
      ensures r == Written ==>
        var v := Write(old(tmp)[name], buffer, name.warps, startWarp, warpsToWrite);
        var marker := (startWarp + warpsToWrite) % WORD_RANGE;
        if startWarp + warpsToWrite == name.warps
        then name !in tmp && name in plots && Copied(v, plots[name], marker)
        else plots == old(plots) && name in tmp && Copied(v, tmp[name], marker)
      ensures r == WriteFailed && HasMarker(old(tmp)[name]) && startWarp + warpsToWrite < name.warps ==>
        && name in tmp && HasMarker(tmp[name])
        && Marked(tmp[name]) in {Marked(old(tmp)[name]), (startWarp + warpsToWrite) % WORD_RANGE}
    {
      hide SoundTmp, SoundPlot, WrittenUpTo, HoldsWarps, FileWarp;
      var info := ReadResumeInfo(name, faults);
      if info.ReadFailed? {
        return WriteFailed;
      }
      var progress := if info.Progress? then info.warps else 0;
      if startWarp != progress {
        return ResumeGap(progress, startWarp);
      }
      if startWarp + warpsToWrite > name.warps {
        return WriteExceedsEof;
      }
      ghost var v := Write(tmp[name], buffer, name.warps, startWarp, warpsToWrite);
      var ok := WriteScoops(name, buffer, startWarp, warpsToWrite, faults, v);
      if !ok {
        return WriteFailed;
      }
      ghost var now := tmp[name];
      if Levelled(name.compress) {
        AllWritten(v, now, name);
      }
      SameSize(v, now);
      ok := WriteResumeInfo(name, startWarp + warpsToWrite, faults);
      if !ok {
        return WriteFailed;
      }
      assert Copied(v, tmp[name], (startWarp + warpsToWrite) % WORD_RANGE);
      if startWarp + warpsToWrite == name.warps {
        if Levelled(name.compress) {
          AllAside(name, now, tmp[name]);
        }
        Complete(name, tmp[name]);
        ok := FinalizeFile(name, faults);
        if !ok {
          return WriteFailed;
        }
      }
      return Written;
    }

    // Renames the file, which makes it a plot.
    method FinalizeFile(name: Name, faults: bool) returns (ok: bool)
      requires Sound() && name in tmp && SoundPlot(name, tmp[name])
      modifies this
      ensures !faults ==> ok
      ensures Sound()
      ensures if ok then tmp == old(tmp) - {name} && plots == old(plots)[name := old(tmp)[name]]
              else tmp == old(tmp) && plots == old(plots)
    {
      hide SoundTmp, SoundPlot;
      var fault: bool := *;
      if faults && fault {
        return false;
      }
      var data := tmp[name];
      tmp, plots := tmp - {name}, plots[name := data];
      return true;
    }

    method ServeTask(payload: Payload, compress: nat, t: WriterTask, faults: bool) returns (ok: bool)
      requires Sound() && !t.EndTask? && GoodBuffer(t, payload, compress)
      requires t.Finalize? ==> MarkedFull(NameOf(t, payload, compress), tmp)
      modifies this
      ensures Sound()
      ensures !faults && (t.ProcessTask? ==> CanFollow(t, NameOf(t, payload, compress), old(tmp))) ==>
        ok && Carried(t, NameOf(t, payload, compress), old(tmp), tmp, old(plots), plots)
      ensures plots - {NameOf(t, payload, compress)} == old(plots) - {NameOf(t, payload, compress)}
    {
      hide SoundTmp, SoundPlot, HoldsWarps, Copied;
      var name := NameOf(t, payload, compress);
      if t.Finalize? {
        FullIsSound(name, tmp);
        var found := Open(name, false, faults);
        if found == Opened {
          var renamed := FinalizeFile(name, faults);
        }
        return true;
      }
      ghost var before := tmp;
      var found := Open(name, t.warpOffset == 0, faults);
      if found != Opened {
        return false;
      }
      ghost var between := tmp;
      var r := WriteBuffer(name, t.buffer, t.warpOffset, t.warpsToWrite, faults);
      if r == Written {
        ghost var v := Write(between[name], t.buffer, name.warps, t.warpOffset, t.warpsToWrite);
        var end := t.warpOffset + t.warpsToWrite;
        CopiedSize(v, if end == name.warps then plots[name] else tmp[name], end % WORD_RANGE);
      }
      return r == Written;
    }

    // The writer thread takes one task after the other; an error ends it. Without faults, tasks in
    // order are all carried out.
    method Serve(payload: Payload, compress: nat, tasks: seq<WriterTask>, faults: bool, ghost c: Course)
      returns (served: Served)
      requires Sound() && GoodTasks(tasks, payload, compress, tmp)
      modifies this
      ensures Sound()
      ensures !faults && InOrder(tasks, c) && Fresh(tasks, payload, compress, old(tmp), c) ==>
        served == Ended && AllFinished(tasks, payload, compress, plots)
      ensures OnlyLevel(old(plots), plots, compress)
    {
      hide SoundTmp, SoundPlot, HoldsWarps, Carried, Standing, Fresh, InOrder, AllFinished, CanFollow, OnlyLevel;
      ghost var tmp0 := tmp;
      ghost var orderly := !faults && InOrder(tasks, c) && Fresh(tasks, payload, compress, tmp, c);
      StartStanding(tasks, payload, compress, tmp, plots, c);
      SameLevel(plots, compress);
      for i := 0 to |tasks|
        invariant Sound()
        invariant i == 0 ==> tmp == tmp0
        invariant OnlyLevel(old(plots), plots, compress)
        invariant orderly ==> Standing(tasks[..i], payload, compress, tmp0, tmp, c)
        invariant orderly ==> AllFinished(tasks[..i], payload, compress, plots)
      {
        var killed: bool := *;
        if faults && killed {
          return Killed;
        }
        if tasks[i].EndTask? {
          if orderly {
            EndIsLast(tasks, i, payload, compress, tmp0, plots, c);
          }
          return Ended;
        }
        ghost var before, done := tmp, plots;
        if orderly && tasks[i].ProcessTask? {
          Follows(tasks, i, payload, compress, tmp0, tmp, c);
        }
        var ok := ServeTask(payload, compress, tasks[i], faults);
        LevelStep(old(plots), done, plots, NameOf(tasks[i], payload, compress));
        if !ok {
          return Failed;
        }
        if orderly {
          StandingStep(tasks, i, payload, compress, tmp0, before, tmp, done, plots, c);
          FinishedStep(tasks, i, payload, compress, before, tmp, done, plots);
        }
      }
      assert tasks[..|tasks|] == tasks;
      return Ended;
    }
  }

  // Where a file is resumed: at its marker, or from the start.
  function ProgressOf(data: seq<Word>): nat {
    if HasMarker(data) then Marked(data) else 0
  }

  // ----- tasks -----

  function NameOf(t: WriterTask, payload: Payload, compress: nat): Name {
    match t
    case ProcessTask(_, seed, _, _, warps) => Name(payload, seed, warps, compress)
    case Finalize(seed, warps) => Name(payload, seed, warps, compress)
    case EndTask => Name(payload, seq(32, _ => 0), 0, compress)
  }

  // Buffers hold the warps that the tasks say, and only a file whose marker counts all warps is
  // finished without a write.
  ghost predicate GoodTasks(tasks: seq<WriterTask>, payload: Payload, compress: nat, tmp: map<Name, seq<Word>>) {
    forall i :: 0 <= i < |tasks| ==>
      && GoodBuffer(tasks[i], payload, compress)
      && (tasks[i].Finalize? ==> i == 0 && MarkedFull(NameOf(tasks[i], payload, compress), tmp))
  }

  ghost predicate GoodBuffer(t: WriterTask, payload: Payload, compress: nat) {
    t.ProcessTask? ==>
      && |t.buffer| % WARP_CELLS == 0 && t.warpsToWrite <= |t.buffer| / WARP_CELLS
      && (Levelled(compress) ==> HoldsWarps(t.buffer, NameOf(t, payload, compress), t.warpOffset, t.warpsToWrite))
  }

  predicate MarkedFull(name: Name, tmp: map<Name, seq<Word>>) {
    name in tmp && Whole(name, tmp[name]) && HasMarker(tmp[name]) && name.warps <= Marked(tmp[name])
  }

  predicate Finishes(t: WriterTask) {
    t.Finalize? || (t.ProcessTask? && t.warpOffset + t.warpsToWrite == t.numberOfWarps)
  }

  // The files of one output path: of so many warps each, the first one resumed at a warp.
  datatype Course = Course(warps: nat, seed: Seed, resume: nat)

  // The warp that comes after these tasks.
  function After(tasks: seq<WriterTask>, c: Course): nat {
    if |tasks| == 0 then c.resume
    else
      match tasks[|tasks| - 1]
      case ProcessTask(_, _, warpOffset, n, _) => if warpOffset + n == c.warps then 0 else warpOffset + n
      case Finalize(_, _) => 0
      case EndTask => After(tasks[..|tasks| - 1], c)
  }

  // The seed of the file that the tasks have come to.
  function Current(tasks: seq<WriterTask>, c: Course): Seed {
    if |tasks| == 0 then c.seed
    else
      match tasks[|tasks| - 1]
      case ProcessTask(_, seed, _, _, _) => seed
      case Finalize(seed, _) => seed
      case EndTask => Current(tasks[..|tasks| - 1], c)
  }

  // File after file, every one from its start, or from where it is resumed, without gaps.
  ghost predicate InOrder(tasks: seq<WriterTask>, c: Course) {
    forall i :: 0 <= i < |tasks| ==> NextInOrder(tasks[..i], tasks[i], c)
  }

  ghost predicate NextInOrder(before: seq<WriterTask>, t: WriterTask, c: Course) {
    t.ProcessTask? ==>
      && t.numberOfWarps == c.warps && t.warpOffset == After(before, c)
      && 0 < t.warpsToWrite && t.warpOffset + t.warpsToWrite <= c.warps
      && (t.warpOffset > 0 ==> t.seed == Current(before, c))
  }

  // The file that is resumed stands where it is resumed, and none is in the way of a new one.
  ghost predicate Fresh(tasks: seq<WriterTask>, payload: Payload, compress: nat, tmp: map<Name, seq<Word>>, c: Course) {
    && c.warps < WORD_RANGE
    && (c.resume > 0 ==> StandsAt(tmp, Name(payload, c.seed, c.warps, compress), c.resume))
    && (forall i :: 0 <= i < |tasks| && tasks[i].EndTask? ==> i == |tasks| - 1)
    && forall i :: 0 <= i < |tasks| && tasks[i].ProcessTask? && tasks[i].warpOffset == 0 ==>
         NotInTheWay(tmp, NameOf(tasks[i], payload, compress))
  }

  predicate NotInTheWay(tmp: map<Name, seq<Word>>, name: Name) {
    name in tmp ==> StandsAt(tmp, name, 0)
  }

  predicate StandsAt(tmp: map<Name, seq<Word>>, name: Name, progress: nat) {
    name in tmp && Whole(name, tmp[name]) && ProgressOf(tmp[name]) == progress
  }

  ghost predicate AllFinished(tasks: seq<WriterTask>, payload: Payload, compress: nat, plots: map<Name, seq<Word>>) {
    forall i :: 0 <= i < |tasks| && Finishes(tasks[i]) ==> NameOf(tasks[i], payload, compress) in plots
  }

  // After these tasks: the file that is being written has come so far, and no other has changed.
  ghost predicate Standing(tasks: seq<WriterTask>, payload: Payload, compress: nat, tmp0: map<Name, seq<Word>>,
                           tmp: map<Name, seq<Word>>, c: Course) {
    var current, offset := Name(payload, Current(tasks, c), c.warps, compress), After(tasks, c);
    && (forall name :: name in tmp && (offset > 0 ==> name != current) ==> name in tmp0 && tmp[name] == tmp0[name])
    && (offset > 0 ==> StandsAt(tmp, current, offset))
  }

  lemma StartStanding(tasks: seq<WriterTask>, payload: Payload, compress: nat, tmp: map<Name, seq<Word>>,
                      plots: map<Name, seq<Word>>, c: Course)
    ensures Fresh(tasks, payload, compress, tmp, c) ==> Standing([], payload, compress, tmp, tmp, c)
    ensures AllFinished(tasks[..0], payload, compress, plots) && tasks[..0] == []
  {
  }

  // New plots are of this level.
  ghost predicate OnlyLevel(was: map<Name, seq<Word>>, now: map<Name, seq<Word>>, compress: nat) {
    forall name :: name in now ==> name in was || name.compress == compress
  }

  lemma SameLevel(plots: map<Name, seq<Word>>, compress: nat)
    ensures OnlyLevel(plots, plots, compress)
  {
  }

  lemma LevelStep(was: map<Name, seq<Word>>, before: map<Name, seq<Word>>, now: map<Name, seq<Word>>, name: Name)
    requires OnlyLevel(was, before, name.compress) && now - {name} == before - {name}
    ensures OnlyLevel(was, now, name.compress)
  {
    OnlyThisOne(name, now, before);
  }

  // The write of this task is the one that the file waits for.
  predicate CanFollow(t: WriterTask, name: Name, tmp: map<Name, seq<Word>>)
    requires t.ProcessTask?
  {
    && (if name in tmp then StandsAt(tmp, name, t.warpOffset) else t.warpOffset == 0 && 0 < name.warps)
    && t.warpOffset + t.warpsToWrite <= name.warps
  }

  // The task is carried out: the file is finished, or stands where the task has brought it.
  predicate Carried(t: WriterTask, name: Name, tmp: map<Name, seq<Word>>, now: map<Name, seq<Word>>,
                    plots: map<Name, seq<Word>>, done: map<Name, seq<Word>>) {
    && now - {name} == tmp - {name} && done - {name} == plots - {name}
    && if Finishes(t) then name !in now && name in done
       else t.ProcessTask? ==> done == plots && StandsAt(now, name, (t.warpOffset + t.warpsToWrite) % WORD_RANGE)
  }

  lemma CopiedSize(v: Write, file: seq<Word>, marker: Word)
    requires Copied(v, file, marker)
    ensures |file| == |v.was| && HasMarker(file) && Marked(file) == marker
  {
  }

  lemma EndIsLast(tasks: seq<WriterTask>, i: nat, payload: Payload, compress: nat, tmp0: map<Name, seq<Word>>,
                  plots: map<Name, seq<Word>>, c: Course)
    requires i < |tasks| && tasks[i].EndTask? && Fresh(tasks, payload, compress, tmp0, c)
    requires AllFinished(tasks[..i], payload, compress, plots)
    ensures AllFinished(tasks, payload, compress, plots)
  {
    assert forall j :: 0 <= j < i ==> tasks[..i][j] == tasks[j];
  }

  lemma Follows(tasks: seq<WriterTask>, i: nat, payload: Payload, compress: nat, tmp0: map<Name, seq<Word>>,
                tmp: map<Name, seq<Word>>, c: Course)
    requires i < |tasks| && tasks[i].ProcessTask? && InOrder(tasks, c) && Fresh(tasks, payload, compress, tmp0, c)
    requires Standing(tasks[..i], payload, compress, tmp0, tmp, c)
    ensures CanFollow(tasks[i], NameOf(tasks[i], payload, compress), tmp)
  {
    assert NextInOrder(tasks[..i], tasks[i], c);
    if tasks[i].warpOffset == 0 {
      assert NotInTheWay(tmp0, NameOf(tasks[i], payload, compress));
    }
  }

  lemma StandingStep(tasks: seq<WriterTask>, i: nat, payload: Payload, compress: nat, tmp0: map<Name, seq<Word>>,
                     tmp: map<Name, seq<Word>>, now: map<Name, seq<Word>>, plots: map<Name, seq<Word>>,
                     done: map<Name, seq<Word>>, c: Course)
    requires i < |tasks| && !tasks[i].EndTask? && InOrder(tasks, c) && Fresh(tasks, payload, compress, tmp0, c)
    requires Standing(tasks[..i], payload, compress, tmp0, tmp, c)
    requires Carried(tasks[i], NameOf(tasks[i], payload, compress), tmp, now, plots, done)
    requires tasks[i].Finalize? ==> tmp == tmp0
    ensures Standing(tasks[..i + 1], payload, compress, tmp0, now, c)
  {
    hide StandsAt, NotInTheWay;
    assert NextInOrder(tasks[..i], tasks[i], c);
    assert tasks[..i + 1][..i] == tasks[..i];
    OnlyThisOne(NameOf(tasks[i], payload, compress), now, tmp);
  }

  lemma FinishedStep(tasks: seq<WriterTask>, i: nat, payload: Payload, compress: nat, tmp: map<Name, seq<Word>>,
                     now: map<Name, seq<Word>>, plots: map<Name, seq<Word>>, done: map<Name, seq<Word>>)
    requires i < |tasks| && !tasks[i].EndTask? && AllFinished(tasks[..i], payload, compress, plots)
    requires Carried(tasks[i], NameOf(tasks[i], payload, compress), tmp, now, plots, done)
    ensures AllFinished(tasks[..i + 1], payload, compress, done)
  {
    hide StandsAt;
    OnlyThisOne(NameOf(tasks[i], payload, compress), plots, done);
    var more := tasks[..i + 1];
    forall j | 0 <= j < |more| && Finishes(more[j])
      ensures NameOf(more[j], payload, compress) in done
    {
      assert j < i ==> tasks[..i][j] == more[j];
    }
  }

  lemma OnlyThisOne(name: Name, x: map<Name, seq<Word>>, y: map<Name, seq<Word>>)
    requires x - {name} == y - {name}
    ensures forall other :: other in x && other != name ==> other in y && x[other] == y[other]
  {
    forall other | other in x && other != name
      ensures other in y && x[other] == y[other]
    {
      assert other in x - {name} && (x - {name})[other] == x[other];
      assert other in y - {name} && (y - {name})[other] == y[other];
    }
  }

  lemma FullIsSound(name: Name, tmp: map<Name, seq<Word>>)
    requires MarkedFull(name, tmp) && SoundTmp(name, tmp[name])
    ensures SoundPlot(name, tmp[name])
  {
  }

  predicate SameMarker(was: seq<Word>, now: seq<Word>) {
    |now| == |was| >= 2 && now[|now| - 2] == was[|was| - 2] && now[|now| - 1] == was[|was| - 1]
  }

  // What becomes of a write that no fault cuts off.
  function Verdict(name: Name, progress: nat, startWarp: nat, warpsToWrite: nat): WriteResult {
    if startWarp != progress then ResumeGap(progress, startWarp)
    else if startWarp + warpsToWrite > name.warps then WriteExceedsEof
    else Written
  }

  // A write is refused for starting elsewhere than the file stands, then for passing its end.
  lemma VerdictExactly(name: Name, progress: nat, startWarp: nat, warpsToWrite: nat)
    ensures var r := Verdict(name, progress, startWarp, warpsToWrite);
            && (r == Written <==> startWarp == progress && progress + warpsToWrite <= name.warps)
            && (r == WriteExceedsEof <==> startWarp == progress && progress + warpsToWrite > name.warps)
            && (r.ResumeGap? <==> startWarp != progress)
            && (r.ResumeGap? ==> r.expected == progress && r.actual == startWarp)
  {
  }

  // The file as a write leaves it: the rows copied, then the marker.
  ghost predicate Copied(v: Write, file: seq<Word>, marker: Word) {
    v.Fits() && exists now :: WrittenUpTo(v, now, NUM_SCOOPS, 0) && |now| >= 2 && file == WithMarker(now, marker)
  }

  lemma SameSize(v: Write, now: seq<Word>)
    requires v.Fits() && WrittenUpTo(v, now, NUM_SCOOPS, 0)
    ensures |now| == |v.was|
  {
  }

  lemma AllAside(name: Name, data: seq<Word>, now: seq<Word>)
    requires Whole(name, data) && |now| == |data|
    requires forall w :: 0 <= w < name.warps ==> FileWarp(name, data, w)
    requires forall x :: 0 <= x < |data| - 2 ==> now[x] == data[x]
    ensures forall w :: 0 <= w < name.warps ==> FileWarp(name, now, w)
  {
    hide FileWarp;
    forall w | 0 <= w < name.warps
      ensures FileWarp(name, now, w)
    {
      MarkerAside(name, data, now, w);
    }
  }

  lemma Complete(name: Name, data: seq<Word>)
    requires Whole(name, data) && HasMarker(data)
    requires Levelled(name.compress) ==> forall w :: 0 <= w < name.warps ==> FileWarp(name, data, w)
    ensures SoundPlot(name, data)
  {
  }

  lemma MarkerIsSound(name: Name, data: seq<Word>, now: seq<Word>, n: nat)
    requires Whole(name, data) && |now| == |data| && Marked(now) <= n
    requires Levelled(name.compress) ==> forall w :: 0 <= w < name.warps && w < n ==> FileWarp(name, data, w)
    requires forall x :: 0 <= x < |data| - 2 ==> now[x] == data[x]
    ensures SoundTmp(name, now)
  {
    hide FileWarp;
    if Levelled(name.compress) && HasMarker(now) {
      forall w | 0 <= w < name.warps && w < Marked(now)
        ensures FileWarp(name, now, w)
      {
        MarkerAside(name, data, now, w);
      }
    }
  }
}
