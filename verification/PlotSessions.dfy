// Sessions of the plotter on its output directories: each reads where the files stand, schedules,
// and writes. It may be stopped, suffer errors, or be killed, at any point of either.
module PlotSessions {
  import opened Wrappers
  import opened Words
  import opened ProofQuality
  import opened Cpu
  import opened PlotWriter
  import opened Directory
  import opened PlotScheduler

  predicate DistinctDirs(dirs: seq<Directory>) {
    forall i, j :: 0 <= i < j < |dirs| ==> dirs[i] != dirs[j]
  }

  ghost predicate AllSound(dirs: seq<Directory>)
    reads dirs
  {
    forall d :: d in dirs ==> d.Sound()
  }

  function GivenName(task: PlotterTask, p: nat): Option<Name>
    requires p < |task.seeds| && p < |task.warps|
  {
    if task.seeds[p].Some? then Some(Name(task.payload, task.seeds[p].value, task.warps[p], task.compress)) else None
  }

  // A path is resumed where the marker of its file says, and only if its seed is given.
  predicate ResumedAt(tmp: map<Name, seq<Word>>, name: Option<Name>, resume: nat) {
    resume > 0 ==>
      && name.Some? && name.value in tmp && Whole(name.value, tmp[name.value])
      && HasMarker(tmp[name.value]) && Marked(tmp[name.value]) == resume
  }

  // Without errors it is resumed there if there is such a file.
  predicate ResumedExactly(tmp: map<Name, seq<Word>>, name: Option<Name>, resume: nat) {
    resume == if name.Some? && name.value in tmp && Whole(name.value, tmp[name.value]) then ProgressOf(tmp[name.value])
              else 0
  }

  method ReadResume(dir: Directory, name: Name, faults: bool) returns (resume: nat)
    requires dir.Sound()
    modifies dir
    ensures dir.Sound() && dir.tmp == old(dir.tmp) && dir.plots == old(dir.plots)
    ensures ResumedAt(dir.tmp, Some(name), resume)
    ensures !faults ==> ResumedExactly(dir.tmp, Some(name), resume)
  {
    hide Directory.Sound;
    resume := 0;
    var found := dir.Open(name, false, faults);
    if found == Opened {
      var info := dir.ReadResumeInfo(name, faults);
      if info.Progress? {
        resume := info.warps;
      }
    }
  }

  method ReadResumes(dirs: seq<Directory>, task: PlotterTask, faults: bool) returns (resumes: seq<nat>)
    requires |dirs| == |task.warps| == |task.seeds| && AllSound(dirs)
    modifies dirs
    ensures AllSound(dirs) && |resumes| == |dirs|
    ensures forall d :: d in dirs ==> d.tmp == old(d.tmp) && d.plots == old(d.plots)
    ensures forall p :: 0 <= p < |dirs| ==> ResumedAt(dirs[p].tmp, GivenName(task, p), resumes[p])
    ensures !faults ==> forall p :: 0 <= p < |dirs| ==> ResumedExactly(dirs[p].tmp, GivenName(task, p), resumes[p])
  {
    hide Directory.Sound, ResumedAt, ResumedExactly;
    resumes := [];
    for i := 0 to |dirs|
      invariant AllSound(dirs) && |resumes| == i
      invariant forall d :: d in dirs ==> d.tmp == old(d.tmp) && d.plots == old(d.plots)
      invariant forall p :: 0 <= p < i ==> ResumedAt(dirs[p].tmp, GivenName(task, p), resumes[p])
      invariant !faults ==> forall p :: 0 <= p < i ==> ResumedExactly(dirs[p].tmp, GivenName(task, p), resumes[p])
    {
      var resume := 0;
      NotResumed(dirs[i].tmp, None);
      if task.seeds[i].Some? {
        resume := ReadResume(dirs[i], GivenName(task, i).value, faults);
      }
      resumes := resumes + [resume];
    }
  }

  lemma NotResumed(tmp: map<Name, seq<Word>>, name: Option<Name>)
    ensures ResumedAt(tmp, name, 0) && (name == None ==> ResumedExactly(tmp, name, 0))
  {
  }

  // A queue of the scheduler is one that a writer can serve.
  lemma QueueServes(q: seq<WriterTask>, task: PlotterTask, p: nat, first: Seed, resume: nat, tmp: map<Name, seq<Word>>)
    requires p < |task.warps| == |task.seeds| && EndedQueue(q, task, p, first, resume)
    requires ResumedAt(tmp, GivenName(task, p), resume)
    requires task.seeds[p].Some? ==> first == task.seeds[p].value
    ensures GoodTasks(q, task.payload, task.compress, tmp)
    ensures Unhindered(q, task, p, tmp) ==>
      var c := CourseOf(task, p, first, resume); InOrder(q, c) && Fresh(q, task.payload, task.compress, tmp, c)
  {
    hide GoodBuffer, InOrder, NotInTheWay;
    var n := |q| - 1;
    assert forall i :: 0 <= i < n ==> q[..n][i] == q[i];
    EndIsGood(q[n], task.payload, task.compress);
    if task.warps[p] > 0 {
      EndInOrder(q, CourseOf(task, p, first, resume));
    }
  }

  lemma EndInOrder(q: seq<WriterTask>, c: Course)
    requires |q| > 0 && q[|q| - 1].EndTask? && InOrder(q[..|q| - 1], c)
    ensures InOrder(q, c)
  {
    var r := q[..|q| - 1];
    forall i | 0 <= i < |q|
      ensures NextInOrder(q[..i], q[i], c)
    {
      if i < |r| {
        assert NextInOrder(r[..i], r[i], c);
        assert r[..i] == q[..i];
      }
    }
  }

  lemma EndIsGood(t: WriterTask, payload: Payload, compress: nat)
    requires t.EndTask?
    ensures GoodBuffer(t, payload, compress)
  {
  }

  // No file in progress has the name of a new one, and the count of warps fits the marker.
  ghost predicate Unhindered(q: seq<WriterTask>, task: PlotterTask, p: nat, tmp: map<Name, seq<Word>>) {
    && p < |task.warps| && 0 < task.warps[p] < WORD_RANGE
    && forall i :: 0 <= i < |q| && q[i].ProcessTask? && q[i].warpOffset == 0 ==>
         NotInTheWay(tmp, NameOf(q[i], task.payload, task.compress))
  }

  // The names of the files that these tasks finish.
  function NamesIn(q: seq<WriterTask>, payload: Payload, compress: nat): set<Name> {
    if |q| == 0 then {}
    else
      NamesIn(q[..|q| - 1], payload, compress)
        + if Finishes(q[|q| - 1]) then {NameOf(q[|q| - 1], payload, compress)} else {}
  }

  // No two files are finished under one name: no seed is drawn twice.
  ghost predicate DistinctFiles(q: seq<WriterTask>, payload: Payload, compress: nat) {
    forall i, j :: 0 <= i < j < |q| && Finishes(q[i]) && Finishes(q[j]) ==>
      NameOf(q[i], payload, compress) != NameOf(q[j], payload, compress)
  }

  lemma {:induction false} NamesAre(q: seq<WriterTask>, payload: Payload, compress: nat, name: Name)
    ensures name in NamesIn(q, payload, compress) <==>
      exists i :: 0 <= i < |q| && Finishes(q[i]) && NameOf(q[i], payload, compress) == name
  {
    hide Finishes, NameOf;
    if |q| > 0 {
      var r := q[..|q| - 1];
      NamesAre(r, payload, compress, name);
      if i :| 0 <= i < |r| && Finishes(r[i]) && NameOf(r[i], payload, compress) == name {
        assert q[i] == r[i];
      }
    }
  }

  // There are as many names as files exactly if the names are distinct.
  lemma {:induction false} NamesCount(q: seq<WriterTask>, payload: Payload, compress: nat)
    ensures |NamesIn(q, payload, compress)| <= FilesIn(q)
    ensures |NamesIn(q, payload, compress)| == FilesIn(q) <==> DistinctFiles(q, payload, compress)
  {
    if |q| > 0 {
      var n := |q| - 1;
      NamesCount(q[..n], payload, compress);
      LastName(q, payload, compress);
    }
  }

  lemma LastName(q: seq<WriterTask>, payload: Payload, compress: nat)
    requires |q| > 0
    ensures var r, t := q[..|q| - 1], q[|q| - 1];
      DistinctFiles(q, payload, compress) <==>
        (DistinctFiles(r, payload, compress)
         && (Finishes(t) ==> NameOf(t, payload, compress) !in NamesIn(r, payload, compress)))
  {
    hide Finishes, NameOf, NamesIn;
    var r, t := q[..|q| - 1], q[|q| - 1];
    NamesAre(r, payload, compress, NameOf(t, payload, compress));
    assert forall i :: 0 <= i < |r| ==> r[i] == q[i];
  }

  // All that the tasks finish is there, and that is as many plots as files if no name comes twice.
  ghost predicate Delivered(q: seq<WriterTask>, payload: Payload, compress: nat, plots: map<Name, seq<Word>>) {
    && NamesIn(q, payload, compress) <= plots.Keys
    && (|NamesIn(q, payload, compress)| == FilesIn(q) <==> DistinctFiles(q, payload, compress))
  }

  lemma FinishedDelivers(q: seq<WriterTask>, payload: Payload, compress: nat, plots: map<Name, seq<Word>>)
    requires AllFinished(q, payload, compress, plots)
    ensures Delivered(q, payload, compress, plots)
  {
    NamesCount(q, payload, compress);
    forall name | name in NamesIn(q, payload, compress)
      ensures name in plots
    {
      NamesAre(q, payload, compress, name);
    }
  }

  // A session. However it ends, no file counts more than it holds, and every plot is whole. Without faults it runs
  // to its end in as many rounds as there are passes to do, and then every path has exactly the files asked
  // for; a path gets a plot of every file that it is sent.
  method Session(cpu: Features, dirs: seq<Directory>, task: PlotterTask, rounds: nat, faults: bool)
    returns (finished: bool, ghost queues: seq<seq<WriterTask>>, ghost resumes: seq<nat>)
    requires DistinctDirs(dirs) && AllSound(dirs) && 0 < task.escalate && task.compress < 256
    requires 0 < |dirs| == |task.warps| == |task.numberOfPlots| == |task.seeds|
    modifies dirs
    ensures AllSound(dirs) && |queues| == |resumes| == |dirs|
    ensures !faults ==> forall p :: 0 <= p < |dirs| ==> ResumedExactly(old(dirs[p].tmp), GivenName(task, p), resumes[p])
    ensures !faults ==> (finished <==> NoEmptyFiles(task) && TotalWork(task, resumes) <= rounds)
    ensures finished ==> forall p :: 0 <= p < |dirs| ==> FilesIn(queues[p]) == FilesAsked(task, resumes, p)
    ensures !faults ==> forall p :: 0 <= p < |dirs| && Unhindered(queues[p], task, p, old(dirs[p].tmp)) ==>
      Delivered(queues[p], task.payload, task.compress, dirs[p].plots)
    ensures forall d :: d in dirs ==> OnlyLevel(old(d.plots), d.plots, task.compress)
  {
    hide OnlyLevel, Directory.Sound, EndedQueue, ResumedAt, ResumedExactly, FilesIn, Unhindered, AllFinished,
        Delivered, GoodTasks,
        InOrder, Fresh, TotalWork, NoEmptyFiles;
    var progress := ReadResumes(dirs, task, faults);
    resumes := progress;
    OnlyGivenResume(dirs, task, progress);
    ghost var first;
    var sent;
    sent, finished, first := RunThread(cpu, task, progress, rounds, faults);
    queues := sent;
    for p := 0 to |dirs|
      invariant AllSound(dirs)
      invariant forall k :: p <= k < |dirs| ==> dirs[k].tmp == old(dirs[k].tmp) && dirs[k].plots == old(dirs[k].plots)
      invariant forall k :: 0 <= k < p ==> OnlyLevel(old(dirs[k].plots), dirs[k].plots, task.compress)
      invariant !faults ==> forall k :: 0 <= k < p && Unhindered(queues[k], task, k, old(dirs[k].tmp)) ==>
        Delivered(queues[k], task.payload, task.compress, dirs[k].plots)
    {
      QueueServes(sent[p], task, p, first[p], progress[p], dirs[p].tmp);
      var served := dirs[p].Serve(task.payload, task.compress, sent[p], faults,
          CourseOf(task, p, first[p], progress[p]));
      if AllFinished(sent[p], task.payload, task.compress, dirs[p].plots) {
        FinishedDelivers(sent[p], task.payload, task.compress, dirs[p].plots);
      }
    }
  }

  lemma OnlyGivenResume(dirs: seq<Directory>, task: PlotterTask, resumes: seq<nat>)
    requires 0 < |dirs| == |task.warps| == |task.numberOfPlots| == |task.seeds| == |resumes|
    requires 0 < task.escalate && task.compress < 256
    requires forall p :: 0 <= p < |dirs| ==> ResumedAt(dirs[p].tmp, GivenName(task, p), resumes[p])
    ensures ValidTask(task, resumes)
  {
    forall p | 0 <= p < |resumes| && task.seeds[p].None?
      ensures resumes[p] == 0
    {
      assert ResumedAt(dirs[p].tmp, GivenName(task, p), resumes[p]);
    }
  }
}
