// What becomes of the progress that a paused scan saves: it stays with its chain until the chain
// has scanned on from it, gets a newer block, or is queued already when it comes back, and no other
// progress ever appears.
module SavedProgress {
  import opened Wrappers
  import opened Scheduler

  // The progress is on its way back with its block, queued with its chain, or scanned on from.
  ghost predicate Kept(s: State, c: nat, resume: ResumeInfo) {
    OnItsWay(s.messages, c, resume) || Saved(s, c, resume) || ScannedOn(s.rounds, c, resume)
  }

  ghost predicate OnItsWay(messages: seq<Message>, c: nat, resume: ResumeInfo) {
    exists m :: m in messages && Carries(m, c, resume)
  }

  ghost predicate Carries(m: Message, c: nat, resume: ResumeInfo) {
    m.RescheduleBlock? && m.chain == c && m.resume == resume
  }

  ghost predicate Saved(s: State, c: nat, resume: ResumeInfo) {
    c < |s.resumes| && s.resumes[c] == Some(resume)
  }

  ghost predicate ScannedOn(rounds: seq<Round>, c: nat, resume: ResumeInfo) {
    exists i :: 0 <= i < |rounds| && rounds[i].chain == c && rounds[i].resume == Some(resume)
  }

  // The end of a round that pauses its chain with this progress.
  ghost predicate Pauses(s: State, step: Step, c: nat, resume: ResumeInfo) {
    && step == EndRound(true, resume) && s.miner.interrupt && s.miner.pause
    && |s.rounds| > 0 && s.rounds[0].chain == c
  }

  // The steps that drop progress: the end of the round that scanned on from it, a new block of
  // the chain it is queued with, and its own return while the chain is queued already.
  ghost predicate Drops(s: State, step: Step, c: nat, resume: ResumeInfo) {
    || (step.EndRound? && ScannedOn(s.rounds, c, resume))
    || (step.Receive? && |s.messages| > 0
          && s.messages[0].ScheduleNewBlock? && s.messages[0].chain == c && Saved(s, c, resume))
    || (step.Receive? && |s.messages| > 0 && Carries(s.messages[0], c, resume) && c in s.queued)
  }

  // A pausing end saves the progress.
  lemma PauseSaves(s: State, step: Step, c: nat, resume: ResumeInfo)
    requires Sound(s) && Enabled(s, step) && Pauses(s, step, c, resume)
    ensures Kept(Apply(s, step), c, resume)
  {
    var m := RescheduleBlock(c, s.rounds[0].info, resume);
    assert Apply(s, step).messages[|s.messages|] == m;
    assert Carries(m, c, resume);
  }

  // No other step makes progress up.
  lemma NothingInvented(s: State, step: Step, c: nat, resume: ResumeInfo)
    requires Sound(s) && Enabled(s, step) && Kept(Apply(s, step), c, resume)
    ensures Kept(s, c, resume) || Pauses(s, step, c, resume)
  {
    hide Top, Prio, FollowedUp, Preempts, NoStall, GoodCause;
    var t := Apply(s, step);
    if OnItsWay(t.messages, c, resume) {
      var m :| m in t.messages && Carries(m, c, resume);
      assert m in s.messages || Pauses(s, step, c, resume);
    } else if step.Receive? && |s.messages| > 0 {
      assert s.messages[0] in s.messages;
    }
  }

  // And whatever is not dropped stays.
  lemma NothingDropped(s: State, step: Step, c: nat, resume: ResumeInfo)
    requires Sound(s) && Enabled(s, step) && Kept(s, c, resume) && !Drops(s, step, c, resume)
    ensures Kept(Apply(s, step), c, resume)
  {
    hide Top, Prio, FollowedUp, Preempts, NoStall, GoodCause;
    var t := Apply(s, step);
    if ScannedOn(s.rounds, c, resume) {
      var i :| 0 <= i < |s.rounds| && s.rounds[i].chain == c && s.rounds[i].resume == Some(resume);
      assert t.rounds[i] == s.rounds[i];
    } else if OnItsWay(s.messages, c, resume) {
      var m :| m in s.messages && Carries(m, c, resume);
      assert m in t.messages || Saved(t, c, resume);
    } else if step.Receive? && t.rounds != s.rounds && c !in t.queued {
      assert t.rounds[|s.rounds|] == Round(t.miner.chain, s.infos[t.miner.chain], s.resumes[t.miner.chain]);
    } else {
      assert Saved(t, c, resume);
    }
  }

  // ----- over a run -----

  ghost predicate PausesIn(s: State, steps: seq<Step>, c: nat, resume: ResumeInfo)
    requires Sound(s) && Legal(s, steps)
    decreases |steps|
  {
    |steps| > 0 && (
      || Pauses(s, steps[0], c, resume)
      || (StepKeepsSound(s, steps[0]); PausesIn(Apply(s, steps[0]), steps[1..], c, resume)))
  }

  ghost predicate DropsIn(s: State, steps: seq<Step>, c: nat, resume: ResumeInfo)
    requires Sound(s) && Legal(s, steps)
    decreases |steps|
  {
    |steps| > 0 && (
      || Drops(s, steps[0], c, resume)
      || (StepKeepsSound(s, steps[0]); DropsIn(Apply(s, steps[0]), steps[1..], c, resume)))
  }

  // From any state on, the progress of a chain is either dropped by one of those three steps or
  // still there at the end.
  lemma {:induction false} KeptUntilDropped(s: State, steps: seq<Step>, c: nat, resume: ResumeInfo)
    requires Sound(s) && Legal(s, steps) && Kept(s, c, resume)
    ensures Kept(Final(s, steps), c, resume) || DropsIn(s, steps, c, resume)
    decreases |steps|
  {
    hide Sound, Apply, Kept, Drops, Enabled;
    if |steps| > 0 && !Drops(s, steps[0], c, resume) {
      StepKeepsSound(s, steps[0]);
      NothingDropped(s, steps[0], c, resume);
      KeptUntilDropped(Apply(s, steps[0]), steps[1..], c, resume);
    }
  }

  lemma {:induction false} SavedOrThere(s: State, steps: seq<Step>, c: nat, resume: ResumeInfo)
    requires Sound(s) && Legal(s, steps) && Kept(Final(s, steps), c, resume)
    ensures Kept(s, c, resume) || PausesIn(s, steps, c, resume)
    decreases |steps|
  {
    hide Sound, Apply, Kept, Pauses, Enabled;
    if |steps| > 0 {
      StepKeepsSound(s, steps[0]);
      SavedOrThere(Apply(s, steps[0]), steps[1..], c, resume);
      if Kept(Apply(s, steps[0]), c, resume) {
        NothingInvented(s, steps[0], c, resume);
      }
    }
  }

  // In every run, the progress that a chain is queued with or scans on from is one that a pause
  // of this chain saved.
  lemma ProgressWasSaved(s: State, steps: seq<Step>, c: nat, resume: ResumeInfo)
    requires Start(s)
    ensures Sound(s)
    ensures Legal(s, steps) && Kept(Final(s, steps), c, resume) ==> PausesIn(s, steps, c, resume)
  {
    hide Sound, Legal, Final, Kept, PausesIn;
    StartIsSound(s);
    NoneAtStart(s, c, resume);
    if Legal(s, steps) && Kept(Final(s, steps), c, resume) {
      SavedOrThere(s, steps, c, resume);
    }
  }

  lemma NoneAtStart(s: State, c: nat, resume: ResumeInfo)
    requires Start(s)
    ensures !Kept(s, c, resume)
  {
    StartMessages(s);
  }

  // A chain that is taken from the queue scans on from what was saved for it, and from the start
  // if nothing was.
  lemma ScansOn(s: State)
    requires Sound(s) && Enabled(s, Receive) && !s.miner.scanning && Received(s).miner.scanning
    ensures var t := Received(s);
            && |t.rounds| == 1 && t.rounds[0].chain == t.miner.chain < |s.resumes|
            && forall resume :: t.rounds[0].resume == Some(resume) <==> Saved(s, t.miner.chain, resume)
  {
    hide Prio, FollowedUp, Preempts, NoStall, GoodCause;
  }
}
