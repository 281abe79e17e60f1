// The scheduler: chains wait in a priority queue for the disks, a scan in progress can be
// abandoned for a newer block of its chain or paused for a chain of higher priority, and a paused
// scan is taken up again where it stopped.
module Scheduler {
  import opened Wrappers
  import opened Mining

  // Where a paused scan stopped. The block it belongs to is recorded for the proofs alone.
  datatype ResumeInfo = ResumeInfo(scanProgress: seq<seq<nat>>, warpsScanned: nat, block: MiningInfo)

  datatype Message =
    | ScheduleNewBlock(chain: nat, info: MiningInfo, initial: bool)
    | RescheduleBlock(chain: nat, info: MiningInfo, resume: ResumeInfo)
    | ProcessBlock

  datatype MinerState = MinerState(scanning: bool, chain: nat, prio: nat, interrupt: bool, pause: bool)

  // A mining round: the scan thread with the block it was started for.
  datatype Round = Round(chain: nat, info: MiningInfo, resume: Option<ResumeInfo>)

  // The last three fields record history: the newest block handled for each chain, the messages
  // still unhandled of those that were waiting when the round started, and the chains whose newest
  // block has not been scanned to the end.
  datatype State = State(
    queued: set<nat>,
    infos: seq<MiningInfo>,
    resumes: seq<Option<ResumeInfo>>,
    miner: MinerState,
    messages: seq<Message>,
    trigger: bool,
    rounds: seq<Round>,
    latest: seq<MiningInfo>,
    backlog: nat,
    unfinished: set<nat>)

  // Chains listed first have the higher priority.
  function Prio(chain: nat, chains: nat): nat {
    if chain < chains then chains - chain else 0
  }

  // The queued chain of highest priority.
  function Top(queued: set<nat>, from: nat, chains: nat): (r: Option<nat>)
    ensures r.Some? ==> from <= r.value < chains && r.value in queued
    ensures r.Some? ==> forall c :: c in queued && from <= c ==> r.value <= c
    ensures r.None? ==> forall c :: c in queued && c < chains ==> c < from
    decreases if from < chains then chains - from else 0
  {
    if from >= chains then None
    else if from in queued then Some(from)
    else Top(queued, from + 1, chains)
  }

  // ----- what each message does -----

  function NewBlock(s: State, chain: nat, info: MiningInfo, initial: bool): State
    requires WellSized(s) && chain < |s.infos|
  {
    s.(queued := s.queued + {chain},
       infos := s.infos[chain := info],
       resumes := s.resumes[chain := None],
       trigger := !initial,
       latest := s.latest[chain := info],
       unfinished := s.unfinished + {chain})
  }

  function Reschedule(s: State, chain: nat, info: MiningInfo, resume: ResumeInfo): State
    requires WellSized(s) && chain < |s.infos|
  {
    if chain in s.queued then s.(trigger := true)
    else s.(queued := s.queued + {chain},
            infos := s.infos[chain := info],
            resumes := s.resumes[chain := Some(resume)],
            trigger := true)
  }

  function Process(s: State): State
    requires WellSized(s)
  {
    var top := Top(s.queued, 0, |s.infos|);
    if top.None? then s
    else if !s.miner.scanning then
      var c := top.value;
      s.(queued := s.queued - {c},
         resumes := s.resumes[c := None],
         miner := MinerState(true, c, Prio(c, |s.infos|), false, false),
         rounds := s.rounds + [Round(c, s.infos[c], s.resumes[c])],
         backlog := |s.messages|)
    else
      var prio := Prio(top.value, |s.infos|);
      if prio == s.miner.prio then s.(miner := s.miner.(interrupt := true))
      else if prio > s.miner.prio && !s.miner.interrupt && !s.miner.pause
      then s.(miner := s.miner.(interrupt := true, pause := true))
      else s
  }

  function Handle(s: State, m: Message): State
    requires WellSized(s) && (!m.ProcessBlock? ==> m.chain < |s.infos|)
  {
    match m
    case ScheduleNewBlock(chain, info, initial) => NewBlock(s, chain, info, initial)
    case RescheduleBlock(chain, info, resume) => Reschedule(s, chain, info, resume)
    case ProcessBlock => Process(s)
  }

  // The first message leaves the queue.
  function Popped(s: State): State
    requires |s.messages| > 0
  {
    s.(messages := s.messages[1..], backlog := if s.backlog > 0 then s.backlog - 1 else 0)
  }

  function Received(s: State): State
    requires WellSized(s) && KnownChains(s) && |s.messages| > 0
  {
    assert s.messages[0] in s.messages;
    Handle(Popped(s), s.messages[0])
  }

  function Triggered(s: State): State {
    s.(trigger := false, messages := s.messages + [ProcessBlock])
  }

  function Arrived(s: State, chain: nat, info: MiningInfo): State {
    s.(messages := s.messages + [ScheduleNewBlock(chain, info, false)])
  }

  // The end of a round: under the lock of the miner state, all at once.
  function Ended(s: State, interrupted: bool, resume: ResumeInfo): State
    requires |s.rounds| > 0
  {
    var round := s.rounds[0];
    var paused := s.miner.interrupt && s.miner.pause && interrupted;
    s.(miner := s.miner.(scanning := false),
       rounds := s.rounds[1..],
       messages := s.messages
         + (if paused then [RescheduleBlock(s.miner.chain, round.info, resume)] else [])
         + [ProcessBlock],
       unfinished := if !interrupted && round.chain < |s.latest| && s.latest[round.chain] == round.info
                     then s.unfinished - {round.chain} else s.unfinished)
  }

  predicate WellSized(s: State) {
    |s.infos| == |s.resumes| == |s.latest|
  }

  // ----- runs -----

  datatype Step =
    | Arrive(chain: nat, info: MiningInfo)
    | Receive
    | Trigger
    | EndRound(interrupted: bool, resume: ResumeInfo)

  // A reader is interrupted only when the flag is up, and what a round saves is its own progress.
  predicate Enabled(s: State, step: Step) {
    match step
    case Arrive(chain, info) => chain < |s.infos|
    case Receive => !s.trigger && |s.messages| > 0
    case Trigger => s.trigger
    case EndRound(interrupted, resume) =>
      |s.rounds| > 0 && (interrupted ==> s.miner.interrupt) && resume.block == s.rounds[0].info
  }

  function Apply(s: State, step: Step): State
    requires Sound(s) && Enabled(s, step)
  {
    match step
    case Arrive(chain, info) => Arrived(s, chain, info)
    case Receive => Received(s)
    case Trigger => Triggered(s)
    case EndRound(interrupted, resume) => Ended(s, interrupted, resume)
  }

  // Before the scheduler runs: the first block of every chain that answered, then the trigger.
  predicate Start(s: State) {
    && WellSized(s) && s.queued == {} && s.rounds == [] && !s.trigger && s.backlog == 0 && s.unfinished == {}
    && s.miner == MinerState(false, 0, 0, false, false)
    && s.infos == s.latest
    && (forall c :: 0 <= c < |s.resumes| ==> s.resumes[c] == None)
    && |s.messages| > 0 && s.messages[|s.messages| - 1] == ProcessBlock
    && forall i :: 0 <= i < |s.messages| - 1 ==>
         s.messages[i].ScheduleNewBlock? && s.messages[i].initial && s.messages[i].chain < |s.infos|
  }

  // ----- what every state keeps -----

  predicate KnownChains(s: State) {
    && (forall c :: c in s.queued ==> c < |s.infos|)
    && (forall m :: m in s.messages && !m.ProcessBlock? ==> m.chain < |s.infos|)
    && (forall m :: m in s.messages && m.RescheduleBlock? ==> m.resume.block == m.info)
  }

  predicate Pending(s: State) {
    s.trigger || ProcessBlock in s.messages
  }

  predicate AtMostOneRound(s: State) {
    && |s.rounds| == (if s.miner.scanning then 1 else 0)
    && (s.miner.scanning ==>
          && s.rounds[0].chain == s.miner.chain < |s.infos|
          && s.miner.prio == Prio(s.miner.chain, |s.infos|))
  }

  // Work is waiting and the disks are free: the scheduler will look at the queue.
  predicate NoStall(s: State) {
    s.queued != {} && !s.miner.scanning ==> Pending(s)
  }

  predicate FollowedUp(messages: seq<Message>) {
    forall i :: 0 <= i < |messages| && messages[i].ScheduleNewBlock? && messages[i].initial ==>
      ProcessBlock in messages[i + 1..]
  }

  // A queued chain of the same or a higher priority gets the disks.
  predicate Preempts(s: State) {
    s.miner.scanning ==>
      forall c :: c in s.queued && Prio(c, |s.infos|) >= s.miner.prio ==> s.miner.interrupt || Pending(s)
  }

  // No scan is cut short without cause: it is abandoned only when a newer block of its own chain
  // is queued, and paused only when a chain of higher priority is.
  predicate GoodCause(s: State) {
    && (s.miner.pause ==> s.miner.interrupt)
    && (s.miner.scanning && s.miner.interrupt && !s.miner.pause ==> s.miner.chain in s.queued)
    && (s.miner.scanning && s.miner.pause ==> exists c :: c in s.queued && c < s.miner.chain)
  }

  // Saved progress belongs to the block its chain is queued with.
  predicate ResumeOwned(s: State)
    requires WellSized(s)
  {
    && (forall c :: 0 <= c < |s.resumes| && s.resumes[c].Some? ==>
      c in s.queued && s.resumes[c].value.block == s.infos[c])
    && (forall i :: 0 <= i < |s.rounds| && s.rounds[i].resume.Some? ==>
      s.rounds[i].resume.value.block == s.rounds[i].info)
  }

  predicate Sound(s: State) {
    && WellSized(s) && KnownChains(s) && AtMostOneRound(s)
    && NoStall(s) && FollowedUp(s.messages) && Preempts(s)
    && GoodCause(s) && ResumeOwned(s)
  }

  lemma PopKeepsFollowedUp(ms: seq<Message>)
    requires |ms| > 0 && FollowedUp(ms)
    ensures FollowedUp(ms[1..])
    ensures ms[0].ScheduleNewBlock? && ms[0].initial ==> ProcessBlock in ms[1..]
  {
    forall i | 0 <= i < |ms[1..]| && ms[1..][i].ScheduleNewBlock? && ms[1..][i].initial
      ensures ProcessBlock in ms[1..][i + 1..]
    {
      assert ms[1..][i] == ms[i + 1];
      assert ms[1..][i + 1..] == ms[i + 2..];
    }
  }

  lemma PushKeepsFollowedUp(ms: seq<Message>, m: Message)
    requires FollowedUp(ms) && !(m.ScheduleNewBlock? && m.initial)
    ensures FollowedUp(ms + [m])
  {
    forall i | 0 <= i < |ms + [m]| && (ms + [m])[i].ScheduleNewBlock? && (ms + [m])[i].initial
      ensures ProcessBlock in (ms + [m])[i + 1..]
    {
      assert (ms + [m])[i + 1..] == ms[i + 1..] + [m];
    }
  }

  lemma StartMessages(s: State)
    requires Start(s)
    ensures forall m :: m in s.messages ==> m.ProcessBlock? || (m.ScheduleNewBlock? && m.chain < |s.infos|)
    ensures FollowedUp(s.messages)
  {
    var n := |s.messages| - 1;
    forall m | m in s.messages
      ensures m.ProcessBlock? || (m.ScheduleNewBlock? && m.chain < |s.infos|)
    {
      var i :| 0 <= i < |s.messages| && s.messages[i] == m;
      assert i == n || i < n;
    }
    forall i | 0 <= i < |s.messages| && s.messages[i].ScheduleNewBlock? && s.messages[i].initial
      ensures ProcessBlock in s.messages[i + 1..]
    {
      assert s.messages[i + 1..][n - i - 1] == ProcessBlock;
    }
  }

  lemma StartIsSound(s: State)
    requires Start(s)
    ensures Sound(s)
  {
    hide FollowedUp;
    StartMessages(s);
  }

  // A sound state whose first message has been taken off and not been handled yet.
  predicate Handling(s: State, m: Message) {
    && WellSized(s) && KnownChains(s) && AtMostOneRound(s) && GoodCause(s) && ResumeOwned(s)
    && FollowedUp(s.messages) && !s.trigger
    && (!m.ProcessBlock? ==> m.chain < |s.infos| && NoStall(s) && Preempts(s))
    && (m.RescheduleBlock? ==> m.resume.block == m.info)
    && (m.ScheduleNewBlock? && m.initial ==> ProcessBlock in s.messages)
  }

  lemma TakenOff(s: State)
    requires Sound(s) && Enabled(s, Receive)
    ensures Handling(Popped(s), s.messages[0])
  {
    hide FollowedUp;
    PopKeepsFollowedUp(s.messages);
    var m, rest := s.messages[0], s.messages[1..];
    assert forall x :: x in rest ==> x in s.messages;
    assert m in s.messages && forall x :: x in s.messages && x != m ==> x in rest;
  }

  lemma NewBlockSound(s: State, m: Message)
    requires Handling(s, m) && m.ScheduleNewBlock?
    ensures Sound(NewBlock(s, m.chain, m.info, m.initial))
  {
    hide FollowedUp, Prio;
  }

  lemma RescheduleSound(s: State, m: Message)
    requires Handling(s, m) && m.RescheduleBlock?
    ensures Sound(Reschedule(s, m.chain, m.info, m.resume))
  {
    hide FollowedUp, Prio;
  }

  lemma ProcessSound(s: State)
    requires Handling(s, ProcessBlock)
    ensures Sound(Process(s))
  {
    hide FollowedUp, Top;
  }

  lemma ReceiveKeepsSound(s: State)
    requires Sound(s) && Enabled(s, Receive)
    ensures Sound(Received(s))
  {
    hide Sound, Process, NewBlock, Reschedule;
    TakenOff(s);
    var m, p := s.messages[0], Popped(s);
    match m
    case ScheduleNewBlock(_, _, _) => NewBlockSound(p, m);
    case RescheduleBlock(_, _, _) => RescheduleSound(p, m);
    case ProcessBlock => ProcessSound(p);
  }

  // Handling takes one message and sends none, and calls for a trigger unless the message is
  // itself one or is followed by one.
  lemma OneHandled(s: State)
    requires Sound(s) && Enabled(s, Receive)
    ensures var t, m := Received(s), s.messages[0];
            && t.messages == s.messages[1..]
            && t.trigger == (m.RescheduleBlock? || (m.ScheduleNewBlock? && !m.initial))
  {
    hide Top, FollowedUp, Preempts, NoStall, GoodCause;
  }

  lemma EndKeepsSound(s: State, interrupted: bool, resume: ResumeInfo)
    requires Sound(s) && Enabled(s, EndRound(interrupted, resume))
    ensures Sound(Ended(s, interrupted, resume))
  {
    hide FollowedUp;
    var t := Ended(s, interrupted, resume);
    var m := RescheduleBlock(s.miner.chain, s.rounds[0].info, resume);
    PushKeepsFollowedUp(s.messages, m);
    PushKeepsFollowedUp(s.messages + [m], ProcessBlock);
    PushKeepsFollowedUp(s.messages, ProcessBlock);
    assert s.messages + [] + [ProcessBlock] == s.messages + [ProcessBlock];
    assert t.messages[|t.messages| - 1] == ProcessBlock;
  }

  lemma PushKeepsSound(s: State, t: State, m: Message)
    requires Sound(s) && t == s.(messages := s.messages + [m], trigger := t.trigger)
    requires t.trigger == s.trigger || m == ProcessBlock
    requires m == ProcessBlock || (m.ScheduleNewBlock? && !m.initial && m.chain < |s.infos|)
    ensures Sound(t)
  {
    hide FollowedUp;
    PushKeepsFollowedUp(s.messages, m);
    assert t.messages[|s.messages|] == m;
  }

  lemma StepKeepsSound(s: State, step: Step)
    requires Sound(s) && Enabled(s, step)
    ensures Sound(Apply(s, step))
  {
    hide Sound, Received, Ended;
    match step
    case Arrive(chain, info) => PushKeepsSound(s, Arrived(s, chain, info), ScheduleNewBlock(chain, info, false));
    case Receive => ReceiveKeepsSound(s);
    case Trigger => PushKeepsSound(s, Triggered(s), ProcessBlock);
    case EndRound(interrupted, resume) => EndKeepsSound(s, interrupted, resume);
  }

  // ----- every run -----

  predicate Legal(s: State, steps: seq<Step>)
    requires Sound(s)
    decreases |steps|
  {
    |steps| == 0 || (Enabled(s, steps[0]) && (StepKeepsSound(s, steps[0]); Legal(Apply(s, steps[0]), steps[1..])))
  }

  function Final(s: State, steps: seq<Step>): (t: State)
    requires Sound(s) && Legal(s, steps)
    ensures Sound(t)
    decreases |steps|
  {
    if |steps| == 0 then s
    else
      StepKeepsSound(s, steps[0]);
      Final(Apply(s, steps[0]), steps[1..])
  }

  // In every reachable state: no stall, guaranteed preemption, one round at most, no scan cut
  // short without cause, and saved progress that belongs to the block its chain is queued with.
  lemma EveryRunIsSound(s: State, steps: seq<Step>)
    requires Start(s)
    ensures Sound(s) && (Legal(s, steps) ==> Sound(Final(s, steps)))
  {
    hide Sound;
    StartIsSound(s);
  }

  // ----- paused blocks never overwrite newer ones -----

  // No paused block is still waiting to be handled when a round ends.
  predicate Orderly(s: State, step: Step) {
    step.EndRound? ==> NonePaused(s)
  }

  predicate NonePaused(s: State) {
    forall m :: m in s.messages ==> !m.RescheduleBlock?
  }

  predicate OrderlyRun(s: State, steps: seq<Step>)
    requires Sound(s) && Legal(s, steps)
    decreases |steps|
  {
    |steps| == 0 ||
      (Orderly(s, steps[0]) && (StepKeepsSound(s, steps[0]); OrderlyRun(Apply(s, steps[0]), steps[1..])))
  }

  predicate Current(s: State, m: Message)
    requires WellSized(s)
  {
    m.RescheduleBlock? ==> m.chain < |s.latest| && (m.chain in s.queued || m.info == s.latest[m.chain])
  }

  predicate Outranked(s: State, m: Message) {
    m.RescheduleBlock? ==> exists c :: c in s.queued && c < m.chain
  }

  predicate Accounted(s: State, c: nat)
    requires WellSized(s)
  {
    || c in s.queued
    || (exists i :: 0 <= i < |s.rounds| && s.rounds[i].chain == c < |s.latest| && s.rounds[i].info == s.latest[c])
    || (exists m :: m in s.messages && m.RescheduleBlock? && m.chain == c < |s.latest| && m.info == s.latest[c])
  }

  predicate UpToDate(s: State)
    requires WellSized(s)
  {
    && s.infos == s.latest
    && forall i :: 0 <= i < |s.rounds| ==>
         s.rounds[i].chain < |s.latest|
           && (s.rounds[i].chain in s.queued || s.rounds[i].info == s.latest[s.rounds[i].chain])
  }

  // The blocks the scheduler works with are the newest it has seen; a paused one on its way back
  // is either the newest of its chain or its chain is queued with a newer one already, and while
  // the disks are free a chain of higher priority keeps its chain from being taken from the queue.
  predicate Fresh(s: State)
    requires WellSized(s)
  {
    && UpToDate(s)
    && (forall m :: m in s.messages ==> Current(s, m))
    && (!s.miner.scanning ==> forall m :: m in s.messages ==> Outranked(s, m))
    && (s.miner.scanning ==> forall i :: s.backlog <= i < |s.messages| ==> !s.messages[i].RescheduleBlock?)
  }

  // The newest block of every chain has been scanned to the end, or is queued, being scanned, or
  // on its way back from a pause.
  predicate NothingLost(s: State)
    requires WellSized(s)
  {
    forall c :: c in s.unfinished ==> Accounted(s, c)
  }

  predicate FreshHandling(s: State, m: Message)
    requires WellSized(s)
  {
    && UpToDate(s) && Current(s, m)
    && (forall x :: x in s.messages ==> Current(s, x))
    && (!s.miner.scanning ==> Outranked(s, m) && forall x :: x in s.messages ==> Outranked(s, x))
    && (s.miner.scanning ==> forall i :: s.backlog <= i < |s.messages| ==> !s.messages[i].RescheduleBlock?)
    && forall c :: c in s.unfinished ==>
         Accounted(s, c) || (m.RescheduleBlock? && m.chain == c < |s.latest| && m.info == s.latest[c])
  }

  lemma TakenOffFresh(s: State)
    requires Sound(s) && Enabled(s, Receive) && Fresh(s) && NothingLost(s)
    ensures FreshHandling(Popped(s), s.messages[0])
  {
    hide Sound;
    assert WellSized(s) by { WellSizedOf(s); }
    var m, p := s.messages[0], Popped(s);
    assert m in s.messages && forall x :: x in p.messages ==> x in s.messages;
    assert forall x :: x in s.messages && x != m ==> x in p.messages;
    forall c | c in s.unfinished
      ensures Accounted(p, c) || (m.RescheduleBlock? && m.chain == c < |s.latest| && m.info == s.latest[c])
    {
      assert Accounted(s, c);
    }
    forall i | p.backlog <= i < |p.messages| && s.miner.scanning
      ensures !p.messages[i].RescheduleBlock?
    {
      assert p.messages[i] == s.messages[i + 1];
    }
  }

  lemma WellSizedOf(s: State)
    requires Sound(s)
    ensures WellSized(s) && KnownChains(s)
  {
  }

  lemma NewBlockFresh(s: State, m: Message)
    requires WellSized(s) && FreshHandling(s, m) && m.ScheduleNewBlock? && m.chain < |s.infos|
    ensures var t := NewBlock(s, m.chain, m.info, m.initial); Fresh(t) && NothingLost(t)
  {
    var t := NewBlock(s, m.chain, m.info, m.initial);
    forall x | x in t.messages
      ensures Current(t, x) && (!t.miner.scanning ==> Outranked(t, x))
    {
      assert Current(s, x);
    }
    forall c | c in t.unfinished
      ensures Accounted(t, c)
    {
      assert c != m.chain ==> Accounted(s, c);
    }
  }

  // A paused block that is put back into the queue is the newest its chain has had.
  lemma RescheduleFresh(s: State, m: Message)
    requires WellSized(s) && FreshHandling(s, m) && m.RescheduleBlock? && m.chain < |s.infos|
    ensures m.chain !in s.queued ==> m.info == s.latest[m.chain]
    ensures var t := Reschedule(s, m.chain, m.info, m.resume); Fresh(t) && NothingLost(t)
  {
    var t := Reschedule(s, m.chain, m.info, m.resume);
    assert Current(s, m);
    assert t.infos == s.infos;
    forall x | x in t.messages
      ensures Current(t, x) && (!t.miner.scanning ==> Outranked(t, x))
    {
      assert Current(s, x);
    }
    forall c | c in t.unfinished
      ensures Accounted(t, c)
    {
      assert c == m.chain || Accounted(s, c);
    }
  }

  // The chain that a trigger takes from the queue has no paused block on its way back: a chain of
  // higher priority than any such chain is queued.
  lemma ProcessFresh(s: State)
    requires Handling(s, ProcessBlock) && FreshHandling(s, ProcessBlock)
    ensures var t := Process(s); Fresh(t) && NothingLost(t)
    ensures !s.miner.scanning && Process(s).miner.scanning ==>
      forall m :: m in s.messages && m.RescheduleBlock? ==> m.chain > Process(s).miner.chain
  {
    hide Top, FollowedUp, Prio;
    var t := Process(s);
    forall x | x in t.messages
      ensures Current(t, x) && (!t.miner.scanning ==> Outranked(t, x))
    {
      assert Current(s, x) && (!s.miner.scanning ==> Outranked(s, x));
    }
    forall c | c in t.unfinished
      ensures Accounted(t, c)
    {
      assert Accounted(s, c);
      if s.miner.scanning == t.miner.scanning {
        assert t.rounds == s.rounds && t.messages == s.messages;
      } else if c == t.miner.chain {
        assert t.rounds[|s.rounds|].chain == c;
      }
    }
  }

  lemma ReceiveFresh(s: State)
    requires Sound(s) && Enabled(s, Receive) && Fresh(s) && NothingLost(s)
    ensures var t := Received(s); WellSized(t) && Fresh(t) && NothingLost(t)
  {
    hide Fresh, NothingLost, FreshHandling, Process, NewBlock, Reschedule, Sound, Handling;
    WellSizedOf(s);
    ReceiveKeepsSound(s);
    WellSizedOf(Received(s));
    TakenOff(s);
    TakenOffFresh(s);
    assert s.messages[0] in s.messages;
    var m, p := s.messages[0], Popped(s);
    match m
    case ScheduleNewBlock(_, _, _) => NewBlockFresh(p, m);
    case RescheduleBlock(_, _, _) => RescheduleFresh(p, m);
    case ProcessBlock => ProcessFresh(p);
  }

  lemma EndFresh(s: State, interrupted: bool, resume: ResumeInfo)
    requires Sound(s) && Enabled(s, EndRound(interrupted, resume)) && NonePaused(s)
    requires Fresh(s) && NothingLost(s)
    ensures var t := Ended(s, interrupted, resume); Fresh(t) && NothingLost(t)
  {
    hide Top, FollowedUp, Prio, Preempts, NoStall, ResumeOwned;
    var t := Ended(s, interrupted, resume);
    var x := s.rounds[0];
    forall m | m in t.messages
      ensures Current(t, m) && Outranked(t, m)
    {
      assert m in s.messages ==> !m.RescheduleBlock?;
    }
    forall c | c in t.unfinished
      ensures Accounted(t, c)
    {
      assert Accounted(s, c);
      assert forall m :: m in s.messages ==> m in t.messages;
      if c == x.chain && x.info == s.latest[c] && c !in s.queued {
        assert interrupted && s.miner.interrupt && s.miner.pause;
        assert t.messages[|s.messages|] == RescheduleBlock(c, x.info, resume);
      }
    }
  }

  lemma PushFresh(s: State, t: State, m: Message)
    requires WellSized(s) && Fresh(s) && NothingLost(s) && !m.RescheduleBlock?
    requires t == s.(messages := s.messages + [m], trigger := t.trigger)
    ensures Fresh(t) && NothingLost(t)
  {
    forall x | x in t.messages
      ensures Current(t, x) && (!t.miner.scanning ==> Outranked(t, x))
    {
      assert x == m || (x in s.messages && Current(s, x));
    }
    forall c | c in t.unfinished
      ensures Accounted(t, c)
    {
      assert Accounted(s, c);
    }
  }

  lemma StepKeepsFresh(s: State, step: Step)
    requires Sound(s) && Enabled(s, step) && Orderly(s, step) && Fresh(s) && NothingLost(s)
    ensures var t := Apply(s, step); WellSized(t) && Fresh(t) && NothingLost(t)
  {
    hide Sound, Received, Ended, Fresh, NothingLost;
    WellSizedOf(s);
    match step
    case Arrive(chain, info) => PushFresh(s, Arrived(s, chain, info), ScheduleNewBlock(chain, info, false));
    case Receive => ReceiveFresh(s);
    case Trigger => PushFresh(s, Triggered(s), ProcessBlock);
    case EndRound(interrupted, resume) =>
      StepKeepsSound(s, step);
      WellSizedOf(Apply(s, step));
      EndFresh(s, interrupted, resume);
  }

  lemma {:induction false} RunKeepsFresh(s: State, steps: seq<Step>)
    requires Sound(s) && Legal(s, steps) && OrderlyRun(s, steps) && Fresh(s) && NothingLost(s)
    ensures Fresh(Final(s, steps)) && NothingLost(Final(s, steps))
    decreases |steps|
  {
    hide Fresh, NothingLost, Sound, Apply;
    if |steps| > 0 {
      StepKeepsSound(s, steps[0]);
      StepKeepsFresh(s, steps[0]);
      RunKeepsFresh(Apply(s, steps[0]), steps[1..]);
    }
  }

  // In every orderly run, the scheduler only ever holds the newest block it has seen of each
  // chain, a paused block that is accepted back is the newest, and no newest block gets lost.
  lemma PausedNeverOverwrites(s: State, steps: seq<Step>)
    requires Start(s)
    ensures Sound(s)
    ensures Legal(s, steps) && OrderlyRun(s, steps) ==>
      var t := Final(s, steps);
      && t.infos == t.latest && NothingLost(t)
      && (!t.trigger && |t.messages| > 0 && t.messages[0].RescheduleBlock? && t.messages[0].chain !in t.queued ==>
            t.messages[0].chain < |t.latest| && t.messages[0].info == t.latest[t.messages[0].chain])
  {
    hide Sound, Legal, Final, OrderlyRun;
    StartIsSound(s);
    WellSizedOf(s);
    StartIsFresh(s);
    if Legal(s, steps) && OrderlyRun(s, steps) {
      RunKeepsFresh(s, steps);
      var t := Final(s, steps);
      WellSizedOf(t);
      if |t.messages| > 0 {
        assert Current(t, t.messages[0]);
      }
    }
  }

  // A round that outlasts the messages that were waiting when it started ends in order.
  predicate Outlasts(s: State, step: Step) {
    step.EndRound? ==> s.backlog == 0
  }

  predicate OutlastingRun(s: State, steps: seq<Step>)
    requires Sound(s) && Legal(s, steps)
    decreases |steps|
  {
    |steps| == 0 ||
      (Outlasts(s, steps[0]) && (StepKeepsSound(s, steps[0]); OutlastingRun(Apply(s, steps[0]), steps[1..])))
  }

  lemma OutlastingIsOrderly(s: State, step: Step)
    requires Sound(s) && Enabled(s, step) && Fresh(s) && Outlasts(s, step)
    ensures Orderly(s, step)
  {
    hide NoStall, FollowedUp, Preempts, GoodCause, ResumeOwned, UpToDate;
    if step.EndRound? {
      forall m | m in s.messages
        ensures !m.RescheduleBlock?
      {
        var i :| 0 <= i < |s.messages| && s.messages[i] == m;
      }
    }
  }

  // In every run whose rounds outlast the messages waiting at their start, all ends are orderly.
  lemma {:induction false} OutlastingRunIsOrderly(s: State, steps: seq<Step>)
    requires Sound(s) && Legal(s, steps) && OutlastingRun(s, steps) && Fresh(s) && NothingLost(s)
    ensures OrderlyRun(s, steps)
    decreases |steps|
  {
    hide Fresh, NothingLost, Sound, Apply, Orderly, Outlasts;
    if |steps| > 0 {
      OutlastingIsOrderly(s, steps[0]);
      StepKeepsSound(s, steps[0]);
      StepKeepsFresh(s, steps[0]);
      OutlastingRunIsOrderly(Apply(s, steps[0]), steps[1..]);
    }
  }

  lemma StartIsFresh(s: State)
    requires Start(s)
    ensures Fresh(s) && NothingLost(s)
  {
    forall m | m in s.messages
      ensures !m.RescheduleBlock?
    {
      assert exists i :: 0 <= i < |s.messages| && s.messages[i] == m;
    }
  }

  // ----- the scheduler itself -----

  class Scheduler {
    var queued: set<nat>
    var infos: seq<MiningInfo>
    var resumes: seq<Option<ResumeInfo>>
    var miner: MinerState
    var messages: seq<Message>
    var trigger: bool
    var rounds: seq<Round>
    ghost var latest: seq<MiningInfo>
    ghost var backlog: nat
    ghost var unfinished: set<nat>

    ghost function View(): State
      reads this
    {
      State(queued, infos, resumes, miner, messages, trigger, rounds, latest, backlog, unfinished)
    }

    static function Initial(first: seq<(nat, MiningInfo)>): seq<Message> {
      seq(|first|, i requires 0 <= i < |first| => ScheduleNewBlock(first[i].0, first[i].1, true)) + [ProcessBlock]
    }

    constructor (chains: nat, first: seq<(nat, MiningInfo)>, info: MiningInfo)
      requires forall i :: 0 <= i < |first| ==> first[i].0 < chains
      ensures Start(View()) && |infos| == chains
      ensures messages == Initial(first)
    {
      queued, infos, resumes := {}, seq(chains, _ => info), seq(chains, _ => None);
      miner := MinerState(false, 0, 0, false, false);
      messages := Initial(first);
      trigger, rounds := false, [];
      latest, backlog, unfinished := seq(chains, _ => info), 0, {};
    }

    // A chain announces a block.
    method Announce(chain: nat, info: MiningInfo)
      requires Sound(View()) && chain < |infos|
      modifies this`messages
      ensures View() == Arrived(old(View()), chain, info) && Sound(View())
      ensures messages == old(messages) + [ScheduleNewBlock(chain, info, false)]
    {
      ghost var s := View();
      messages := messages + [ScheduleNewBlock(chain, info, false)];
      StepKeepsSound(s, Arrive(chain, info));
    }

    // The next message, if there is one, up to the trigger it may call for.
    method Next() returns (any: bool)
      requires Sound(View()) && !trigger
      modifies this
      ensures any == (old(|messages|) > 0)
      ensures View() == if any then Received(old(View())) else old(View())
      ensures any ==> messages == old(messages[1..])
      ensures any ==> trigger == (old(messages)[0].RescheduleBlock?
                                  || (old(messages)[0].ScheduleNewBlock? && !old(messages)[0].initial))
      ensures Sound(View())
    {
      hide Sound, Process, NewBlock, Reschedule;
      ghost var s := View();
      WellSizedOf(s);
      if |messages| == 0 {
        return false;
      }
      any := true;
      StepKeepsSound(s, Receive);
      OneHandled(s);
      var message := messages[0];
      assert message in s.messages;
      messages, backlog := messages[1..], if backlog > 0 then backlog - 1 else 0;
      match message
      case ScheduleNewBlock(chain, info, initial) => OnNewBlock(chain, info, initial);
      case RescheduleBlock(chain, info, resume) => OnReschedule(chain, info, resume);
      case ProcessBlock => OnProcess();
    }

    method OnNewBlock(chain: nat, info: MiningInfo, initial: bool)
      requires WellSized(View()) && chain < |infos|
      modifies this
      ensures View() == NewBlock(old(View()), chain, info, initial)
      ensures chain in queued && infos[chain] == info && resumes[chain] == None
    {
      queued := queued + {chain};
      infos := infos[chain := info];
      resumes := resumes[chain := None];
      trigger := !initial;
      latest, unfinished := latest[chain := info], unfinished + {chain};
    }

    method OnReschedule(chain: nat, info: MiningInfo, resume: ResumeInfo)
      requires WellSized(View()) && chain < |infos|
      modifies this
      ensures View() == Reschedule(old(View()), chain, info, resume)
      ensures chain in queued
      ensures if chain in old(queued) then infos == old(infos) && resumes == old(resumes)
              else infos[chain] == info && resumes[chain] == Some(resume)
    {
      if chain !in queued {
        queued := queued + {chain};
        infos := infos[chain := info];
        resumes := resumes[chain := Some(resume)];
      }
      trigger := true;
    }

    method OnProcess()
      requires WellSized(View())
      modifies this
      ensures View() == Process(old(View()))
      ensures !old(miner.scanning) && miner.scanning ==>
        && miner.chain !in queued && queued + {miner.chain} == old(queued) && miner.chain < |infos|
        && rounds == old(rounds) + [Round(miner.chain, infos[miner.chain], old(resumes)[miner.chain])]
    {
      var top := Top(queued, 0, |infos|);
      if top.Some? {
        var chain, prio := top.value, Prio(top.value, |infos|);
        if !miner.scanning {
          queued := queued - {chain};
          miner := MinerState(true, chain, prio, false, false);
          rounds := rounds + [Round(chain, infos[chain], resumes[chain])];
          resumes := resumes[chain := None];
          backlog := |messages|;
        } else if prio == miner.prio {
          miner := miner.(interrupt := true);
        } else if prio > miner.prio && !miner.interrupt && !miner.pause {
          miner := miner.(interrupt := true);
          miner := miner.(pause := true);
        }
      }
    }

    method SendTrigger()
      requires Sound(View()) && trigger
      modifies this`messages, this`trigger
      ensures View() == Triggered(old(View())) && Sound(View())
    {
      ghost var s := View();
      trigger := false;
      messages := messages + [ProcessBlock];
      StepKeepsSound(s, Trigger);
    }

    // The end of the mining round, with the number of readers that were interrupted.
    method FinishRound(interruptedCount: nat, resume: ResumeInfo)
      requires Sound(View()) && Enabled(View(), EndRound(interruptedCount > 0, resume))
      modifies this
      ensures View() == Ended(old(View()), interruptedCount > 0, resume) && Sound(View())
      ensures !miner.scanning && rounds == old(rounds)[1..]
      ensures old(miner).pause && interruptedCount > 0 ==>
        messages == old(messages) + [RescheduleBlock(old(miner).chain, old(rounds)[0].info, resume), ProcessBlock]
      ensures !old(miner).pause || interruptedCount == 0 ==> messages == old(messages) + [ProcessBlock]
    {
      hide Sound;
      ghost var s := View();
      var round := rounds[0];
      if miner.interrupt {
        if miner.pause {
          if interruptedCount != 0 {
            messages := messages + [RescheduleBlock(miner.chain, round.info, resume)];
          }
        }
      }
      miner := miner.(scanning := false);
      messages := messages + [ProcessBlock];
      rounds := rounds[1..];
      unfinished := if interruptedCount == 0 && round.chain < |latest| && latest[round.chain] == round.info
                    then unfinished - {round.chain} else unfinished;
      StepKeepsSound(s, EndRound(interruptedCount > 0, resume));
      assert s.messages + [] == s.messages;
    }
  }

  // ----- a round that ends too early -----

  const NO_INFO := MiningInfo(0, "", 1, None)
  const OLDER := MiningInfo(1, "1", 1, None)
  const NEWER := MiningInfo(2, "2", 1, None)
  const PAUSED_OLDER := RescheduleBlock(1, OLDER, ResumeInfo([], 0, OLDER))

  lemma {:induction false} RunExtends(s: State, steps: seq<Step>, step: Step)
    requires Sound(s) && Legal(s, steps) && Enabled(Final(s, steps), step)
    ensures Legal(s, steps + [step])
    ensures Final(s, steps + [step]) == Apply(Final(s, steps), step)
    decreases |steps|
  {
    hide Sound, Apply, Enabled;
    var all := steps + [step];
    if |steps| == 0 {
      StepKeepsSound(s, step);
      assert all == [step] && all[1..] == [];
    } else {
      StepKeepsSound(s, steps[0]);
      RunExtends(Apply(s, steps[0]), steps[1..], step);
      assert all[0] == steps[0] && all[1..] == steps[1..] + [step];
    }
  }

  ghost predicate Reachable(s: State) {
    exists start, steps :: Start(start) && Sound(start) && Legal(start, steps) && Final(start, steps) == s
  }

  lemma Next(s: State, step: Step, t: State)
    requires Reachable(s) && Enabled(s, step) && (Sound(s) ==> t == Apply(s, step))
    ensures Reachable(t)
  {
    hide Sound, Apply, Enabled, Legal, Final, Start;
    var start, steps :| Start(start) && Sound(start) && Legal(start, steps) && Final(start, steps) == s;
    RunExtends(start, steps, step);
  }

  function Paused(): State {
    State({0}, [OLDER, OLDER], [None, None], MinerState(true, 1, 1, true, true),
      [],
      false, [Round(1, OLDER, None)], [OLDER, OLDER], 0, {0, 1})
  }

  // Chain 1 is being scanned when chain 0 gets a block: the scan is to pause.
  lemma TracePaused()
    ensures Reachable(Paused())
  {
    hide Reachable, Sound, Top;
    TwoChains();
    var s0 := State({}, [NO_INFO, NO_INFO], [None, None], MinerState(false, 0, 0, false, false),
      [ScheduleNewBlock(1, OLDER, true), ProcessBlock],
      false, [], [NO_INFO, NO_INFO], 0, {});
    FirstState(s0);
    var s1 := s0.(queued := {1}, infos := [NO_INFO, OLDER], messages := [ProcessBlock], latest := [NO_INFO, OLDER],
                  unfinished := {1});
    Next(s0, Receive, s1);
    var s2 := s1.(queued := {}, miner := MinerState(true, 1, 1, false, false), messages := [],
                  rounds := [Round(1, OLDER, None)]);
    Next(s1, Receive, s2);
    var s3 := s2.(messages := [ScheduleNewBlock(0, OLDER, false)]);
    Next(s2, Arrive(0, OLDER), s3);
    var s4 := s3.(queued := {0}, infos := [OLDER, OLDER], messages := [], trigger := true, latest := [OLDER, OLDER],
                  unfinished := {0, 1});
    Next(s3, Receive, s4);
    var s5 := s4.(messages := [ProcessBlock], trigger := false);
    Next(s4, Trigger, s5);
    var s6 := s5.(miner := MinerState(true, 1, 1, true, true), messages := []);
    Next(s5, Receive, s6);
  }

  function Crossing(): State {
    State({0}, [OLDER, OLDER], [None, None], MinerState(true, 1, 1, true, true),
      [ScheduleNewBlock(1, NEWER, false), ProcessBlock, ProcessBlock],
      false, [Round(1, OLDER, None)], [OLDER, OLDER], 0, {0, 1})
  }

  // Before it has paused, chain 0 gets two more blocks and chain 1 a newer one.
  lemma TraceCrossing()
    ensures Reachable(Crossing())
  {
    hide Reachable, Sound, Top;
    TwoChains();
    TracePaused();
    var s6 := Paused();
    var s7 := s6.(messages := [ScheduleNewBlock(0, NEWER, false)]);
    Next(s6, Arrive(0, NEWER), s7);
    var s8 := s7.(messages := [ScheduleNewBlock(0, NEWER, false), ScheduleNewBlock(0, OLDER, false)]);
    Next(s7, Arrive(0, OLDER), s8);
    var s9 := s8.(messages := [ScheduleNewBlock(0, NEWER, false), ScheduleNewBlock(0, OLDER, false),
                               ScheduleNewBlock(1, NEWER, false)]);
    Next(s8, Arrive(1, NEWER), s9);
    var s10 := s9.(infos := [NEWER, OLDER],
                   messages := [ScheduleNewBlock(0, OLDER, false), ScheduleNewBlock(1, NEWER, false)],
                   trigger := true, latest := [NEWER, OLDER]);
    Next(s9, Receive, s10);
    var s11 := s10.(messages := [ScheduleNewBlock(0, OLDER, false), ScheduleNewBlock(1, NEWER, false), ProcessBlock],
                    trigger := false);
    Next(s10, Trigger, s11);
    var s12 := s11.(infos := [OLDER, OLDER], messages := [ScheduleNewBlock(1, NEWER, false), ProcessBlock],
                    trigger := true, latest := [OLDER, OLDER]);
    Next(s11, Receive, s12);
    var s13 := s12.(messages := [ScheduleNewBlock(1, NEWER, false), ProcessBlock, ProcessBlock], trigger := false);
    Next(s12, Trigger, s13);
  }

  function EndedEarly(): State {
    State({1}, [OLDER, NEWER], [None, None], MinerState(false, 0, 2, false, false),
      [ProcessBlock, PAUSED_OLDER, ProcessBlock, ProcessBlock, ProcessBlock],
      false, [], [OLDER, NEWER], 4, {1})
  }

  // The pause has put the older block of chain 1 behind the newer one, with two triggers between
  // them: the first starts chain 0, whose round ends at once.
  lemma TraceEndedEarly()
    ensures Reachable(EndedEarly())
  {
    hide Reachable, Sound, Top;
    TwoChains();
    TraceCrossing();
    var s13 := Crossing();
    var s14 := s13.(miner := MinerState(false, 1, 1, true, true),
                    messages := [ScheduleNewBlock(1, NEWER, false),
                                 ProcessBlock, ProcessBlock, PAUSED_OLDER, ProcessBlock],
                    rounds := []);
    Next(s13, EndRound(true, ResumeInfo([], 0, OLDER)), s14);
    var s15 := s14.(queued := {0, 1}, infos := [OLDER, NEWER],
                    messages := [ProcessBlock, ProcessBlock, PAUSED_OLDER, ProcessBlock],
                    trigger := true, latest := [OLDER, NEWER]);
    Next(s14, Receive, s15);
    var s16 := s15.(messages := [ProcessBlock, ProcessBlock, PAUSED_OLDER, ProcessBlock, ProcessBlock],
                    trigger := false);
    Next(s15, Trigger, s16);
    var s17 := s16.(queued := {1}, miner := MinerState(true, 0, 2, false, false),
                    messages := [ProcessBlock, PAUSED_OLDER,
                                 ProcessBlock, ProcessBlock],
                    rounds := [Round(0, OLDER, None)], backlog := 4);
    Next(s16, Receive, s17);
    var s18 := s17.(miner := MinerState(false, 0, 2, false, false),
                    messages := [ProcessBlock, PAUSED_OLDER,
                                 ProcessBlock, ProcessBlock, ProcessBlock],
                    rounds := [], unfinished := {1});
    Next(s17, EndRound(false, ResumeInfo([], 0, OLDER)), s18);
  }

  function Overwritten(): State {
    State({}, [OLDER, OLDER], [None, None], MinerState(true, 1, 1, false, false),
      [ProcessBlock, ProcessBlock, ProcessBlock],
      false, [Round(1, OLDER, Some(ResumeInfo([], 0, OLDER)))], [OLDER, NEWER], 3, {1})
  }

  // The second trigger starts the newer block of chain 1; with its chain out of the queue the older
  // one is accepted, takes its place, and interrupts it.
  lemma TraceOverwritten()
    ensures Reachable(Overwritten())
  {
    hide Reachable, Sound, Top;
    TwoChains();
    TraceEndedEarly();
    var s18 := EndedEarly();
    var s19 := s18.(queued := {}, miner := MinerState(true, 1, 1, false, false),
                    messages := [PAUSED_OLDER,
                                 ProcessBlock, ProcessBlock, ProcessBlock],
                    rounds := [Round(1, NEWER, None)]);
    Next(s18, Receive, s19);
    var s20 := s19.(queued := {1}, infos := [OLDER, OLDER], resumes := [None, Some(ResumeInfo([], 0, OLDER))],
                    messages := [ProcessBlock, ProcessBlock, ProcessBlock], trigger := true, backlog := 3);
    Next(s19, Receive, s20);
    var s21 := s20.(messages := [ProcessBlock, ProcessBlock, ProcessBlock, ProcessBlock], trigger := false);
    Next(s20, Trigger, s21);
    var s22 := s21.(miner := MinerState(true, 1, 1, true, false),
                    messages := [ProcessBlock, ProcessBlock, ProcessBlock], backlog := 2);
    Next(s21, Receive, s22);
    var s23 := s22.(miner := MinerState(false, 1, 1, true, false),
                    messages := [ProcessBlock, ProcessBlock, ProcessBlock, ProcessBlock], rounds := []);
    Next(s22, EndRound(true, ResumeInfo([], 0, NEWER)), s23);
    var s24 := s23.(queued := {}, resumes := [None, None], miner := MinerState(true, 1, 1, false, false),
                    messages := [ProcessBlock, ProcessBlock, ProcessBlock],
                    rounds := [Round(1, OLDER, Some(ResumeInfo([], 0, OLDER)))], backlog := 3);
    Next(s23, Receive, s24);
  }

  lemma TwoChains()
    ensures Top({0}, 0, 2) == Some(0) && Top({1}, 0, 2) == Some(1) && Top({0, 1}, 0, 2) == Some(0)
    ensures {0, 1} - {0} == {1} && {1} - {1} == {} && {0} + {1} == {0, 1}
  {
  }

  lemma FirstState(s: State)
    requires Start(s)
    ensures Reachable(s)
  {
    hide Start, Sound;
    StartIsSound(s);
    assert Legal(s, []) && Final(s, []) == s;
  }

  // Without the assumption the newest block of a chain can be lost: what is scanned and kept for
  // chain 1 is its older block, and the newer one is nowhere.
  lemma EarlyEndLosesABlock()
    ensures var t := Overwritten();
      Reachable(t) && t.infos[1] != t.latest[1] && t.rounds[0].info != t.latest[1] && 1 in t.unfinished
        && !Accounted(t, 1)
  {
    hide Reachable;
    TraceOverwritten();
  }
}
