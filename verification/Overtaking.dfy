// When exactly a paused block on its way back can replace a newer one of its chain: a state
// decides it, by what is queued and what is waiting in front of the paused block.
module Overtaking {
  import opened Mining
  import opened Scheduler

  // What is left in the queue when every trigger takes a chain.
  function Drained(queued: set<nat>, ms: seq<Message>, chains: nat): set<nat>
    decreases |ms|
  {
    if |ms| == 0 then queued else Drained(After(queued, ms[0], chains), ms[1..], chains)
  }

  function After(queued: set<nat>, m: Message, chains: nat): set<nat> {
    if !m.ProcessBlock? then queued + {m.chain}
    else
      var top := Top(queued, 0, chains);
      if top.None? then queued else queued - {top.value}
  }

  // The newest block of a chain once these messages are handled.
  function Newest(info: MiningInfo, chain: nat, ms: seq<Message>): MiningInfo
    decreases |ms|
  {
    if |ms| == 0 then info
    else Newest(if ms[0].ScheduleNewBlock? && ms[0].chain == chain then ms[0].info else info, chain, ms[1..])
  }

  // In front of the paused block at position j there is a newer block of its chain, or there has
  // been one, and triggers enough to take its chain from the queue again.
  predicate Overtaken(s: State, j: nat)
    requires WellSized(s) && j < |s.messages| && s.messages[j].RescheduleBlock?
  {
    var m, ahead := s.messages[j], s.messages[..j];
    && m.chain < |s.latest|
    && m.info != Newest(s.latest[m.chain], m.chain, ahead)
    && m.chain !in Drained(s.queued, ahead, |s.infos|)
  }

  function Receives(steps: seq<Step>): nat {
    if |steps| == 0 then 0 else Receives(steps[1..]) + if steps[0].Receive? then 1 else 0
  }

  // While a round goes on, what counts as its backlog are the messages waiting at its start that
  // have not been handled since.
  lemma {:induction false} BacklogCounts(s: State, steps: seq<Step>)
    requires Sound(s) && Legal(s, steps) && s.miner.scanning
    requires forall i :: 0 <= i < |steps| ==> !steps[i].EndRound?
    ensures Final(s, steps).miner.scanning
    ensures Final(s, steps).backlog == if Receives(steps) <= s.backlog then s.backlog - Receives(steps) else 0
    decreases |steps|
  {
    hide Sound, Top, Prio;
    if |steps| > 0 {
      WellSizedOf(s);
      StepKeepsSound(s, steps[0]);
      BacklogCounts(Apply(s, steps[0]), steps[1..]);
    }
  }

  // A round starts with all waiting messages before it.
  lemma BacklogAtStart(s: State)
    requires Sound(s) && Enabled(s, Receive) && !s.miner.scanning && Received(s).miner.scanning
    ensures Received(s).backlog == |Received(s).messages|
  {
    hide Top, Prio;
  }

  // The next message is this paused block, and handling it replaces a newer block of its chain.
  predicate Overwrites(t: State, m: Message) {
    && WellSized(t) && !t.trigger && |t.messages| > 0 && t.messages[0] == m && m.RescheduleBlock?
    && m.chain < |t.latest| && m.chain !in t.queued && m.info != t.latest[m.chain]
  }

  lemma OverwrittenNext(t: State)
    requires Sound(t) && |t.messages| > 0 && Overwrites(t, t.messages[0])
    ensures var c := t.messages[0].chain; Received(t).infos[c] != Received(t).latest[c]
  {
  }

  // ----- no run drains the queue faster -----

  lemma AfterShrinks(queued: set<nat>, more: set<nat>, chains: nat)
    requires queued <= more && forall c :: c in more ==> c < chains
    ensures After(queued, ProcessBlock, chains) <= After(more, ProcessBlock, chains)
    ensures After(more, ProcessBlock, chains) <= more
  {
    hide Top;
  }

  lemma ReceiveQueue(s: State, queued: set<nat>)
    requires Sound(s) && Enabled(s, Receive) && queued <= s.queued
    ensures After(queued, s.messages[0], |s.infos|) <= Received(s).queued
    ensures !(s.messages[0].ProcessBlock? && s.miner.scanning) ==>
      Received(s).queued == After(s.queued, s.messages[0], |s.infos|)
    ensures s.messages[1..] <= Received(s).messages
    ensures |Received(s).infos| == |s.infos| && |Received(s).latest| == |s.latest|
    ensures forall c :: 0 <= c < |s.latest| ==> Received(s).latest[c] == Newest(s.latest[c], c, [s.messages[0]])
  {
    hide Top, FollowedUp, Preempts, NoStall, GoodCause, ResumeOwned, AtMostOneRound;
    assert s.messages[0] in s.messages;
    AfterShrinks(queued, s.queued, |s.infos|);
    assert [s.messages[0]][1..] == [];
  }

  lemma OtherStep(s: State, step: Step)
    requires Sound(s) && Enabled(s, step) && !step.Receive?
    ensures var t := Apply(s, step);
      t.queued == s.queued && |t.infos| == |s.infos| && t.latest == s.latest && s.messages <= t.messages
  {
    hide Sound;
  }

  // Whatever happens, when the messages in front of m have been handled, m is next, at least what
  // draining leaves is still queued, and the newest block of every chain is known.
  lemma {:induction false} Ahead(s: State, steps: seq<Step>, queued: set<nat>, ms: seq<Message>, m: Message)
    requires Sound(s) && Legal(s, steps) && Receives(steps) == |ms| && ms + [m] <= s.messages && queued <= s.queued
    ensures var t := Final(s, steps);
      && WellSized(t) && |t.latest| == |s.latest| == |s.infos| && |t.messages| > 0 && t.messages[0] == m
      && Drained(queued, ms, |s.infos|) <= t.queued
      && forall c :: 0 <= c < |s.latest| ==> t.latest[c] == Newest(s.latest[c], c, ms)
    decreases |steps|
  {
    hide Sound, Apply, Received, Enabled, After;
    WellSizedOf(s);
    if |steps| == 0 {
      assert s.messages[0] == (ms + [m])[0];
    } else {
      StepKeepsSound(s, steps[0]);
      var next := Apply(s, steps[0]);
      if steps[0].Receive? {
        var rest := ms[1..];
        assert ms[0] == (ms + [m])[0] == s.messages[0];
        ApplyReceive(s);
        ReceiveQueue(s, queued);
        assert (ms + [m])[1..] == rest + [m] <= s.messages[1..];
        Ahead(next, steps[1..], After(queued, ms[0], |s.infos|), rest, m);
        assert forall c :: 0 <= c < |s.latest| ==>
          Newest(s.latest[c], c, ms) == Newest(Newest(s.latest[c], c, [ms[0]]), c, rest) by { NewestSteps(s, ms); }
      } else {
        OtherStep(s, steps[0]);
        Ahead(next, steps[1..], queued, ms, m);
      }
    }
  }

  lemma ApplyReceive(s: State)
    requires Sound(s) && Enabled(s, Receive)
    ensures Apply(s, Receive) == Received(s)
  {
  }

  lemma NewestSteps(s: State, ms: seq<Message>)
    requires |ms| > 0
    ensures forall c :: 0 <= c < |s.latest| ==>
      Newest(s.latest[c], c, ms) == Newest(Newest(s.latest[c], c, [ms[0]]), c, ms[1..])
  {
    assert [ms[0]][1..] == [];
  }

  // ----- one run does drain it -----

  lemma Prepend(s: State, step: Step, rest: seq<Step>)
    requires Sound(s) && Enabled(s, step) && Sound(Apply(s, step)) && Legal(Apply(s, step), rest)
    ensures Legal(s, [step] + rest) && Final(s, [step] + rest) == Final(Apply(s, step), rest)
    ensures Receives([step] + rest) == Receives(rest) + if step.Receive? then 1 else 0
  {
    hide Sound, Apply, Enabled;
    assert ([step] + rest)[1..] == rest;
  }

  // End every round before the next trigger is handled.
  lemma {:induction false} Drive(s: State, ms: seq<Message>) returns (steps: seq<Step>)
    requires Sound(s) && ms <= s.messages
    ensures Legal(s, steps) && Receives(steps) == |ms|
    ensures Final(s, steps).queued == Drained(s.queued, ms, |s.infos|) && !Final(s, steps).trigger
    decreases |ms|, if s.trigger then 1 else 0, if s.miner.scanning then 1 else 0
  {
    hide Sound, Apply, Received, Enabled, After, Legal, Final;
    WellSizedOf(s);
    if s.trigger {
      steps := DriveOther(s, Trigger, ms);
    } else if |ms| == 0 {
      steps := [];
      NoSteps(s);
    } else if ms[0].ProcessBlock? && s.miner.scanning {
      var round := RoundOf(s);
      steps := DriveOther(s, EndRound(false, ResumeInfo([], 0, round.info)), ms);
    } else {
      assert ms[0] == s.messages[0];
      ReceiveEnabled(s);
      StepKeepsSound(s, Receive);
      ApplyReceive(s);
      ReceiveQueue(s, s.queued);
      assert ms[1..] <= s.messages[1..];
      var rest := Drive(Apply(s, Receive), ms[1..]);
      Prepend(s, Receive, rest);
      steps := [Receive] + rest;
    }
  }

  lemma DriveOther(s: State, step: Step, ms: seq<Message>) returns (steps: seq<Step>)
    requires Sound(s) && ms <= s.messages
    requires (s.trigger && step == Trigger) || (!s.trigger && s.miner.scanning && step.EndRound? && !step.interrupted)
    requires step.EndRound? ==> |s.rounds| > 0 && step.resume.block == s.rounds[0].info
    ensures Legal(s, steps) && Receives(steps) == |ms|
    ensures Final(s, steps).queued == Drained(s.queued, ms, |s.infos|) && !Final(s, steps).trigger
    decreases |ms|, if s.trigger then 1 else 0, if s.miner.scanning then 1 else 0, 0
  {
    hide Sound, Received, After, Legal, Final;
    StepKeepsSound(s, step);
    OtherStep(s, step);
    var rest := Drive(Apply(s, step), ms);
    Prepend(s, step, rest);
    steps := [step] + rest;
  }

  lemma NoSteps(s: State)
    requires Sound(s)
    ensures Legal(s, []) && Final(s, []) == s && Receives([]) == 0
  {
  }

  lemma ReceiveEnabled(s: State)
    requires Sound(s) && !s.trigger && |s.messages| > 0
    ensures Enabled(s, Receive)
  {
  }

  lemma RoundOf(s: State) returns (r: Round)
    requires Sound(s) && s.miner.scanning
    ensures |s.rounds| > 0 && r == s.rounds[0]
  {
    r := s.rounds[0];
  }

  // ----- exactly -----

  ghost predicate CanOverwrite(s: State, j: nat)
    requires Sound(s) && j < |s.messages|
  {
    exists steps :: Legal(s, steps) && Receives(steps) == j && Overwrites(Final(s, steps), s.messages[j])
  }

  // A paused block that waits at position j can come to replace a newer block of its chain if and
  // only if it is overtaken. In particular it cannot while its chain keeps a chain of higher
  // priority queued for every trigger in front of it, or no newer block of its chain is known or
  // waiting in front of it.
  lemma OvertakenExactly(s: State, j: nat)
    requires Sound(s) && j < |s.messages| && s.messages[j].RescheduleBlock?
    ensures WellSized(s)
    ensures CanOverwrite(s, j) <==> Overtaken(s, j)
  {
    hide Sound, Legal, Final, Receives, Drained, Newest;
    WellSizedOf(s);
    var ms, m := s.messages[..j], s.messages[j];
    assert ms + [m] == s.messages[..j + 1];
    assert m in s.messages;
    forall steps | Legal(s, steps) && Receives(steps) == j && Overwrites(Final(s, steps), m)
      ensures Overtaken(s, j)
    {
      Ahead(s, steps, s.queued, ms, m);
    }
    if Overtaken(s, j) {
      var steps := Drive(s, ms);
      Ahead(s, steps, s.queued, ms, m);
      assert Overwrites(Final(s, steps), m);
    }
  }
}
