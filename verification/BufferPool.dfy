// The buffers of a mining round: taken from a bounded pool by the readers, carried to the
// collector in messages, hashed, and given back, while rounds follow one another.
module BufferPool {
  import opened Plots

  // ----- counting -----

  function Count<T>(s: seq<T>, f: T -> bool): (n: nat)
    ensures n <= |s|
  {
    if |s| == 0 then 0 else Count(s[..|s| - 1], f) + if f(s[|s| - 1]) then 1 else 0
  }

  lemma CountAdd<T>(s: seq<T>, x: T, f: T -> bool)
    ensures Count(s + [x], f) == Count(s, f) + if f(x) then 1 else 0
  {
    assert (s + [x])[..|s|] == s;
  }

  lemma {:induction false} CountRest<T>(s: seq<T>, f: T -> bool)
    requires |s| > 0
    ensures Count(s, f) == Count(s[1..], f) + if f(s[0]) then 1 else 0
  {
    if |s| == 1 {
      assert s[..0] == [] && s[1..] == [];
    } else {
      CountRest(s[..|s| - 1], f);
      assert s[..|s| - 1][1..] == s[1..][..|s| - 2];
    }
  }

  lemma {:induction false} CountUpdate<T>(s: seq<T>, r: nat, x: T, f: T -> bool)
    requires r < |s|
    ensures Count(s[r := x], f) + (if f(s[r]) then 1 else 0) == Count(s, f) + if f(x) then 1 else 0
  {
    var n := |s| - 1;
    if r == n {
      assert s[r := x][..n] == s[..n];
    } else {
      CountUpdate(s[..n], r, x, f);
      assert s[r := x][..n] == s[..n][r := x];
    }
  }

  lemma {:induction false} CountBounds<T>(s: seq<T>, f: T -> bool)
    ensures Count(s, f) == |s| <==> forall i :: 0 <= i < |s| ==> f(s[i])
    ensures Count(s, f) == 0 <==> forall i :: 0 <= i < |s| ==> !f(s[i])
  {
    if |s| > 0 {
      var t := s[..|s| - 1];
      CountBounds(t, f);
      assert forall i :: 0 <= i < |t| ==> s[i] == t[i];
    }
  }

  // ----- state -----

  datatype Sent = Sent(reader: nat, event: Event)

  // total: buffers created; late: readers of earlier rounds that still have to give a buffer back;
  // over: readers of this round whose end the collector has seen.
  datatype Pool = Pool(total: nat, free: nat, readers: seq<Phase>, late: nat, messages: seq<Sent>, hashing: nat,
                       over: nat, active: bool)

  predicate Holds(p: Phase) {
    p.Holding? || p.Returning?
  }

  predicate Ended(p: Phase) {
    p.Returning? || p.Over?
  }

  predicate Carries(m: Sent) {
    m.event.Data?
  }

  predicate Closes(m: Sent) {
    m.event.ScanInterrupted? || m.event.ScanFinished?
  }

  datatype Step =
    | Act(reader: nat, event: Event)
    | Collect(ioBench: bool)
    | Hashed
    | LateReturn
    | EndRound
    | StartRound

  // The collector compares its counts after a message, so a round ends with the last closing message.
  predicate Enabled(s: Pool, step: Step) {
    match step
    case Act(r, e) => r < |s.readers| && !Advance(s.readers[r], e).Stuck? && (e.Taken? ==> s.free > 0)
    case Collect(_) => s.active && s.over < |s.readers| && |s.messages| > 0
    case Hashed => s.hashing > 0
    case LateReturn => s.late > 0
    case EndRound => s.active && s.over == |s.readers| > 0
    case StartRound => !s.active
  }

  function Acted(s: Pool, r: nat, e: Event): Pool
    requires Enabled(s, Act(r, e))
  {
    s.(readers := s.readers[r := Advance(s.readers[r], e)],
       free := if e.Taken? then s.free - 1 else if e.Returned? then s.free + 1 else s.free,
       messages := if e.Taken? || e.Returned? || e.ReadFailed? then s.messages else s.messages + [Sent(r, e)])
  }

  function Collected(s: Pool, ioBench: bool): Pool
    requires |s.messages| > 0
  {
    var m := s.messages[0];
    s.(messages := s.messages[1..],
       free := if Carries(m) && ioBench then s.free + 1 else s.free,
       hashing := if Carries(m) && !ioBench then s.hashing + 1 else s.hashing,
       over := if Closes(m) then s.over + 1 else s.over)
  }

  // The channel of a round goes away with the round, and with it whatever is still in it.
  function Apply(s: Pool, step: Step): Pool
    requires Enabled(s, step)
  {
    match step
    case Act(r, e) => Acted(s, r, e)
    case Collect(ioBench) => Collected(s, ioBench)
    case Hashed => s.(hashing := s.hashing - 1, free := s.free + 1)
    case LateReturn => s.(late := s.late - 1, free := s.free + 1)
    case EndRound => s.(active := false, messages := [])
    case StartRound =>
      s.(late := s.late + Count(s.readers, (p: Phase) => p.Returning?),
         readers := seq(|s.readers|, _ => Idle), over := 0, active := true)
  }

  predicate Start(s: Pool) {
    s.free == s.total && s.late == 0 && s.hashing == 0 && s.messages == [] && !s.active
    && s.over == |s.readers| && forall r :: 0 <= r < |s.readers| ==> s.readers[r] == Over
  }

  // ----- invariant -----

  predicate Conserved(s: Pool) {
    s.free + Count(s.readers, Holds) + s.late + Count(s.messages, Carries) + s.hashing == s.total
  }

  predicate ClosedLater(messages: seq<Sent>, i: nat)
    requires i < |messages|
  {
    exists j :: i < j < |messages| && Closes(messages[j]) && messages[j].reader == messages[i].reader
  }

  // A reader's last word comes after all its buffers.
  predicate InOrder(s: Pool) {
    forall i :: 0 <= i < |s.messages| && Carries(s.messages[i]) ==>
      s.messages[i].reader < |s.readers| && (!Ended(s.readers[s.messages[i].reader]) || ClosedLater(s.messages, i))
  }

  predicate Sound(s: Pool) {
    && Conserved(s) && InOrder(s)
    && s.over + Count(s.messages, Closes) == Count(s.readers, Ended)
    && (forall r :: 0 <= r < |s.readers| ==> !s.readers[r].Stuck?)
    && (!s.active ==> s.messages == [] && s.over == |s.readers|)
  }

  lemma StartIsSound(s: Pool)
    requires Start(s)
    ensures Sound(s)
  {
    CountBounds(s.readers, Holds);
    CountBounds(s.readers, Ended);
  }

  // A buffer that comes back always finds room in the bounded pool.
  lemma ReturnFits(s: Pool, step: Step)
    requires Sound(s) && Enabled(s, step)
    ensures Apply(s, step).free <= s.total
  {
    hide InOrder;
    match step
    case Act(r, e) => CountBounds(s.readers, Holds);
    case Collect(_) => CountBounds(s.messages, Carries);
    case _ =>
  }

  // When the collector has heard the end of every reader, no buffer is left in its channel.
  lemma NothingStranded(s: Pool)
    requires Sound(s) && s.over == |s.readers|
    ensures Count(s.messages, Carries) == 0
    ensures forall r :: 0 <= r < |s.readers| ==> Ended(s.readers[r])
  {
    CountBounds(s.readers, Ended);
    CountBounds(s.messages, Closes);
    CountBounds(s.messages, Carries);
  }

  lemma ActKeepsSound(s: Pool, r: nat, e: Event)
    requires Sound(s) && Enabled(s, Act(r, e))
    ensures Sound(Acted(s, r, e))
  {
    hide Count;
    var t, p := Acted(s, r, e), Advance(s.readers[r], e);
    CountUpdate(s.readers, r, p, Holds);
    CountUpdate(s.readers, r, p, Ended);
    CountAdd(s.messages, Sent(r, e), Carries);
    CountAdd(s.messages, Sent(r, e), Closes);
    if !s.active {
      NothingStranded(s);
    }
    forall i | 0 <= i < |t.messages| && Carries(t.messages[i])
      ensures t.messages[i].reader < |t.readers|
      ensures !Ended(t.readers[t.messages[i].reader]) || ClosedLater(t.messages, i)
    {
      if i < |s.messages| {
        assert t.messages[i] == s.messages[i];
        if Ended(s.readers[s.messages[i].reader]) {
          var j :| i < j < |s.messages| && Closes(s.messages[j]) && s.messages[j].reader == s.messages[i].reader;
          assert t.messages[j] == s.messages[j];
        } else if Ended(p) && s.messages[i].reader == r {
          assert Closes(t.messages[|s.messages|]);
        }
      }
    }
  }

  lemma CollectKeepsSound(s: Pool, ioBench: bool)
    requires Sound(s) && Enabled(s, Collect(ioBench))
    ensures Sound(Collected(s, ioBench))
  {
    hide Count;
    var t := Collected(s, ioBench);
    CountRest(s.messages, Carries);
    CountRest(s.messages, Closes);
    forall i | 0 <= i < |t.messages| && Carries(t.messages[i])
      ensures t.messages[i].reader < |t.readers|
      ensures !Ended(t.readers[t.messages[i].reader]) || ClosedLater(t.messages, i)
    {
      assert t.messages[i] == s.messages[i + 1];
      if Ended(s.readers[s.messages[i + 1].reader]) {
        var j :| i + 1 < j < |s.messages| && Closes(s.messages[j]) && s.messages[j].reader == s.messages[i + 1].reader;
        assert t.messages[j - 1] == s.messages[j];
      }
    }
  }

  lemma RoundsKeepSound(s: Pool, step: Step)
    requires Sound(s) && (step.EndRound? || step.StartRound?) && Enabled(s, step)
    ensures Sound(Apply(s, step))
  {
    NothingStranded(s);
    var t := Apply(s, step);
    CountBounds(t.readers, Holds);
    CountBounds(t.readers, Ended);
    if step.StartRound? {
      SameCount(s.readers, Holds, (p: Phase) => p.Returning?);
    }
  }

  lemma {:induction false} SameCount<T>(s: seq<T>, f: T -> bool, g: T -> bool)
    requires forall i :: 0 <= i < |s| ==> f(s[i]) == g(s[i])
    ensures Count(s, f) == Count(s, g)
  {
    if |s| > 0 {
      SameCount(s[..|s| - 1], f, g);
    }
  }

  // ----- every run -----

  predicate Legal(s: Pool, steps: seq<Step>)
    decreases |steps|, 0
  {
    |steps| == 0 || (Legal(s, steps[..|steps| - 1]) && Enabled(Final(s, steps[..|steps| - 1]), steps[|steps| - 1]))
  }

  function Final(s: Pool, steps: seq<Step>): Pool
    requires Legal(s, steps)
    decreases |steps|, 1
  {
    if |steps| == 0 then s else Apply(Final(s, steps[..|steps| - 1]), steps[|steps| - 1])
  }

  // In every reachable state the buffers add up, whatever readers, collector and hashers do.
  lemma {:induction false} EveryRunConserves(s: Pool, steps: seq<Step>)
    requires Start(s) && Legal(s, steps)
    ensures var t := Final(s, steps);
      && t.total == s.total && |t.readers| == |s.readers| && Sound(t)
      && t.free + Count(t.readers, Holds) + t.late + Count(t.messages, Carries) + t.hashing == s.total
  {
    hide Count, InOrder;
    if |steps| == 0 {
      StartIsSound(s);
    } else {
      var n := |steps| - 1;
      EveryRunConserves(s, steps[..n]);
      StepKeepsSound(Final(s, steps[..n]), steps[n]);
    }
  }

  // Rounds start and end in turn: every round but the one going on has ended.
  lemma {:induction false} RoundsInTurn(s: Pool, steps: seq<Step>)
    requires Start(s) && Legal(s, steps)
    ensures Count(steps, (x: Step) => x.StartRound?)
         == Count(steps, (x: Step) => x.EndRound?) + if Final(s, steps).active then 1 else 0
    ensures |steps| > 0 && steps[|steps| - 1].EndRound? ==> Final(s, steps).messages == []
  {
    if |steps| > 0 {
      RoundsInTurn(s, steps[..|steps| - 1]);
    }
  }

  lemma StepKeepsSound(s: Pool, step: Step)
    requires Sound(s) && Enabled(s, step)
    ensures Sound(Apply(s, step))
  {
    hide Count;
    match step
    case Act(r, e) => ActKeepsSound(s, r, e);
    case Collect(ioBench) => CollectKeepsSound(s, ioBench);
    case EndRound => RoundsKeepSound(s, step);
    case StartRound => RoundsKeepSound(s, step);
    case _ =>
  }

  // A round that is over and whose hashers are done leaves the pool full again.
  lemma PoolRefills(s: Pool)
    requires Sound(s) && !s.active && s.hashing == 0 && s.late == 0
    requires forall r :: 0 <= r < |s.readers| ==> s.readers[r].Over?
    ensures s.free == s.total
  {
    CountBounds(s.readers, Holds);
  }

  // A reader that waits for a buffer waits for somebody: one is held, on its way, or being hashed.
  lemma SomebodyHasIt(s: Pool)
    requires Sound(s) && s.total > 0 && s.free == 0
    ensures s.hashing > 0 || s.late > 0
      || (exists r :: 0 <= r < |s.readers| && Holds(s.readers[r]))
      || exists i :: 0 <= i < |s.messages| && Carries(s.messages[i])
  {
    CountBounds(s.readers, Holds);
    CountBounds(s.messages, Carries);
  }

  // Then somebody can move a buffer on towards the pool: a hasher, a late or a holding reader by
  // giving back, the collector by taking a message.
  predicate BringsBack(s: Pool, step: Step) {
    && Enabled(s, step)
    && (step.Hashed? || step.LateReturn? || step == Collect(false)
        || (step.Act? && step.event == Returned && Holds(s.readers[step.reader])))
  }

  lemma WaitingIsServed(s: Pool)
    requires Sound(s) && s.total > 0 && s.free == 0
    ensures exists step :: BringsBack(s, step)
  {
    hide InOrder;
    SomebodyHasIt(s);
    if s.hashing > 0 {
      assert BringsBack(s, Hashed);
    } else if s.late > 0 {
      assert BringsBack(s, LateReturn);
    } else if r :| 0 <= r < |s.readers| && Holds(s.readers[r]) {
      assert BringsBack(s, Act(r, Returned));
    } else {
      var i :| 0 <= i < |s.messages| && Carries(s.messages[i]);
      CountBounds(s.messages, Carries);
      CountBounds(s.readers, Ended);
      if s.active && s.over == |s.readers| {
        NothingStranded(s);
      }
      assert BringsBack(s, Collect(false));
    }
  }

  // A step that gets a round on: not the start of another one, and not a reader giving up.
  predicate GetsOn(s: Pool, step: Step) {
    Enabled(s, step) && !step.StartRound? && !(step.Act? && Closes(Sent(step.reader, step.event)))
  }

  // Without readers no message ever comes: a round that has started never ends, in any run.
  lemma {:induction false} NoReadersNoEnd(s: Pool, steps: seq<Step>)
    requires |s.readers| == 0 && s.active && Legal(s, steps)
    ensures Final(s, steps).active && |Final(s, steps).readers| == 0
    ensures EndRound !in steps
  {
    if |steps| > 0 {
      NoReadersNoEnd(s, steps[..|steps| - 1]);
    }
  }

  // No deadlock: while a round is not over, something gets it on.
  lemma NoDeadlock(s: Pool)
    requires Sound(s) && s.active && s.total > 0 && s.over < |s.readers|
    ensures exists step :: GetsOn(s, step)
  {
    hide InOrder;
    if s.free == 0 {
      WaitingIsServed(s);
      var step :| BringsBack(s, step);
      assert GetsOn(s, step);
    } else if |s.messages| > 0 {
      assert GetsOn(s, Collect(false));
    } else {
      CountBounds(s.readers, Ended);
      var r :| 0 <= r < |s.readers| && !Ended(s.readers[r]);
      assert GetsOn(s, Act(r, if s.readers[r].Idle? then Taken else Returned));
    }
  }

  // ----- the reader of a disk is such a reader -----

  // A reader that has come to its end has obeyed the order at every event, and holds nothing.
  lemma {:induction false} ReaderObeys(events: seq<Event>)
    requires PhaseOf(events) != Stuck
    ensures forall i :: 0 <= i < |events| ==> !Advance(PhaseOf(events[..i]), events[i]).Stuck?
    ensures Held(events) == if Holds(PhaseOf(events)) then 1 else 0
  {
    hide Advance, Holds;
    FirstPhase();
    if |events| > 0 {
      var n := |events| - 1;
      HandOver(PhaseOf(events[..n]), events[n]);
      ReaderObeys(events[..n]);
      forall i | 0 <= i < n
        ensures !Advance(PhaseOf(events[..i]), events[i]).Stuck?
      {
        assert events[..n][..i] == events[..i] && events[..n][i] == events[i];
      }
    }
  }

  lemma FirstPhase()
    ensures !Holds(Idle)
  {
  }

  lemma HandOver(p: Phase, e: Event)
    requires !Advance(p, e).Stuck?
    ensures !p.Stuck?
    ensures (if Holds(Advance(p, e)) then 1 else 0)
         == (if Holds(p) then 1 else 0) + (if e.Taken? then 1 else if e.Returned? || e.Data? then -1 else 0)
  {
  }
}
