// Scans that are interrupted and taken up again: what they deliver, what they pass over, and
// that an undisturbed scan delivers everything.
module Resumption {
  import opened Wrappers
  import opened Words
  import opened Plots
  import opened Cpu

  // ----- undisturbed scans -----

  // A file read from its start without an interrupt or an error: each compressed warp once, the
  // incomplete last group dropped. Only a buffer without room for a warp reads nothing.
  lemma FullCoverage(plot: PlotFile, turn: Turn, to: nat, cap: nat, config: Option<CompressionConfig>, scoop: nat)
    requires TurnOf(plot, turn, 0, to, cap, config, scoop) && cap > 0 && !ActionFor(plot, config).Skip?
    requires !Has(turn.events, ScanInterrupted) && !Has(turn.events, ReadFailed)
    ensures to == plot.warps
    ensures Delivered(turn.events) == Range(0, Groups(plot.warps, GroupSize(plot, config)))
  {
    hide ActionFor, Foldable, AllFaithful, Held, PhaseOf, Delivered, Has, Range, Lost;
    DivModUnique(0, GroupSize(plot, config), 0, 0);
  }

  // A round that starts over: file by file, everything is delivered unless something happens.
  method ScanFromStart(cpu: Features, plots: seq<PlotFile>, cap: nat, config: Option<CompressionConfig>, scoop: nat)
    returns (events: seq<Event>, interrupted: bool, ghost turns: seq<Turn>)
    requires Distinct(plots) && (forall p :: p in plots ==> p.Valid()) && GoodConfig(config, cap) && cap > 0
    modifies plots
    ensures Ready(plots, cap)
    ensures |turns| <= |plots| && events == AllEvents(turns) + if interrupted then [] else [ScanFinished]
    ensures !Has(events, ScanInterrupted) && !Has(events, ReadFailed) ==>
      |turns| == |plots| && forall i :: 0 <= i < |plots| ==>
        Covered(plots[i], turns[i].events, plots[i].readProgress, config)
  {
    hide Distinct, GoodConfig, TookTurns, TurnOf, Covered, Has, AllEvents;
    Reset(plots, cap);
    ghost var was := Progress(plots);
    events, interrupted, turns := ReadDisk(cpu, plots, cap, config, scoop);
    TurnsTaken(plots, turns, was, Progress(plots), cap, config, scoop);
    HasConcat(AllEvents(turns), if interrupted then [] else [ScanFinished]);
    if !Has(events, ScanInterrupted) && !Has(events, ReadFailed) {
      forall i | 0 <= i < |turns|
        ensures Covered(plots[i], turns[i].events, plots[i].readProgress, config) && turns[i].status != Paused
      {
        InAllEvents(turns, i);
        Undisturbed(plots[i], turns[i], plots[i].readProgress, cap, config, scoop);
      }
    }
  }

  // All compressed warps of the file, each once, in order, or none if the chain does not want the file.
  ghost predicate Covered(plot: PlotFile, events: seq<Event>, progress: nat, config: Option<CompressionConfig>) {
    if ActionFor(plot, config).Skip? then events == [] && progress == 0
    else progress == plot.warps && Delivered(events) == Range(0, Groups(plot.warps, GroupSize(plot, config)))
  }

  lemma Undisturbed(plot: PlotFile, turn: Turn, to: nat, cap: nat, config: Option<CompressionConfig>, scoop: nat)
    requires TurnOf(plot, turn, 0, to, cap, config, scoop) && cap > 0
    requires !Has(turn.events, ScanInterrupted) && !Has(turn.events, ReadFailed)
    ensures Covered(plot, turn.events, to, config) && turn.status != Paused
  {
    hide ActionFor, Scanned, Foldable, AllFaithful, Held, PhaseOf, Delivered, Has, Lost, Range;
    if !ActionFor(plot, config).Skip? {
      FullCoverage(plot, turn, to, cap, config, scoop);
    }
  }

  lemma TurnsTaken(plots: seq<PlotFile>, turns: seq<Turn>, was: seq<nat>, now: seq<nat>, cap: nat,
                   config: Option<CompressionConfig>, scoop: nat)
    requires TookTurns(plots, turns, was, now, cap, config, scoop)
    ensures |turns| <= |plots| == |was| == |now|
    ensures forall i :: 0 <= i < |turns| ==> TurnOf(plots[i], turns[i], was[i], now[i], cap, config, scoop)
    ensures forall i :: |turns| <= i < |plots| ==> now[i] == was[i]
  {
    hide TurnOf;
  }

  lemma HasConcat(x: seq<Event>, y: seq<Event>)
    ensures forall e :: Has(x + y, e) <==> Has(x, e) || Has(y, e)
  {
  }

  lemma {:induction false} InAllEvents(turns: seq<Turn>, i: nat)
    requires i < |turns|
    ensures forall e :: Has(turns[i].events, e) ==> Has(AllEvents(turns), e)
  {
    hide Has;
    var n := |turns| - 1;
    HasConcat(AllEvents(turns[..n]), turns[n].events);
    if i < n {
      InAllEvents(turns[..n], i);
    }
  }

  // ----- pauses -----

  ghost predicate Resumed(turns: seq<Turn>, progress: seq<nat>, k: nat) {
    && |progress| == |turns| + 1
    && forall i :: 0 <= i < |turns| ==> Scanned(turns[i].events, progress[i], progress[i + 1], turns[i].hi, k)
  }

  ghost predicate Increasing(s: seq<nat>, lo: nat, hi: nat) {
    && (forall i :: 0 <= i < |s| ==> lo <= s[i] < hi)
    && (forall i, j :: 0 <= i < j < |s| ==> s[i] < s[j])
  }

  // However often a scan is paused and resumed, no warp is delivered twice.
  lemma {:induction false} AtMostOnce(turns: seq<Turn>, progress: seq<nat>, k: nat)
    requires k > 0 && Resumed(turns, progress, k)
    ensures progress[0] / k <= progress[|turns|] / k
    ensures Increasing(Delivered(AllEvents(turns)), progress[0] / k, progress[|turns|] / k)
  {
    if |turns| > 0 {
      var n := |turns| - 1;
      var first, last := turns[..n], turns[n];
      AtMostOnce(first, progress[..n + 1], k);
      assert Scanned(last.events, progress[n], progress[n + 1], last.hi, k);
      EventsConcat(AllEvents(first), last.events);
    }
  }

  // How many warps the last buffer of a file holds.
  function LastFill(warps: nat, cap: nat): nat {
    if warps > 0 && cap > 0 then (warps - 1) % cap + 1 else 0
  }

  // The start of the buffer that was being filled when the progress got where it is.
  function BufferStart(progress: nat, cap: nat): nat {
    if progress > 0 && cap > 0 then (progress - 1) / cap * cap else 0
  }

  // Buffers start at multiples of their size, and progress stops within the one that started last
  // before it or at its end; the last buffer of a file is not empty unless the file is.
  lemma BuffersAre(progress: nat, warps: nat, cap: nat)
    requires cap > 0
    ensures BufferStart(progress, cap) % cap == 0
    ensures progress == 0 ==> BufferStart(progress, cap) == 0
    ensures progress > 0 ==> BufferStart(progress, cap) < progress <= BufferStart(progress, cap) + cap
    ensures LastFill(warps, cap) == warps - BufferStart(warps, cap)
  {
    if progress > 0 {
      DivParts(progress - 1, cap);
      DivModUnique(BufferStart(progress, cap), cap, (progress - 1) / cap, 0);
    } else {
      DivModUnique(0, cap, 0, 0);
    }
    if warps > 0 {
      DivParts(warps - 1, cap);
    }
  }

  // Of the warps from where the first turn started to where the second one ended, the two deliver
  // all but those of the buffer that was being filled when the progress was saved.
  ghost predicate MissesBuffer(first: seq<Event>, second: seq<Event>, from: nat, saved: nat, hi: nat, cap: nat,
                               k: nat) {
    && k > 0 && cap > 0 && saved > 0
    && from / k <= BufferStart(saved, cap) / k <= saved / k <= hi
    && Delivered(first) == Range(from / k, BufferStart(saved, cap) / k)
    && Delivered(second) == Range(saved / k, hi)
    && Delivered(first + second) == Delivered(first) + Delivered(second)
  }

  ghost predicate NothingMissed(events: seq<Event>, from: nat, hi: nat, k: nat) {
    k > 0 && Delivered(events) == Range(from / k, hi)
  }

  // One turn ends with a pause, the other starts from the progress that was saved.
  ghost predicate Continued(plot: PlotFile, first: Turn, second: Turn, from: nat, saved: nat, to: nat, cap: nat,
                            config: Option<CompressionConfig>, scoop: nat) {
    && TurnOf(plot, first, from, saved, cap, config, scoop) && first.status == Paused
    && TurnOf(plot, second, saved, to, cap, config, scoop)
    && GoodConfig(config, cap) && saved <= plot.warps && Aligned(saved, cap, plot.warps)
  }

  // A reader that was interrupted has delivered everything before its last buffer, and nothing of it.
  lemma PausedAt(progress: nat, hi: nat, cap: nat, k: nat)
    requires k > 0 && Lost(progress, hi, cap, k)
    ensures cap > 0 && progress > 0 && BufferStart(progress, cap) == hi * k
  {
    DivModUnique(progress - 1, cap, hi * k / cap, progress - 1 - hi * k);
    DivParts(hi * k, cap);
  }

  // Nothing of it was worth delivering just if it held the last warps of the file, too few for a group.
  lemma LastBuffer(progress: nat, cap: nat, k: nat, warps: nat)
    requires k > 0 && cap > 0 && cap % k == 0 && 0 < progress <= warps && Aligned(progress, cap, warps)
    ensures BufferStart(progress, cap) / k == progress / k <==> progress == warps && LastFill(warps, cap) < k
  {
    var start, rest := BufferStart(progress, cap), (progress - 1) % cap + 1;
    DivParts(progress - 1, cap);
    DivModUnique(start, cap, (progress - 1) / cap, 0);
    MultipleOfMultiple(start, cap, k);
    QuotientsAdd(start, rest, k);
    QuotientZero(rest, k);
    DivisorFits(cap, k);
    if progress % cap == 0 {
      DivParts(progress, cap);
      DivModUnique(progress - 1, cap, progress / cap - 1, cap - 1);
    }
  }

  lemma DivisorFits(x: nat, k: nat)
    requires x > 0 && k > 0 && x % k == 0
    ensures k <= x
  {
  }

  lemma QuotientZero(x: nat, k: nat)
    requires k > 0
    ensures x / k == 0 <==> x < k
  {
    DivParts(x, k);
    MulMono(1, x / k, k);
  }

  // A file whose scan is paused and resumed, so that the second turn starts where the first
  // stopped. The warps in the buffer that was being filled are never delivered: which ones
  // they are follows from the saved progress. There are none if and only if the whole file had been
  // read and its last buffer was too short for one compressed warp.
  lemma MissedByPause(plot: PlotFile, first: Turn, second: Turn, from: nat, saved: nat, to: nat, cap: nat,
                      config: Option<CompressionConfig>, scoop: nat)
    requires Continued(plot, first, second, from, saved, to, cap, config, scoop)
    ensures MissesBuffer(first.events, second.events, from, saved, second.hi, cap, GroupSize(plot, config))
    ensures NothingMissed(first.events + second.events, from, second.hi, GroupSize(plot, config))
       <==> saved == plot.warps && LastFill(plot.warps, cap) < GroupSize(plot, config)
  {
    hide Aligned, GoodConfig, TurnOf, GroupSize, Scanned, Lost, MissesBuffer, NothingMissed, BufferStart, LastFill;
    var k := GroupSize(plot, config);
    TurnScanned(plot, first, from, saved, cap, config, scoop);
    TurnScanned(plot, second, saved, to, cap, config, scoop);
    Gap(first.events, second.events, from, saved, to, first.hi, second.hi, cap, k);
    StepsFit(plot, config, cap);
    LastBuffer(saved, cap, k, plot.warps);
  }

  // What lies between where the first turn stopped delivering and where the second one starts.
  lemma Gap(first: seq<Event>, second: seq<Event>, from: nat, saved: nat, to: nat, hi: nat, last: nat, cap: nat, k: nat)
    requires Scanned(first, from, saved, hi, k) && Lost(saved, hi, cap, k) && Scanned(second, saved, to, last, k)
    ensures MissesBuffer(first, second, from, saved, last, cap, k) && cap > 0 && saved > 0
    ensures NothingMissed(first + second, from, last, k) <==> BufferStart(saved, cap) / k == saved / k
  {
    hide Delivered, Range, BufferStart, Held, PhaseOf, Has;
    PausedAt(saved, hi, cap, k);
    DivModUnique(hi * k, k, hi, 0);
    EventsConcat(first, second);
    RangeLengths(from / k, hi, saved / k, last);
  }

  lemma TurnScanned(plot: PlotFile, turn: Turn, from: nat, to: nat, cap: nat, config: Option<CompressionConfig>,
                    scoop: nat)
    requires TurnOf(plot, turn, from, to, cap, config, scoop)
    ensures Scanned(turn.events, from, to, turn.hi, GroupSize(plot, config))
    ensures turn.status == Paused ==> Lost(to, turn.hi, cap, GroupSize(plot, config))
  {
  }

  lemma RangeLengths(a: nat, b: nat, c: nat, d: nat)
    requires a <= b <= c <= d
    ensures Range(a, b) + Range(c, d) == Range(a, d) <==> b == c
  {
    RangeGrows(a, b, d);
  }

  // Without compression on the fly every pause loses warps for good.
  lemma EveryPlainPauseLoses(plot: PlotFile, first: Turn, second: Turn, from: nat, saved: nat, to: nat, cap: nat,
                             config: Option<CompressionConfig>, scoop: nat)
    requires Continued(plot, first, second, from, saved, to, cap, config, scoop)
    requires ActionFor(plot, config).MineNormal?
    ensures !NothingMissed(first.events + second.events, from, second.hi, 1)
  {
    hide Continued, Delivered, Range;
    MissedByPause(plot, first, second, from, saved, to, cap, config, scoop);
    OneWhole();
    assert GroupSize(plot, config) == 1 && from / 1 == from;
  }

  // A pause that loses: interrupted while it fills its first buffer, any uncompressed scan of
  // any file stops with nothing delivered and warps passed over.
  lemma FirstBufferLost(plot: PlotFile, cap: nat, scoop: nat)
    requires plot.warps > 0 && cap > 0
    ensures var total := Min(cap, plot.warps);
      var turn := Turn([Taken, WarpsProcessed(total), ScanInterrupted, Returned], Paused, 0);
      TurnOf(plot, turn, 0, total, cap, None, scoop) && Delivered(turn.events) == [] != Range(0, total)
  {
    var total := Min(cap, plot.warps);
    var events := [Taken, WarpsProcessed(total), ScanInterrupted, Returned];
    Opening([WarpsProcessed(total), ScanInterrupted, Returned]);
    assert events == [Taken] + [WarpsProcessed(total), ScanInterrupted, Returned];
    OneWhole();
  }

  // ----- any number of pauses -----

  // The turns a file has taken in the rounds of one block, and its progress before, between and after them.
  datatype History = History(turns: seq<Turn>, progress: seq<nat>)

  ghost predicate Recorded(plot: PlotFile, h: History, cap: nat, config: Option<CompressionConfig>, scoop: nat) {
    && |h.progress| == |h.turns| + 1 && h.progress[0] == 0
    && forall j :: 0 <= j < |h.turns| ==> TurnOf(plot, h.turns[j], h.progress[j], h.progress[j + 1], cap, config, scoop)
  }

  function Last(h: History): nat {
    if |h.progress| > 0 then h.progress[|h.progress| - 1] else 0
  }

  // The first warp that a turn does not deliver: a pause and a read error leave the buffer that was
  // being filled, and a read error all that comes after it.
  function Stop(turn: Turn, to: nat, cap: nat, k: nat): nat {
    match turn.status
    case Paused => Groups(BufferStart(to, cap), k)
    case Failed => turn.hi
    case _ => Groups(to, k)
  }

  // A turn passed over warp w.
  ghost predicate MissedIn(h: History, j: int, cap: nat, k: nat, w: nat) {
    && 0 <= j < |h.turns| && j + 1 < |h.progress|
    && Stop(h.turns[j], h.progress[j + 1], cap, k) <= w < Groups(h.progress[j + 1], k)
  }

  ghost predicate Missed(h: History, cap: nat, k: nat, w: nat) {
    exists j :: MissedIn(h, j, cap, k, w)
  }

  // However often the scan of a file is paused and resumed, whatever other chains scan in between,
  // and wherever a read fails: of the warps its progress has passed, those that a pause or a read error
  // left behind are never delivered, and all others are.
  lemma {:induction false} DeliveredOrMissed(plot: PlotFile, h: History, cap: nat, config: Option<CompressionConfig>,
                                             scoop: nat, w: nat)
    requires Recorded(plot, h, cap, config, scoop) && cap > 0
    ensures w in Delivered(AllEvents(h.turns)) <==>
      w < Groups(Last(h), GroupSize(plot, config)) && !Missed(h, cap, GroupSize(plot, config), w)
    ensures Missed(h, cap, GroupSize(plot, config), w) ==> w < Groups(Last(h), GroupSize(plot, config))
    decreases |h.turns|
  {
    hide TurnOf, GroupSize, Groups, Delivered, Stop, Range, Missed, MissedIn;
    var k, n := GroupSize(plot, config), |h.turns| - 1;
    if n < 0 {
      NothingYet(h, cap, k, w);
    } else {
      var before, turn := History(h.turns[..n], h.progress[..n + 1]), h.turns[n];
      assert TurnOf(plot, turn, h.progress[n], h.progress[n + 1], cap, config, scoop);
      RecordedBefore(plot, h, cap, config, scoop);
      EventsConcat(AllEvents(before.turns), turn.events);
      DeliveredOrMissed(plot, before, cap, config, scoop, w);
      LastTurn(plot, turn, h.progress[n], h.progress[n + 1], cap, config, scoop);
      MissedBefore(h, cap, k, w);
      MissedLast(h, cap, k, w);
      InRange(Groups(h.progress[n], k), turn.hi, w);
    }
  }

  lemma NothingYet(h: History, cap: nat, k: nat, w: nat)
    requires |h.turns| == 0 && |h.progress| == 1 && h.progress[0] == 0
    ensures Groups(Last(h), k) == 0 && !Missed(h, cap, k, w) && Delivered(AllEvents(h.turns)) == []
  {
    if k > 0 {
      DivModUnique(0, k, 0, 0);
    }
  }

  lemma RecordedBefore(plot: PlotFile, h: History, cap: nat, config: Option<CompressionConfig>, scoop: nat)
    requires Recorded(plot, h, cap, config, scoop) && |h.turns| > 0
    ensures var n := |h.turns| - 1; Recorded(plot, History(h.turns[..n], h.progress[..n + 1]), cap, config, scoop)
  {
    hide TurnOf;
    var n := |h.turns| - 1;
    forall j | 0 <= j < n
      ensures TurnOf(plot, h.turns[..n][j], h.progress[..n + 1][j], h.progress[..n + 1][j + 1], cap, config, scoop)
    {
      assert TurnOf(plot, h.turns[j], h.progress[j], h.progress[j + 1], cap, config, scoop);
    }
  }

  lemma MissedLast(h: History, cap: nat, k: nat, w: nat)
    requires |h.turns| > 0 && |h.progress| == |h.turns| + 1
    ensures var n := |h.turns| - 1;
      MissedIn(h, n, cap, k, w) <==>
        Stop(h.turns[n], Last(h), cap, k) <= w < Groups(Last(h), k)
  {
    hide Stop, Groups;
  }

  lemma InRange(lo: nat, hi: nat, w: nat)
    ensures w in Range(lo, hi) <==> lo <= w < hi
  {
    if lo <= w < hi {
      assert Range(lo, hi)[w - lo] == w;
    }
  }

  lemma MissedBefore(h: History, cap: nat, k: nat, w: nat)
    requires |h.turns| > 0 && |h.progress| == |h.turns| + 1
    ensures var n := |h.turns| - 1;
      Missed(h, cap, k, w) <==>
        Missed(History(h.turns[..n], h.progress[..n + 1]), cap, k, w) || MissedIn(h, n, cap, k, w)
  {
    hide Stop, Groups;
    var n := |h.turns| - 1;
    var before := History(h.turns[..n], h.progress[..n + 1]);
    assert forall j :: j < n ==> (MissedIn(before, j, cap, k, w) <==> MissedIn(h, j, cap, k, w));
  }

  // Where a turn has stopped delivering; after a read error that is the start of a buffer.
  lemma LastTurn(plot: PlotFile, turn: Turn, from: nat, to: nat, cap: nat, config: Option<CompressionConfig>,
                 scoop: nat)
    requires TurnOf(plot, turn, from, to, cap, config, scoop) && cap > 0
    ensures var k := GroupSize(plot, config);
      && Delivered(turn.events) == Range(Groups(from, k), turn.hi) && Groups(from, k) <= turn.hi <= Groups(to, k)
      && turn.hi == Stop(turn, to, cap, k)
      && (turn.status == Failed ==> turn.hi * k < plot.warps && turn.hi * k % cap == 0)
  {
    hide ActionFor, Foldable, AllFaithful, Held, PhaseOf, Delivered, Has, Range, BufferStart, Lost, GroupSize;
    var k := GroupSize(plot, config);
    if turn.status == Paused {
      PausedAt(to, turn.hi, cap, k);
      DivModUnique(turn.hi * k, k, turn.hi, 0);
    }
  }

  lemma HistoryOnce(plot: PlotFile, h: History, cap: nat, config: Option<CompressionConfig>, scoop: nat)
    requires Recorded(plot, h, cap, config, scoop)
    ensures Increasing(Delivered(AllEvents(h.turns)), 0, Groups(Last(h), GroupSize(plot, config)))
  {
    hide TurnOf, GroupSize;
    forall j | 0 <= j < |h.turns|
      ensures Scanned(h.turns[j].events, h.progress[j], h.progress[j + 1], h.turns[j].hi, GroupSize(plot, config))
    {
      TurnScanned(plot, h.turns[j], h.progress[j], h.progress[j + 1], cap, config, scoop);
    }
    AtMostOnce(h.turns, h.progress, GroupSize(plot, config));
    DivModUnique(0, GroupSize(plot, config), 0, 0);
  }

  // Another chain's scan of the same files, from the start or from progress it has saved.
  datatype Job = Job(config: Option<CompressionConfig>, scoop: nat, resume: Option<seq<nat>>)

  ghost predicate GoodJob(plots: seq<PlotFile>, cap: nat, job: Job) {
    && GoodConfig(job.config, cap)
    && (job.resume.Some? ==> SavedFor(plots, job.resume.value, cap))
  }

  ghost predicate SavedFor(plots: seq<PlotFile>, saved: seq<nat>, cap: nat) {
    |saved| == |plots| && forall i :: 0 <= i < |plots| ==>
      saved[i] <= plots[i].warps && Aligned(saved[i], cap, plots[i].warps)
  }

  function Extended(h: History, turns: seq<Turn>, i: nat, to: nat): History {
    if i < |turns| then History(h.turns + [turns[i]], h.progress + [to]) else h
  }

  lemma ExtendRecord(plot: PlotFile, h: History, turns: seq<Turn>, i: nat, to: nat, cap: nat,
                     config: Option<CompressionConfig>, scoop: nat)
    requires Recorded(plot, h, cap, config, scoop)
    requires if i < |turns| then TurnOf(plot, turns[i], Last(h), to, cap, config, scoop) else to == Last(h)
    ensures Recorded(plot, Extended(h, turns, i, to), cap, config, scoop) && Last(Extended(h, turns, i, to)) == to
  {
    hide TurnOf;
    if i < |turns| {
      var e := Extended(h, turns, i, to);
      forall j | 0 <= j < |e.turns|
        ensures TurnOf(plot, e.turns[j], e.progress[j], e.progress[j + 1], cap, config, scoop)
      {
        assert j < |h.turns| ==> TurnOf(plot, h.turns[j], h.progress[j], h.progress[j + 1], cap, config, scoop);
      }
    }
  }

  ghost predicate AllRecorded(plots: seq<PlotFile>, histories: seq<History>, progress: seq<nat>, cap: nat,
                              config: Option<CompressionConfig>, scoop: nat) {
    && |histories| == |plots| == |progress|
    && forall i :: 0 <= i < |plots| ==>
         Recorded(plots[i], histories[i], cap, config, scoop) && Last(histories[i]) == progress[i]
  }

  lemma RecordRound(plots: seq<PlotFile>, histories: seq<History>, turns: seq<Turn>, was: seq<nat>, now: seq<nat>,
                    cap: nat, config: Option<CompressionConfig>, scoop: nat)
    returns (later: seq<History>)
    requires AllRecorded(plots, histories, was, cap, config, scoop)
    requires TookTurns(plots, turns, was, now, cap, config, scoop)
    ensures AllRecorded(plots, later, now, cap, config, scoop)
  {
    hide TurnOf, TookTurns, Recorded;
    TurnsTaken(plots, turns, was, now, cap, config, scoop);
    later := seq(|plots|, i requires 0 <= i < |plots| => Extended(histories[i], turns, i, now[i]));
    forall i | 0 <= i < |plots|
      ensures Recorded(plots[i], later[i], cap, config, scoop) && Last(later[i]) == now[i]
    {
      ExtendRecord(plots[i], histories[i], turns, i, now[i], cap, config, scoop);
    }
  }

  // A round that nothing interrupts brings every file it reads to its end.
  lemma ReadThrough(plots: seq<PlotFile>, turns: seq<Turn>, was: seq<nat>, now: seq<nat>, cap: nat,
                    config: Option<CompressionConfig>, scoop: nat)
    requires TookTurns(plots, turns, was, now, cap, config, scoop) && |turns| == |plots|
    requires |turns| > 0 ==> turns[|turns| - 1].status != Paused
    ensures cap > 0 ==> forall i :: 0 <= i < |plots| ==> ActionFor(plots[i], config).Skip? || now[i] == plots[i].warps
  {
    hide Scanned, Whole, Lost, Broken, Foldable, AllFaithful, ActionFor, Held, PhaseOf, Has;
    forall i | 0 <= i < |plots| && cap > 0
      ensures ActionFor(plots[i], config).Skip? || now[i] == plots[i].warps
    {
      assert TurnOf(plots[i], turns[i], was[i], now[i], cap, config, scoop);
    }
  }

  lemma NothingRecorded(plots: seq<PlotFile>, cap: nat, config: Option<CompressionConfig>, scoop: nat)
    ensures AllRecorded(plots, seq(|plots|, i => History([], [0])), seq(|plots|, i => 0), cap, config, scoop)
  {
  }

  // The rounds of one block: a scan from the start, and after every pause, once other chains have
  // had the files, another one from the progress that was saved.
  method ScanWithPauses(cpu: Features, plots: seq<PlotFile>, cap: nat, config: Option<CompressionConfig>, scoop: nat,
                        pauses: seq<seq<Job>>)
    returns (finished: bool, ghost histories: seq<History>)
    requires Distinct(plots) && (forall p :: p in plots ==> p.Valid()) && GoodConfig(config, cap)
    requires forall n, m :: 0 <= n < |pauses| && 0 <= m < |pauses[n]| ==> GoodJob(plots, cap, pauses[n][m])
    modifies plots
    ensures Ready(plots, cap) && AllRecorded(plots, histories, Progress(plots), cap, config, scoop)
    ensures finished && cap > 0 ==>
      forall i :: 0 <= i < |plots| ==> ActionFor(plots[i], config).Skip? || plots[i].readProgress == plots[i].warps
  {
    hide ActionFor, Distinct, GoodConfig, GoodJob, TookTurns, AllRecorded, AllEvents, Has;
    Reset(plots, cap);
    histories := seq(|plots|, i => History([], [0]));
    NothingRecorded(plots, cap, config, scoop);
    for n := 0 to |pauses|
      invariant Ready(plots, cap) && AllRecorded(plots, histories, Progress(plots), cap, config, scoop)
    {
      ghost var was := Progress(plots);
      var events, interrupted, turns := ReadDisk(cpu, plots, cap, config, scoop);
      histories := RecordRound(plots, histories, turns, was, Progress(plots), cap, config, scoop);
      if !interrupted {
        ReadThrough(plots, turns, was, Progress(plots), cap, config, scoop);
        return true, histories;
      }
      var saved, scanned := GetResumeInfo(plots);
      OtherScans(cpu, plots, cap, pauses[n]);
      SetResumeInfo(plots, saved, cap);
    }
    finished := false;
  }

  method OtherScans(cpu: Features, plots: seq<PlotFile>, cap: nat, jobs: seq<Job>)
    requires Distinct(plots) && Ready(plots, cap)
    requires forall m :: 0 <= m < |jobs| ==> GoodJob(plots, cap, jobs[m])
    modifies plots
    ensures Ready(plots, cap)
  {
    hide Distinct, GoodConfig, TookTurns, AllEvents;
    for m := 0 to |jobs|
      invariant Ready(plots, cap)
    {
      if jobs[m].resume.Some? {
        SetResumeInfo(plots, jobs[m].resume.value, cap);
      } else {
        Reset(plots, cap);
      }
      var events, interrupted, turns := ReadDisk(cpu, plots, cap, jobs[m].config, jobs[m].scoop);
    }
  }
}
