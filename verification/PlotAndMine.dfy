// From plotting to accepted proofs: a finished plot is genuine but for the end of its last scoop, which
// the check of a complete plot finds and which mining meets in one scoop of 4096.
module PlotAndMine {
  import opened Wrappers
  import opened Words
  import opened PlotChain
  import opened Layout
  import opened Scoops
  import opened ProofQuality
  import opened Compression
  import opened Cpu
  import opened Plotter
  import opened PlotWriter
  import opened Directory
  import opened PlotScheduler
  import opened PlotSessions
  import opened Plots
  import opened Hasher
  import opened BatchValidation
  import opened MinedProofs

  // The scoop of a nonce, by definition.
  function LevelScoop(name: Name, s: nat, nonce: nat): Scoop {
    AtLevel(RawOf(name.payload, name.seed), s, nonce, name.compress)
  }

  // The marker does no harm to this scoop of the file.
  ghost predicate Unharmed(name: Name, data: seq<Word>, s: nat) {
    && |data| >= 2 && name.warps > 0
    && (s == NUM_SCOOPS - 1 ==> LevelScoop(name, s, name.warps * NUM_SCOOPS - 1)[14..] == [Marked(data), RESUME_MAGIC])
  }

  predicate IsFile(plot: PlotFile, name: Name, data: seq<Word>) {
    && (plot.payload, plot.seed, plot.warps, plot.compression) == (name.payload, name.seed, name.warps, name.compress)
    && plot.data == data
  }

  lemma FileScoopIs(plot: PlotFile, name: Name, data: seq<Word>, s: nat, w: nat, i: nat)
    requires IsFile(plot, name, data) && PlotWriter.Whole(name, data)
    requires s < NUM_SCOOPS && w < name.warps && i < NUM_SCOOPS
    ensures |data| == NUM_SCOOPS * plot.warps * WARP_WORDS && w * NUM_SCOOPS + i < |data| / NONCE_WORDS
    ensures GenuineScoop(plot, s, w, i)
       <==> CacheScoop(data, s, w * NUM_SCOOPS + i) == LevelScoop(name, s, w * NUM_SCOOPS + i)
  {
    hide CacheScoop, AtLevel, RawOf;
    FileColumns(name.warps);
    ScoopThere(data, s, w * NUM_SCOOPS + i);
    FileBound(s, w, 1, plot.warps);
  }

  // A finished plot is genuine in every scoop but the last, and in that one exactly if the last
  // scoop of the last nonce happens to end in the marker.
  lemma FinishedIsGenuine(plot: PlotFile, name: Name, data: seq<Word>, s: nat)
    requires IsFile(plot, name, data) && SoundPlot(name, data) && Levelled(name.compress) && s < NUM_SCOOPS
    ensures Genuine(plot, s) <==> Unharmed(name, data, s)
  {
    hide GenuineScoop, Unharmed, SoundPlot;
    SoundPlotThere(name, data);
    forall w, i | 0 <= w < name.warps && 0 <= i < NUM_SCOOPS
      ensures GenuineScoop(plot, s, w, i)
         <==> (s == NUM_SCOOPS - 1 && w == name.warps - 1 && i == NUM_SCOOPS - 1 ==> Unharmed(name, data, s))
    {
      FinishedNonce(plot, name, data, s, w, i);
    }
    assert GenuineScoop(plot, s, name.warps - 1, NUM_SCOOPS - 1) || !Genuine(plot, s);
    if s < NUM_SCOOPS - 1 {
      NotLastScoop(name, data, s);
    }
  }

  lemma SoundPlotThere(name: Name, data: seq<Word>)
    requires SoundPlot(name, data)
    ensures |data| >= 2 && name.warps > 0 && |data| == NUM_SCOOPS * name.warps * WARP_WORDS
  {
  }

  lemma NotLastScoop(name: Name, data: seq<Word>, s: nat)
    requires |data| >= 2 && name.warps > 0 && s < NUM_SCOOPS - 1
    ensures Unharmed(name, data, s)
  {
  }

  // ----- the check of a complete plot -----

  // Scoop by scoop and nonce by nonce, up to the first that differs. In a finished plot that is the
  // last of all, unless the marker happens to be right there.
  method CheckComplete(cpu: Features, name: Name, data: seq<Word>) returns (passed: bool, scoop: nat, nonce: nat)
    requires PlotWriter.Whole(name, data)
    ensures passed ==> MatchesUpTo(name, data, NUM_SCOOPS, 0)
    ensures !passed ==>
      && scoop < NUM_SCOOPS && nonce < name.warps * NUM_SCOOPS
      && MatchesUpTo(name, data, scoop, nonce) && !Matches(name, data, scoop, nonce)
    ensures SoundPlot(name, data) && 1 <= name.compress < 64 ==>
      && (passed <==> Unharmed(name, data, NUM_SCOOPS - 1))
      && (!passed ==> scoop == NUM_SCOOPS - 1 && nonce == name.warps * NUM_SCOOPS - 1)
  {
    hide Matches, MatchesUpTo, SoundPlot, Mod64, CacheScoop, Unharmed, ScalarScoop, Levelled, AtLevel;
    FileColumns(name.warps);
    MatchesMore(name, data, 0, 0);
    for s := 0 to NUM_SCOOPS
      invariant MatchesUpTo(name, data, s, 0)
    {
      for n := 0 to name.warps * NUM_SCOOPS
        invariant MatchesUpTo(name, data, s, n)
      {
        var reference := GenerateScoop(cpu, name.payload, name.seed, s, Mod64(n), name.compress);
        ReferenceMatches(name, data, s, n, reference);
        if CacheScoop(data, s, n) != reference {
          if SoundPlot(name, data) && 1 <= name.compress < 64 {
            OnlyTheEndFails(name, data, s, n);
          }
          return false, s, n;
        }
        MatchesMore(name, data, s, n);
      }
      MatchesMore(name, data, s, name.warps * NUM_SCOOPS);
    }
    if SoundPlot(name, data) && 1 <= name.compress < 64 {
      CheckPasses(name, data);
    }
    return true, 0, 0;
  }

  // Everything before this nonce of this scoop matches.
  ghost predicate MatchesUpTo(name: Name, data: seq<Word>, s: nat, nonce: nat) {
    forall r, n :: 0 <= r < NUM_SCOOPS && 0 <= n < name.warps * NUM_SCOOPS && (r < s || (r == s && n < nonce)) ==>
      Matches(name, data, r, n)
  }

  lemma MatchesMore(name: Name, data: seq<Word>, s: nat, nonce: nat)
    ensures MatchesUpTo(name, data, 0, 0)
    ensures MatchesUpTo(name, data, s, nonce) && Matches(name, data, s, nonce) ==>
      MatchesUpTo(name, data, s, nonce + 1)
    ensures MatchesUpTo(name, data, s, name.warps * NUM_SCOOPS) ==> MatchesUpTo(name, data, s + 1, 0)
  {
    hide Matches;
  }

  // What the file holds is what is generated again; from level 64 on, nothing is folded for that.
  ghost predicate Matches(name: Name, data: seq<Word>, s: nat, nonce: nat) {
    && s < NUM_SCOOPS && nonce < |data| / NONCE_WORDS
    && CacheScoop(data, s, nonce) == ScalarScoop(name.payload, name.seed, s, nonce, name.compress)
  }

  lemma ReferenceMatches(name: Name, data: seq<Word>, s: nat, nonce: nat, reference: Scoop)
    requires s < NUM_SCOOPS && nonce < |data| / NONCE_WORDS
    requires reference == ScalarScoop(name.payload, name.seed, s, Mod64(nonce), name.compress)
    ensures Matches(name, data, s, nonce) <==> CacheScoop(data, s, nonce) == reference
  {
    hide CacheScoop, AtLevel, Mod64;
    LevelWraps(name.payload, name.seed, s, nonce, name.compress);
  }

  // Nothing in a finished plot differs but what is under the marker.
  lemma CheckFailsAtTheEnd(name: Name, data: seq<Word>, s: nat, nonce: nat)
    requires SoundPlot(name, data) && 1 <= name.compress < 64 && s < NUM_SCOOPS && nonce < name.warps * NUM_SCOOPS
    ensures Matches(name, data, s, nonce) <==> (UnderMarker(name.warps, s, nonce) ==> Unharmed(name, data, s))
  {
    hide CacheScoop, AtLevel;
    FinishedScoop(name, data, s, nonce);
  }

  lemma OnlyTheEndFails(name: Name, data: seq<Word>, s: nat, nonce: nat)
    requires SoundPlot(name, data) && 1 <= name.compress < 64 && s < NUM_SCOOPS && nonce < name.warps * NUM_SCOOPS
    requires !Matches(name, data, s, nonce)
    ensures s == NUM_SCOOPS - 1 && nonce == name.warps * NUM_SCOOPS - 1 && !Unharmed(name, data, NUM_SCOOPS - 1)
  {
    hide Matches, Unharmed;
    CheckFailsAtTheEnd(name, data, s, nonce);
  }

  lemma CheckPasses(name: Name, data: seq<Word>)
    requires SoundPlot(name, data) && 1 <= name.compress < 64 && MatchesUpTo(name, data, NUM_SCOOPS, 0)
    ensures Unharmed(name, data, NUM_SCOOPS - 1)
  {
    hide Matches, Unharmed;
    assert Matches(name, data, NUM_SCOOPS - 1, name.warps * NUM_SCOOPS - 1);
    CheckFailsAtTheEnd(name, data, NUM_SCOOPS - 1, name.warps * NUM_SCOOPS - 1);
  }

  // ----- mining what has been plotted -----

  // The plots of a directory, opened for mining.
  method OpenPlots(dir: Directory, names: seq<Name>) returns (plots: seq<PlotFile>)
    requires forall i :: 0 <= i < |names| ==> names[i] in dir.plots && SoundPlot(names[i], dir.plots[names[i]])
    ensures |plots| == |names| && Distinct(plots)
    ensures forall i :: 0 <= i < |plots| ==>
      fresh(plots[i]) && plots[i].Valid() && plots[i].readProgress
        == 0 && IsFile(plots[i], names[i], dir.plots[names[i]])
  {
    plots := [];
    for n := 0 to |names|
      invariant |plots| == n && Distinct(plots)
      invariant forall i :: 0 <= i < n ==>
        fresh(plots[i]) && plots[i].Valid() && plots[i].readProgress == 0
        && IsFile(plots[i], names[i], dir.plots[names[i]])
    {
      var name := names[n];
      FileSize(name.warps);
      var plot := new PlotFile(name.warps, name.compress, name.payload, name.seed, dir.plots[name]);
      plots := plots + [plot];
    }
  }

  lemma FileSize(warps: nat)
    ensures warps * WARP_CELLS == NUM_SCOOPS * warps * WARP_WORDS
  {
  }

  // The nonce of this number is the last of a file, when its warps are folded in groups of k without a rest.
  predicate LastOfGroups(warps: nat, k: nat, nonce: nat)
    requires k > 0
  {
    warps % k == 0 && nonce + 1 == warps / k * NUM_SCOOPS
  }

  // The number under which it is submitted: one less than the number of nonces, modulo 2^64.
  predicate LastNumber(warps: nat, k: nat, number: U64)
    requires k > 0
  {
    warps % k == 0 && number == Mod64(warps / k * NUM_SCOOPS + MAX_U64)
  }

  // What a nonce is folded from is genuine, unless it is the last, for the last scoop, and the
  // marker has done harm.
  lemma FinishedGroup(plot: PlotFile, name: Name, data: seq<Word>, s: nat, k: nat, nonce: nat)
    requires IsFile(plot, name, data) && SoundPlot(name, data) && Levelled(name.compress) && s < NUM_SCOOPS
    requires k > 0 && (nonce / NUM_SCOOPS + 1) * k <= name.warps
    ensures GenuineGroup(plot, s, k, nonce)
       <==> (s == NUM_SCOOPS - 1 && LastOfGroups(name.warps, k, nonce) ==> Unharmed(name, data, s))
  {
    hide CacheScoop, LevelScoop, GenuineScoop, AtLevel, Unharmed, SoundPlot, LastOfGroups;
    var lo, i := nonce / NUM_SCOOPS * k, nonce % NUM_SCOOPS;
    assert (nonce / NUM_SCOOPS + 1) * k == lo + k;
    LastGroup(name.warps, k, nonce);
    forall w | lo <= w < lo + k
      ensures GenuineScoop(plot, s, w, i)
         <==> (s == NUM_SCOOPS - 1 && w == name.warps - 1 && i == NUM_SCOOPS - 1 ==> Unharmed(name, data, s))
    {
      FinishedNonce(plot, name, data, s, w, i);
    }
    assert GenuineScoop(plot, s, lo + k - 1, i) || !GenuineGroup(plot, s, k, nonce);
  }

  lemma FinishedNonce(plot: PlotFile, name: Name, data: seq<Word>, s: nat, w: nat, i: nat)
    requires IsFile(plot, name, data) && SoundPlot(name, data) && Levelled(name.compress)
    requires s < NUM_SCOOPS && w < name.warps && i < NUM_SCOOPS
    ensures GenuineScoop(plot, s, w, i)
       <==> (s == NUM_SCOOPS - 1 && w == name.warps - 1 && i == NUM_SCOOPS - 1 ==> Unharmed(name, data, s))
  {
    hide CacheScoop, AtLevel, GenuineScoop;
    FileScoopIs(plot, name, data, s, w, i);
    FinishedScoop(name, data, s, w * NUM_SCOOPS + i);
  }

  lemma LastGroup(warps: nat, k: nat, nonce: nat)
    requires k > 0 && (nonce / NUM_SCOOPS + 1) * k <= warps
    ensures LastOfGroups(warps, k, nonce)
       <==> (nonce / NUM_SCOOPS + 1) * k == warps && nonce % NUM_SCOOPS == NUM_SCOOPS - 1
  {
    var q := nonce / NUM_SCOOPS + 1;
    if q * k == warps {
      DivModUnique(warps, k, q, 0);
    }
    if warps % k == 0 && nonce + 1 == warps / k * NUM_SCOOPS {
      DivModUnique(nonce, NUM_SCOOPS, warps / k - 1, NUM_SCOOPS - 1);
      DivParts(warps, k);
    }
  }

  // ----- what the marker costs the miner -----

  // The submission is for the last scoop, and from the last nonce of this plot, which the marker has harmed.
  ghost predicate FromMarked(s: Submission, name: Name, data: seq<Word>, config: Option<CompressionConfig>) {
    var steps := Steps(ActionAt(name.compress, config));
    && (s.payload, s.seed, s.compression) == (name.payload, name.seed, name.compress + steps)
    && LastNumber(name.warps, Pow2(steps), s.nonce)
    && ScoopNumber(s.height, s.gensig) == NUM_SCOOPS - 1 && !Unharmed(name, data, NUM_SCOOPS - 1)
  }

  // One of the plots that are mined.
  ghost predicate HarmedBy(s: Submission, dir: Directory, names: seq<Name>, config: Option<CompressionConfig>)
    reads dir
  {
    exists i :: 0 <= i < |names| && names[i] in dir.plots && FromMarked(s, names[i], dir.plots[names[i]], config)
  }

  lemma PlottedValidates(s: Submission, plot: PlotFile, name: Name, data: seq<Word>, config: Option<CompressionConfig>,
                         nonce: nat)
    requires IsFile(plot, name, data) && SoundPlot(name, data) && Levelled(name.compress)
    requires MinedAt(s, plot, config, nonce)
    ensures Validates(s) || FromMarked(s, name, data, config)
  {
    hide Validates, SoundPlot, Unharmed, GenuineGroup, ScoopNumber, Mod64, Pow2;
    var k, scoop := GroupSize(plot, config), ScoopNumber(s.height, s.gensig);
    assert Foldable(plot, config);
    FinishedGroup(plot, name, data, scoop, k, nonce);
    if LastOfGroups(name.warps, k, nonce) {
      Mod64Shift(nonce, 1);
      assert name.warps / k * NUM_SCOOPS + MAX_U64 == nonce + 1 * U64_RANGE;
    }
  }

  // What is mined from plots of a sound directory: every submission is accepted, but for what the
  // marker has harmed, which blocks of the last scoop only meet in the last nonce of a plot.
  method MinePlotted(miner: Features, dir: Directory, names: seq<Name>, cap: nat, config: Option<CompressionConfig>,
                     height: nat, gensig: Seed, validator: Features, hwThreads: nat, baseTarget: nat, policy: Policy)
    returns (submissions: seq<Submission>, r: BatchResult, ghost events: seq<Event>)
    requires dir.Sound() && forall i :: 0 <= i < |names| ==> names[i] in dir.plots && 1 <= names[i].compress < 64
    requires GoodConfig(config, cap) && (config.Some? ==> config.value.minLevel < 64)
    ensures AllFor(submissions, height, gensig) && Answers(submissions, Replies(events))
    ensures Judged(r, submissions, policy)
    ensures forall j :: 0 <= j < |submissions| ==>
      AcceptedAt(r, submissions, j) || HarmedBy(submissions[j], dir, names, config)
    ensures ScoopNumber(height, gensig) != NUM_SCOOPS - 1 ==> Accepted(r, submissions)
  {
    hide GoodConfig, Answers, Accepted, AcceptedAt, SoundPlot, Genuine, ScoopNumber, MinedAt, FromMarked, Validates;
    var plots := OpenPlots(dir, names);
    PlottedReady(plots, cap);
    submissions, r, events := MineAndValidate(miner, plots, cap, config, height, gensig, validator, hwThreads,
                                              baseTarget, policy);
    forall j | 0 <= j < |submissions|
      ensures AcceptedAt(r, submissions, j) || HarmedBy(submissions[j], dir, names, config)
    {
      assert JudgedAt(r, submissions, j) && MinedFrom(submissions[j], plots, config);
      var i, nonce :| 0 <= i < |plots| && MinedAt(submissions[j], plots[i], config, nonce);
      PlottedValidates(submissions[j], plots[i], names[i], dir.plots[names[i]], config, nonce);
    }
    if ScoopNumber(height, gensig) != NUM_SCOOPS - 1 {
      forall j | 0 <= j < |submissions|
        ensures Validates(submissions[j])
      {
        assert JudgedAt(r, submissions, j);
        NoHarm(submissions[j], dir, names, config);
      }
      AllAccepted(r, submissions, policy);
    }
  }

  lemma NoHarm(s: Submission, dir: Directory, names: seq<Name>, config: Option<CompressionConfig>)
    requires ScoopNumber(s.height, s.gensig) != NUM_SCOOPS - 1
    ensures !HarmedBy(s, dir, names, config)
  {
  }

  lemma PlottedReady(plots: seq<PlotFile>, cap: nat)
    requires forall i :: 0 <= i < |plots| ==> plots[i].Valid() && plots[i].readProgress == 0
    ensures Ready(plots, cap)
  {
  }

  // ----- the whole way -----

  datatype Plan = Plan(task: PlotterTask, rounds: nat, faults: bool)

  predicate GoodPlan(plan: Plan, n: nat) {
    && 0 < n == |plan.task.warps| == |plan.task.numberOfPlots| == |plan.task.seeds|
    && 0 < plan.task.escalate && plan.task.compress < 256
  }

  // The plots of the directory, in any order.
  method Listed(dir: Directory) returns (names: seq<Name>)
    ensures forall name :: name in names <==> name in dir.plots
    ensures forall i, j :: 0 <= i < j < |names| ==> names[i] != names[j]
  {
    names := [];
    var rest := dir.plots.Keys;
    while rest != {}
      invariant rest <= dir.plots.Keys
      invariant forall name :: name in names <==> name in dir.plots && name !in rest
      invariant forall i, j :: 0 <= i < j < |names| ==> names[i] != names[j]
      decreases |rest|
    {
      var name :| name in rest;
      names, rest := names + [name], rest - {name};
    }
  }

  // Empty directories are plotted in any number of sessions, each stopped, disturbed by errors or killed
  // at any point, and all plots of one of them are mined. For a block of any scoop but the last, every
  // submission is accepted; for the last scoop, every one but those from a last nonce that the marker
  // has harmed.
  method PlotThenMine(plotter: Features, dirs: seq<Directory>, plans: seq<Plan>, d: nat, miner: Features, cap: nat,
                      config: Option<CompressionConfig>, height: nat, gensig: Seed, validator: Features,
                      hwThreads: nat, baseTarget: nat, policy: Policy)
    returns (submissions: seq<Submission>, r: BatchResult, names: seq<Name>, ghost events: seq<Event>)
    requires DistinctDirs(dirs) && d < |dirs| && forall i :: 0 <= i < |plans| ==> GoodPlan(plans[i], |dirs|)
    requires forall i :: 0 <= i < |plans| ==> 1 <= plans[i].task.compress < 64
    requires forall dir :: dir in dirs ==> dir.tmp == map[] && dir.plots == map[]
    requires GoodConfig(config, cap) && (config.Some? ==> config.value.minLevel < 64)
    modifies dirs
    ensures AllSound(dirs)
    ensures forall name :: name in names <==> name in dirs[d].plots
    ensures AllFor(submissions, height, gensig) && Answers(submissions, Replies(events))
    ensures Judged(r, submissions, policy)
    ensures forall j :: 0 <= j < |submissions| ==>
      AcceptedAt(r, submissions, j) || HarmedBy(submissions[j], dirs[d], names, config)
    ensures ScoopNumber(height, gensig) != NUM_SCOOPS - 1 ==> Accepted(r, submissions)
  {
    hide GoodConfig, Answers, Accepted, AcceptedAt, Judged, Directory.Sound, HarmedBy, DistinctDirs, ScoopNumber;
    EmptySound(dirs);
    for i := 0 to |plans|
      invariant AllSound(dirs)
      invariant forall dir, name :: dir in dirs && name in dir.plots ==> 1 <= name.compress < 64
    {
      ghost var queues, resumes;
      var finished;
      finished, queues, resumes := Session(plotter, dirs, plans[i].task, plans[i].rounds, plans[i].faults);
    }
    names := Listed(dirs[d]);
    submissions, r, events := MinePlotted(miner, dirs[d], names, cap, config, height, gensig, validator, hwThreads,
                                          baseTarget, policy);
  }

  lemma EmptySound(dirs: seq<Directory>)
    requires forall dir :: dir in dirs ==> dir.tmp == map[] && dir.plots == map[]
    ensures AllSound(dirs)
  {
  }
}
