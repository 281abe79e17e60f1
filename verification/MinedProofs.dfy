// From the disk to the validator: what mining submits, batch validation accepts.
module MinedProofs {
  import opened Wrappers
  import opened Words
  import opened Compression
  import opened ProofQuality
  import opened BatchValidation
  import opened Plots
  import opened Hasher
  import opened Cpu

  // The proof a validator is given: the submission, with its quality as the claim.
  function InputOf(s: Submission, baseTarget: nat): ProofInput {
    ProofInput(s.payload, s.seed, s.nonce, s.compression, s.height, s.gensig, baseTarget, Some(s.rawQuality))
  }

  // The submission at the level that the validator expands.
  function Expanded(s: Submission): Submission {
    s.(compression := s.compression % 64)
  }

  // A submission is accepted exactly when it validates at the level that is expanded.
  lemma AcceptedExactly(s: Submission, baseTarget: nat, i: nat)
    ensures ReferenceResult(InputOf(s, baseTarget), i).isValid <==> Validates(Expanded(s))
    ensures Mismatched(InputOf(s, baseTarget)) <==> !Validates(Expanded(s))
    ensures Validates(Expanded(s)) ==>
      var v := ReferenceResult(InputOf(s, baseTarget), i); v.error == None && v.quality == s.rawQuality
  {
    hide ProofQualityOf, ScoopNumber;
  }

  lemma ExpandedAsIs(s: Submission)
    requires s.compression < 64
    ensures Expanded(s) == s
  {
    DivModUnique(s.compression, 64, 0, s.compression);
  }

  ghost predicate Accepted(r: BatchResult, submissions: seq<Submission>) {
    && |r.results| == |submissions|
    && (forall j :: 0 <= j < |submissions| ==> AcceptedAt(r, submissions, j))
    && !r.earlySurrender && r.surrenderIndex == None
  }

  ghost predicate AcceptedAt(r: BatchResult, submissions: seq<Submission>, j: nat) {
    && j < |r.results| && j < |submissions|
    && r.results[j].isValid && r.results[j].error == None && r.results[j].quality == submissions[j].rawQuality
  }

  // Exactly those submissions are accepted that validate; under StopOnFirst, the first that does not is
  // where the validator surrenders.
  ghost predicate Judged(r: BatchResult, submissions: seq<Submission>, policy: Policy) {
    && |r.results| == |submissions|
    && (forall j :: 0 <= j < |submissions| ==> JudgedAt(r, submissions, j))
    && (r.earlySurrender <==> policy == StopOnFirst && exists j :: 0 <= j < |submissions| && !Validates(submissions[j]))
    && (r.surrenderIndex.Some? <==> r.earlySurrender)
    && (r.surrenderIndex.Some? ==> FirstInvalid(submissions, r.surrenderIndex.value))
  }

  ghost predicate JudgedAt(r: BatchResult, submissions: seq<Submission>, j: nat) {
    && j < |r.results| && j < |submissions|
    && (AcceptedAt(r, submissions, j) <==> Validates(submissions[j]))
    && (r.results[j].isValid <==> Validates(submissions[j]))
  }

  ghost predicate FirstInvalid(submissions: seq<Submission>, i: nat) {
    && i < |submissions| && !Validates(submissions[i])
    && forall j :: 0 <= j < i ==> Validates(submissions[j])
  }

  lemma AllAccepted(r: BatchResult, submissions: seq<Submission>, policy: Policy)
    requires Judged(r, submissions, policy) && forall j :: 0 <= j < |submissions| ==> Validates(submissions[j])
    ensures Accepted(r, submissions)
  {
    hide Validates, AcceptedAt;
    forall j | 0 <= j < |submissions|
      ensures AcceptedAt(r, submissions, j)
    {
      assert JudgedAt(r, submissions, j);
    }
  }

  // The validator may have another CPU, any number of threads, and any schedule of them.
  method ValidateMined(cpu: Features, hwThreads: nat, submissions: seq<Submission>, baseTarget: nat, policy: Policy)
    returns (r: BatchResult)
    requires forall j :: 0 <= j < |submissions| ==> submissions[j].compression < 64
    ensures Judged(r, submissions, policy)
  {
    hide Validates, Mismatched, ReferenceResult, ScoopNumber;
    var inputs := seq(|submissions|, j requires 0 <= j < |submissions| => InputOf(submissions[j], baseTarget));
    r := ValidateProofs(cpu, hwThreads, inputs, policy);
    JudgedAll(r, submissions, inputs, baseTarget, policy);
  }

  lemma JudgedAll(r: BatchResult, submissions: seq<Submission>, inputs: seq<ProofInput>, baseTarget: nat,
                  policy: Policy)
    requires |r.results| == |submissions| == |inputs|
    requires forall j :: 0 <= j < |submissions| ==>
      submissions[j].compression < 64 && inputs[j] == InputOf(submissions[j], baseTarget)
    requires forall j :: 0 <= j < |submissions| ==> r.results[j] == ReferenceResult(inputs[j], j)
    requires Surrendered(inputs, policy, r.earlySurrender, r.surrenderIndex)
    ensures Judged(r, submissions, policy)
  {
    hide Validates, Mismatched, AcceptedAt, InputOf, ReferenceResult;
    forall j | 0 <= j < |submissions|
      ensures JudgedAt(r, submissions, j)
      ensures Mismatched(inputs[j]) <==> !Validates(submissions[j])
    {
      JudgedOne(r, submissions, baseTarget, j);
    }
  }

  lemma JudgedOne(r: BatchResult, submissions: seq<Submission>, baseTarget: nat, j: nat)
    requires j < |submissions| == |r.results| && submissions[j].compression < 64
    requires r.results[j] == ReferenceResult(InputOf(submissions[j], baseTarget), j)
    ensures JudgedAt(r, submissions, j)
    ensures Mismatched(InputOf(submissions[j], baseTarget)) <==> !Validates(submissions[j])
  {
    hide Validates, Mismatched, InputOf, ReferenceResult;
    ExpandedAsIs(submissions[j]);
    AcceptedExactly(submissions[j], baseTarget, j);
  }

  // No file, and no level that the chain asks for, is beyond level 63.
  predicate CountableLevels(plots: seq<PlotFile>, config: Option<CompressionConfig>) {
    && (forall i :: 0 <= i < |plots| ==> plots[i].compression < 64)
    && (config.Some? ==> config.value.minLevel < 64)
  }

  lemma LevelsStay(plots: seq<PlotFile>, config: Option<CompressionConfig>, s: Submission)
    requires CountableLevels(plots, config) && MinedFrom(s, plots, config)
    ensures s.compression < 64
  {
    hide Foldable, Validates, GenuineGroup, GroupSize;
    var i, nonce :| 0 <= i < |plots| && MinedAt(s, plots[i], config, nonce);
    if config.Some? {
      var c := config.value;
      ActionLevel(plots[i].compression, c.minLevel, c.targetLevel, c.maxSteps);
    }
  }

  // A disk is scanned for a block, and what comes of it is judged: on any two CPUs, for any buffer
  // size, compression steps, interrupts, read errors, threads and schedules. What is folded from
  // genuine nonces is accepted; from genuine files, that is all.
  method MineAndValidate(miner: Features, plots: seq<PlotFile>, cap: nat, config: Option<CompressionConfig>,
                         height: nat, gensig: Seed, validator: Features, hwThreads: nat, baseTarget: nat,
                         policy: Policy)
    returns (submissions: seq<Submission>, r: BatchResult, ghost events: seq<Event>)
    requires Distinct(plots) && Ready(plots, cap) && GoodConfig(config, cap) && CountableLevels(plots, config)
    modifies plots
    ensures Ready(plots, cap)
    ensures AllFor(submissions, height, gensig) && Answers(submissions, Replies(events))
    ensures forall j :: 0 <= j < |submissions| ==> MinedFrom(submissions[j], plots, config)
    ensures Judged(r, submissions, policy)
    ensures GenuineFiles(plots, config, ScoopNumber(height, gensig)) ==>
      AllValidate(submissions, height, gensig) && Accepted(r, submissions)
  {
    hide Distinct, GoodConfig, GenuineFiles, CountableLevels, Answers, Accepted, Judged, Validates, MinedFrom,
        ScoopNumber;
    var freed, interrupted;
    submissions, freed, interrupted, events := MineDisk(miner, plots, cap, config, height, gensig);
    forall j | 0 <= j < |submissions|
      ensures submissions[j].compression < 64
    {
      LevelsStay(plots, config, submissions[j]);
    }
    r := ValidateMined(validator, hwThreads, submissions, baseTarget, policy);
    if GenuineFiles(plots, config, ScoopNumber(height, gensig)) {
      AllAccepted(r, submissions, policy);
    }
  }
}
