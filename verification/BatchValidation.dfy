// Batch validation: every proof is expanded into work units, the units of all proofs are cut
// into chunks for threads, each thread computes scoops in vector batches and XORs them into
// the accumulator of their proof under its lock. Every interleaving of the threads gives every
// proof the quality of the scalar reference.
module BatchValidation {
  import opened Wrappers
  import opened Words
  import opened Layout
  import opened Nonces
  import opened Scoops
  import opened Quality
  import opened ProofQuality
  import opened Cpu

  datatype Policy = StopOnFirst | ContinueAll

  datatype ProofInput = ProofInput(payload: Payload, seed: Seed, nonce: U64, compression: nat, height: nat,
                                   gensig: Seed, baseTarget: nat, claimedQuality: Option<U64>)

  datatype WorkUnit = WorkUnit(proofIndex: nat, payload: Payload, seed: Seed, baseNonce: U64, scoop: nat)

  // The units a list of work can contain: proofs that exist, scoops that exist.
  predicate GoodUnits(units: seq<WorkUnit>, proofs: nat) {
    forall i :: 0 <= i < |units| ==> units[i].proofIndex < proofs && units[i].scoop < NUM_SCOOPS
  }

  // ----- what the accumulators should end up with -----

  // One accumulation: the scoop of a unit is XORed into its proof's accumulator. The lock makes
  // this one step.
  datatype Contribution = Contribution(proofIndex: nat, data: Scoop)

  function ContributionOf(u: WorkUnit): Contribution {
    Contribution(u.proofIndex, PlotScoop(u.payload, u.seed, u.baseNonce, u.scoop))
  }

  function ContributionsOf(units: seq<WorkUnit>): (r: seq<Contribution>)
    ensures |r| == |units|
  {
    seq(|units|, i requires 0 <= i < |units| => ContributionOf(units[i]))
  }

  // What a contribution adds to proof p.
  function Part(c: Contribution, p: nat): Scoop {
    if c.proofIndex == p then c.data else ZeroScoop()
  }

  // The XOR of all contributions to proof p.
  function Total(log: seq<Contribution>, p: nat): Scoop {
    if |log| == 0 then ZeroScoop()
    else XorScoop(Total(log[..|log| - 1], p), Part(log[|log| - 1], p))
  }

  lemma {:induction false} TotalConcat(x: seq<Contribution>, y: seq<Contribution>, p: nat)
    ensures Total(x + y, p) == XorScoop(Total(x, p), Total(y, p))
  {
    hide XorScoop, Part;
    if |y| == 0 {
      assert x + y == x;
      XorScoopZero(Total(x, p));
    } else {
      var y' := y[..|y| - 1];
      assert (x + y)[..|x + y| - 1] == x + y';
      TotalConcat(x, y', p);
      XorScoopAssoc(Total(x, p), Total(y', p), Part(y[|y| - 1], p));
    }
  }

  lemma TotalOne(c: Contribution, p: nat)
    ensures Total([c], p) == Part(c, p)
  {
    hide XorScoop, Part;
    XorScoopZero(Part(c, p));
    assert [c][..0] == [];
  }

  lemma TotalHead(log: seq<Contribution>, p: nat)
    requires |log| > 0
    ensures Total(log, p) == XorScoop(Part(log[0], p), Total(log[1..], p))
  {
    hide XorScoop, Part;
    assert log == [log[0]] + log[1..];
    TotalConcat([log[0]], log[1..], p);
    TotalOne(log[0], p);
  }

  lemma {:induction false} TotalOthers(log: seq<Contribution>, p: nat)
    requires forall i :: 0 <= i < |log| ==> log[i].proofIndex != p
    ensures Total(log, p) == ZeroScoop()
  {
    hide XorScoop;
    if |log| > 0 {
      TotalOthers(log[..|log| - 1], p);
      XorScoopZero(ZeroScoop());
    }
  }

  // ----- work expansion -----

  method ExpandWorkUnits(proofIndex: nat, input: ProofInput, scoop: nat) returns (units: seq<WorkUnit>)
    requires scoop < NUM_SCOOPS
    ensures |units| == ShiftCount(input.compression) > 0
    ensures forall i :: 0 <= i < |units| ==> units[i].proofIndex == proofIndex && units[i].scoop < NUM_SCOOPS
    ensures Total(ContributionsOf(units), proofIndex)
         == AtLevel(RawOf(input.payload, input.seed), scoop, input.nonce, input.compression % 64)
  {
    hide PlotScoop, Mod64, UnitNonce, Pow2, Total, XorUnits, ContributionsOf;
    CountsAgree(input.compression);
    var warp, nonceInWarp := input.nonce / NUM_SCOOPS, input.nonce % NUM_SCOOPS;
    var count := ShiftCount(input.compression);
    units := [];
    NoUnits(input, proofIndex, scoop, count);
    for i := 0 to count
      invariant |units| == i
      invariant forall k :: 0 <= k < i ==> units[k].proofIndex == proofIndex && units[k].scoop < NUM_SCOOPS
      invariant Expanded(units, input, proofIndex, scoop, count)
    {
      var (scoopX, nonceInWarpX) := if i % 2 == 0 then (scoop, nonceInWarp) else (nonceInWarp, scoop);
      var unit := WorkUnit(proofIndex, input.payload, input.seed, UnitNonce(count, warp, i, nonceInWarpX), scoopX);
      UnitIs(unit, input, scoop, count, i);
      UnitAdded(units, unit, input, proofIndex, scoop, count);
      units := units + [unit];
    }
  }

  // The units so far contribute what the definition of the level folds so far.
  ghost predicate Expanded(units: seq<WorkUnit>, input: ProofInput, p: nat, scoop: nat, count: nat) {
    Total(ContributionsOf(units), p)
      == XorUnits(RawOf(input.payload, input.seed), scoop, input.nonce / NUM_SCOOPS, input.nonce % NUM_SCOOPS,
        count, |units|)
  }

  lemma NoUnits(input: ProofInput, p: nat, scoop: nat, count: nat)
    ensures Expanded([], input, p, scoop, count)
  {
  }

  lemma UnitAdded(units: seq<WorkUnit>, unit: WorkUnit, input: ProofInput, p: nat, scoop: nat, count: nat)
    requires Expanded(units, input, p, scoop, count) && unit.proofIndex == p
    requires var u := UnitOf(scoop, input.nonce / NUM_SCOOPS, input.nonce % NUM_SCOOPS, count, |units|);
      ContributionOf(unit).data == RawOf(input.payload, input.seed)(u.nonce, u.scoop)
    ensures Expanded(units + [unit], input, p, scoop, count)
  {
    hide Total, ContributionsOf, ContributionOf, XorUnits, RawOf, UnitOf;
    TotalGrows(units, unit, p);
    UnitsGrow(RawOf(input.payload, input.seed), scoop, input.nonce / NUM_SCOOPS, input.nonce % NUM_SCOOPS, count,
      |units|);
  }

  lemma TotalGrows(units: seq<WorkUnit>, unit: WorkUnit, p: nat)
    requires unit.proofIndex == p
    ensures Total(ContributionsOf(units + [unit]), p)
         == XorScoop(Total(ContributionsOf(units), p), ContributionOf(unit).data)
  {
    hide XorScoop;
    assert ContributionsOf(units + [unit])[..|units|] == ContributionsOf(units);
  }

  lemma UnitsGrow(raw: Raw, scoop: nat, warp: nat, nonceInWarp: nat, count: nat, n: nat)
    ensures var u := UnitOf(scoop, warp, nonceInWarp, count, n);
      XorUnits(raw, scoop, warp, nonceInWarp, count, n + 1)
      == XorScoop(XorUnits(raw, scoop, warp, nonceInWarp, count, n), raw(u.nonce, u.scoop))
  {
    hide XorScoop;
  }

  // The scoop of a unit is the one the definition of the level names, although its nonce number wraps.
  lemma UnitIs(unit: WorkUnit, input: ProofInput, scoop: nat, count: U64, i: U64)
    requires var (warp, nonceInWarp) := (input.nonce / NUM_SCOOPS, input.nonce % NUM_SCOOPS);
      && (unit.payload, unit.seed) == (input.payload, input.seed)
      && unit.scoop == (if i % 2 == 0 then scoop else nonceInWarp)
      && unit.baseNonce == UnitNonce(count, warp, i, if i % 2 == 0 then nonceInWarp else scoop)
    ensures var u := UnitOf(scoop, input.nonce / NUM_SCOOPS, input.nonce % NUM_SCOOPS, count, i);
      ContributionOf(unit).data == RawOf(input.payload, input.seed)(u.nonce, u.scoop)
  {
    hide PlotScoop, UnitNonce, Mod64;
    var warp, other := input.nonce / NUM_SCOOPS, if i % 2 == 0 then input.nonce % NUM_SCOOPS else scoop;
    UnitNonceWraps(count, warp, i, other);
    NonceWraps(input.payload, input.seed, (count * warp + i) * NUM_SCOOPS + other, unit.scoop);
  }

  // ----- the threads' work -----

  // The accumulations of process_work_range in the order a thread performs them. The surrender
  // flag is created false and never stored to; a set flag would end the loop.
  method ProcessWorkRange(cpu: Features, units: seq<WorkUnit>, surrender: bool, proofs: nat)
    returns (log: seq<Contribution>)
    requires GoodUnits(units, proofs)
    ensures !surrender ==> log == ContributionsOf(units)
    ensures surrender ==> log == []
  {
    hide ContributionOf;
    log := [];
    var i := 0;
    while i < |units|
      invariant i <= |units|
      invariant !surrender ==> log == ContributionsOf(units[..i])
      invariant surrender ==> log == []
      decreases |units| - i
    {
      if surrender {
        break;
      }
      var remaining := |units| - i;
      if cpu.avx512f && remaining >= 16 {
        var batch := ProcessBatchSimd(16, units[i..i + 16], proofs);
        BatchDone(units, i, 16);
        log := log + batch;
        i := i + 16;
        continue;
      }
      if cpu.avx2 && remaining >= 8 {
        var batch := ProcessBatchSimd(8, units[i..i + 8], proofs);
        BatchDone(units, i, 8);
        log := log + batch;
        i := i + 8;
        continue;
      }
      if (cpu.avx || cpu.sse2) && remaining >= 4 {
        var batch := ProcessBatchSimd(4, units[i..i + 4], proofs);
        BatchDone(units, i, 4);
        log := log + batch;
        i := i + 4;
        continue;
      }
      var one := ProcessSingleScalar(units[i], proofs);
      BatchDone(units, i, 1);
      log := log + [one];
      i := i + 1;
    }
    assert units[..|units|] == units;
  }

  lemma BatchDone(units: seq<WorkUnit>, i: nat, n: nat)
    requires i + n <= |units|
    ensures ContributionsOf(units[..i + n]) == ContributionsOf(units[..i]) + ContributionsOf(units[i..i + n])
  {
    hide ContributionOf;
  }

  method ProcessSingleScalar(u: WorkUnit, proofs: nat) returns (c: Contribution)
    requires u.proofIndex < proofs && u.scoop < NUM_SCOOPS
    ensures c == ContributionOf(u)
  {
    hide RawScoop;
    var data := GenerateAndExtractScoop32(u.payload, u.seed, u.baseNonce, u.scoop);
    c := Contribution(u.proofIndex, data);
  }

  method ProcessBatchSimd(width: nat, units: seq<WorkUnit>, proofs: nat) returns (log: seq<Contribution>)
    requires width > 0 && |units| == width && GoodUnits(units, proofs)
    ensures log == ContributionsOf(units)
  {
    hide RawScoop;
    var payloads: seq<seq<Byte>> := seq(width, j requires 0 <= j < width => units[j].payload);
    var seeds: seq<seq<Byte>> := seq(width, j requires 0 <= j < width => units[j].seed);
    var nonces := seq(width, j requires 0 <= j < width => units[j].baseNonce);
    var scoops := seq(width, j requires 0 <= j < width => units[j].scoop);
    var results := GenerateAndExtractScoopsVector(width, payloads, seeds, nonces, scoops);
    log := [];
    for j := 0 to width
      invariant log == ContributionsOf(units)[..j]
    {
      assert ContributionOf(units[j]) == Contribution(units[j].proofIndex, results[j]);
      log := log + [Contribution(units[j].proofIndex, results[j])];
    }
  }

  // ----- interleavings -----

  // Accumulators, and what each thread has still to add.
  datatype Machine = Machine(accs: seq<Scoop>, logs: seq<seq<Contribution>>) {
    ghost predicate Valid() {
      forall t, i :: 0 <= t < |logs| && 0 <= i < |logs[t]| ==> logs[t][i].proofIndex < |accs|
    }

    predicate Enabled(t: nat) {
      t < |logs| && |logs[t]| > 0
    }

    // Thread t takes the lock of one accumulator, XORs its next scoop in and releases the lock.
    function Step(t: nat): (m: Machine)
      requires Valid() && Enabled(t)
      ensures m.Valid() && |m.accs| == |accs|
    {
      var c := logs[t][0];
      var p := c.proofIndex;
      var next := Machine(accs[p := XorScoop(accs[p], c.data)], logs[t := logs[t][1..]]);
      assert next.Valid();
      next
    }
  }

  function AllTotal(logs: seq<seq<Contribution>>, p: nat): Scoop {
    if |logs| == 0 then ZeroScoop()
    else XorScoop(AllTotal(logs[..|logs| - 1], p), Total(logs[|logs| - 1], p))
  }

  lemma {:induction false} AllTotalTake(logs: seq<seq<Contribution>>, t: nat, p: nat)
    requires t < |logs| && |logs[t]| > 0
    ensures AllTotal(logs, p) == XorScoop(Part(logs[t][0], p), AllTotal(logs[t := logs[t][1..]], p))
  {
    hide XorScoop, Part, Total;
    var n := |logs| - 1;
    var after := logs[t := logs[t][1..]];
    var c, rest, last := Part(logs[t][0], p), AllTotal(after[..n], p), Total(after[n], p);
    if t == n {
      TotalHead(logs[n], p);
      assert after[..n] == logs[..n];
      XorScoopAssoc(rest, c, last);
      XorScoopComm(rest, c);
      XorScoopAssoc(c, rest, last);
    } else {
      AllTotalTake(logs[..n], t, p);
      assert after[..n] == logs[..n][t := logs[t][1..]];
      XorScoopAssoc(c, rest, last);
    }
  }

  // A step moves one scoop from what is to be added to what has been added.
  lemma StepConserves(m: Machine, t: nat, p: nat)
    requires m.Valid() && m.Enabled(t) && p < |m.accs|
    ensures XorScoop(m.Step(t).accs[p], AllTotal(m.Step(t).logs, p)) == XorScoop(m.accs[p], AllTotal(m.logs, p))
  {
    hide XorScoop;
    var n := m.Step(t);
    var c := Part(m.logs[t][0], p);
    AllTotalTake(m.logs, t, p);
    XorScoopAssoc(m.accs[p], c, AllTotal(n.logs, p));
    XorScoopZero(m.accs[p]);
  }

  // A schedule names the thread that moves at each step.
  ghost predicate Schedules(m: Machine, schedule: seq<nat>)
    requires m.Valid()
    decreases |schedule|
  {
    if |schedule| == 0 then true
    else m.Enabled(schedule[0]) && Schedules(m.Step(schedule[0]), schedule[1..])
  }

  function Run(m: Machine, schedule: seq<nat>): (r: Machine)
    requires m.Valid() && Schedules(m, schedule)
    ensures r.Valid() && |r.accs| == |m.accs|
    decreases |schedule|
  {
    if |schedule| == 0 then m else Run(m.Step(schedule[0]), schedule[1..])
  }

  lemma {:induction false} AllTotalEmpty(logs: seq<seq<Contribution>>, p: nat)
    requires forall t :: 0 <= t < |logs| ==> logs[t] == []
    ensures AllTotal(logs, p) == ZeroScoop()
  {
    hide XorScoop;
    if |logs| > 0 {
      AllTotalEmpty(logs[..|logs| - 1], p);
      XorScoopZero(ZeroScoop());
    }
  }

  // Whatever the interleaving, once every thread is done every accumulator has gained the XOR of all its scoops.
  lemma {:induction false} EveryInterleaving(m: Machine, schedule: seq<nat>, p: nat)
    requires m.Valid() && Schedules(m, schedule) && p < |m.accs|
    requires forall t :: 0 <= t < |m.logs| ==> !Run(m, schedule).Enabled(t)
    ensures Run(m, schedule).accs[p] == XorScoop(m.accs[p], AllTotal(m.logs, p))
    decreases |schedule|
  {
    hide XorScoop, AllTotal;
    if |schedule| == 0 {
      forall t | 0 <= t < |m.logs|
        ensures m.logs[t] == []
      {
        assert !Run(m, schedule).Enabled(t);
      }
      AllTotalEmpty(m.logs, p);
      XorScoopZero(m.accs[p]);
    } else {
      var next := m.Step(schedule[0]);
      assert Run(m, schedule) == Run(next, schedule[1..]);
      assert |next.logs| == |m.logs|;
      EveryInterleaving(next, schedule[1..], p);
      StepConserves(m, schedule[0], p);
    }
  }

  // ----- the threads at work -----

  function Pending(logs: seq<seq<Contribution>>): nat {
    if |logs| == 0 then 0 else Pending(logs[..|logs| - 1]) + |logs[|logs| - 1]|
  }

  lemma {:induction false} PendingTake(logs: seq<seq<Contribution>>, t: nat)
    requires t < |logs| && |logs[t]| > 0
    ensures Pending(logs[t := logs[t][1..]]) + 1 == Pending(logs)
  {
    var n := |logs| - 1;
    var after := logs[t := logs[t][1..]];
    if t == n {
      assert after[..n] == logs[..n];
    } else {
      PendingTake(logs[..n], t);
      assert after[..n] == logs[..n][t := logs[t][1..]];
    }
  }

  method AccumulateScoop(accs: array<Scoop>, c: Contribution)
    requires c.proofIndex < accs.Length
    modifies accs
    ensures accs[..] == old(accs[..])[c.proofIndex := XorScoop(old(accs[c.proofIndex]), c.data)]
  {
    accs[c.proofIndex] := XorScoop(accs[c.proofIndex], c.data);
  }

  // Threads share the accumulators; which thread moves next is arbitrary.
  method RunThreads(accs: array<Scoop>, work: seq<seq<Contribution>>)
    requires Machine(accs[..], work).Valid()
    modifies accs
    ensures forall p :: 0 <= p < accs.Length ==> accs[p] == XorScoop(old(accs[p]), AllTotal(work, p))
  {
    hide XorScoop, AllTotal;
    var logs := work;
    while exists t :: 0 <= t < |logs| && |logs[t]| > 0
      invariant Machine(accs[..], logs).Valid()
      invariant forall p :: 0 <= p < accs.Length ==>
        XorScoop(accs[p], AllTotal(logs, p)) == XorScoop(old(accs[p]), AllTotal(work, p))
      decreases Pending(logs)
    {
      var t: nat :| t < |logs| && |logs[t]| > 0;
      ghost var m := Machine(accs[..], logs);
      AccumulateScoop(accs, logs[t][0]);
      PendingTake(logs, t);
      logs := logs[t := logs[t][1..]];
      assert Machine(accs[..], logs) == m.Step(t);
      forall p | 0 <= p < accs.Length
        ensures XorScoop(accs[p], AllTotal(logs, p)) == XorScoop(m.accs[p], AllTotal(m.logs, p))
      {
        StepConserves(m, t, p);
      }
    }
    forall p | 0 <= p < accs.Length
      ensures accs[p] == XorScoop(accs[p], AllTotal(logs, p))
    {
      AllTotalEmpty(logs, p);
      XorScoopZero(accs[p]);
    }
  }

  lemma AllTotalAppend(logs: seq<seq<Contribution>>, log: seq<Contribution>, p: nat)
    ensures AllTotal(logs + [log], p) == XorScoop(AllTotal(logs, p), Total(log, p))
  {
    assert (logs + [log])[..|logs|] == logs;
  }

  // One thread per chunk; together they hold exactly the work, each unit once.
  method SplitWork(cpu: Features, units: seq<WorkUnit>, chunkSize: nat, proofs: nat)
    returns (logs: seq<seq<Contribution>>)
    requires GoodUnits(units, proofs) && chunkSize > 0
    ensures forall t, i :: 0 <= t < |logs| && 0 <= i < |logs[t]| ==> logs[t][i].proofIndex < proofs
    ensures forall p :: AllTotal(logs, p) == Total(ContributionsOf(units), p)
  {
    hide XorScoop, Total, AllTotal, ContributionOf;
    logs := [];
    var chunkStart := 0;
    NoWork();
    assert units[..0] == [];
    while chunkStart < |units|
      invariant forall t, i :: 0 <= t < |logs| && 0 <= i < |logs[t]| ==> logs[t][i].proofIndex < proofs
      invariant forall p :: AllTotal(logs, p) == Total(ContributionsOf(units[..Min(chunkStart, |units|)]), p)
      decreases |units| - chunkStart
    {
      var chunkEnd := Min(chunkStart + chunkSize, |units|);
      var chunk := units[chunkStart..chunkEnd];
      var log := ProcessWorkRange(cpu, chunk, false, proofs);
      assert log == ContributionsOf(chunk);
      forall i | 0 <= i < |log|
        ensures log[i].proofIndex < proofs
      {
        IndexOf(chunk[i]);
      }
      BatchDone(units, chunkStart, chunkEnd - chunkStart);
      forall p: nat
        ensures AllTotal(logs + [log], p) == Total(ContributionsOf(units[..chunkEnd]), p)
      {
        AllTotalAppend(logs, log, p);
        TotalConcat(ContributionsOf(units[..chunkStart]), log, p);
      }
      logs := logs + [log];
      chunkStart := chunkStart + chunkSize;
    }
    assert units[..|units|] == units;
  }

  lemma IndexOf(u: WorkUnit)
    ensures ContributionOf(u).proofIndex == u.proofIndex
  {
  }

  lemma NoWork()
    ensures forall p :: AllTotal([], p) == Total(ContributionsOf([]), p)
  {
  }

  // ----- validation of a batch -----

  datatype Mismatch = Mismatch(expected: U64, actual: U64, proofIndex: nat)

  datatype ValidationResult = ValidationResult(quality: U64, deadline: nat, isValid: bool, error: Option<Mismatch>)

  datatype BatchResult = BatchResult(results: seq<ValidationResult>, earlySurrender: bool, surrenderIndex: Option<nat>)

  // The quality of the proof at the level that the shift expands.
  function ReferenceQuality(input: ProofInput): U64 {
    ProofQualityOf(input.payload, input.seed, input.nonce, input.compression % 64,
                   ScoopNumber(input.height, input.gensig), input.gensig)
  }

  // The quality that the scalar calculation gives this proof.
  function ScalarQualityOf(input: ProofInput): U64 {
    ScalarQuality(input.payload, input.seed, input.nonce, input.compression,
                  ScoopNumber(input.height, input.gensig), input.gensig)
  }

  lemma ReferenceIsScalar(input: ProofInput)
    requires input.compression < 64
    ensures ReferenceQuality(input) == ScalarQualityOf(input)
  {
    hide ProofQualityOf, ScalarQuality, ScoopNumber;
    ScalarQualityIs(input.payload, input.seed, input.nonce, input.compression,
                    ScoopNumber(input.height, input.gensig), input.gensig);
    DivModUnique(input.compression, 64, 0, input.compression);
  }

  predicate Disagrees(claimed: Option<U64>, quality: U64) {
    claimed.Some? && claimed.value != quality
  }

  predicate Mismatched(input: ProofInput) {
    Disagrees(input.claimedQuality, ReferenceQuality(input))
  }

  // Division by a zero base target is replaced by the maximum.
  function Deadline(quality: U64, baseTarget: nat): nat {
    if baseTarget == 0 then MAX_U64 else quality / baseTarget
  }

  // The verdict on proof i, given its quality.
  function Verdict(quality: U64, baseTarget: nat, claimed: Option<U64>, i: nat): ValidationResult {
    if Disagrees(claimed, quality)
    then ValidationResult(quality, Deadline(quality, baseTarget), false, Some(Mismatch(claimed.value, quality, i)))
    else ValidationResult(quality, Deadline(quality, baseTarget), true, None)
  }

  // What a verdict must be: the quality itself, the number of whole base targets in it, and an
  // error naming the proof and both qualities exactly if another quality was claimed.
  ghost predicate GoodVerdict(v: ValidationResult, quality: U64, baseTarget: nat, claimed: Option<U64>, i: nat) {
    && v.quality == quality
    && (baseTarget == 0 ==> v.deadline == MAX_U64)
    && (baseTarget > 0 ==> v.deadline * baseTarget <= quality < (v.deadline + 1) * baseTarget)
    && (v.isValid <==> claimed == None || claimed == Some(quality))
    && (v.error.Some? <==> !v.isValid)
    && (v.error.Some? ==> claimed == Some(v.error.value.expected))
    && (v.error.Some? ==> v.error.value.actual == quality && v.error.value.proofIndex == i)
  }

  lemma VerdictIs(v: ValidationResult, quality: U64, baseTarget: nat, claimed: Option<U64>, i: nat)
    ensures GoodVerdict(v, quality, baseTarget, claimed, i) <==> v == Verdict(quality, baseTarget, claimed, i)
  {
    if baseTarget > 0 {
      DivParts(quality, baseTarget);
      var d := quality / baseTarget;
      assert (d + 1) * baseTarget == d * baseTarget + baseTarget;
      MulMono(v.deadline + 1, d, baseTarget);
      MulMono(d + 1, v.deadline, baseTarget);
    }
  }

  // What the scalar reference says of proof i.
  function ReferenceResult(input: ProofInput, i: nat): ValidationResult {
    Verdict(ReferenceQuality(input), input.baseTarget, input.claimedQuality, i)
  }

  // Under StopOnFirst the first mismatching proof is reported; otherwise none is.
  ghost predicate Surrendered(inputs: seq<ProofInput>, policy: Policy, early: bool, index: Option<nat>) {
    && (early <==> policy == StopOnFirst && exists i :: 0 <= i < |inputs| && Mismatched(inputs[i]))
    && (index.Some? <==> early)
    && (index.Some? ==> index.value < |inputs| && Mismatched(inputs[index.value])
                        && forall i :: 0 <= i < index.value ==> !Mismatched(inputs[i]))
  }

  lemma SurrenderStep(inputs: seq<ProofInput>, idx: nat, policy: Policy, early: bool, index: Option<nat>)
    requires idx < |inputs| && Surrendered(inputs[..idx], policy, early, index)
    ensures if policy == StopOnFirst && Mismatched(inputs[idx])
            then Surrendered(inputs[..idx + 1], policy, true, if index.None? then Some(idx) else index)
            else Surrendered(inputs[..idx + 1], policy, early, index)
  {
    hide Mismatched;
    var next := inputs[..idx + 1];
    assert next[..idx] == inputs[..idx];
    assert forall i :: 0 <= i < idx ==> next[i] == inputs[..idx][i];
    assert next[idx] == inputs[idx];
  }

  lemma NoSurrender(policy: Policy)
    ensures Surrendered([], policy, false, None)
  {
  }

  // The scoop that proof i must end up with.
  function ProofScoop(input: ProofInput): Scoop {
    AtLevel(RawOf(input.payload, input.seed), ScoopNumber(input.height, input.gensig), input.nonce,
            input.compression % 64)
  }

  method ExpandAll(inputs: seq<ProofInput>) returns (work: seq<WorkUnit>)
    ensures GoodUnits(work, |inputs|) && |work| >= |inputs|
    ensures forall p :: 0 <= p < |inputs| ==> Total(ContributionsOf(work), p) == ProofScoop(inputs[p])
  {
    hide XorScoop, Total, AtLevel, ScoopNumber, ContributionOf;
    work := [];
    for idx := 0 to |inputs|
      invariant GoodUnits(work, idx) && |work| >= idx
      invariant forall p :: 0 <= p < idx ==> Total(ContributionsOf(work), p) == ProofScoop(inputs[p])
    {
      var scoop := CalculateScoop(inputs[idx].height, inputs[idx].gensig);
      var units := ExpandWorkUnits(idx, inputs[idx], scoop);
      forall p | 0 <= p <= idx
        ensures Total(ContributionsOf(work + units), p) == ProofScoop(inputs[p])
      {
        assert ContributionsOf(work + units) == ContributionsOf(work) + ContributionsOf(units);
        TotalConcat(ContributionsOf(work), ContributionsOf(units), p);
        NotMine(if p == idx then work else units, p);
        XorScoopZero(ProofScoop(inputs[p]));
      }
      work := work + units;
    }
  }

  lemma NotMine(units: seq<WorkUnit>, p: nat)
    requires forall i :: 0 <= i < |units| ==> units[i].proofIndex != p
    ensures Total(ContributionsOf(units), p) == ZeroScoop()
  {
    hide PlotScoop;
    TotalOthers(ContributionsOf(units), p);
  }

  // Batch validation is the scalar calculation, proof by proof, for every CPU, thread count and
  // schedule. From level 64 on, where the two wrap differently, it takes the level modulo 64.
  method ValidateProofs(cpu: Features, hwThreads: nat, inputs: seq<ProofInput>, policy: Policy) returns (r: BatchResult)
    ensures |r.results| == |inputs|
    ensures forall i :: 0 <= i < |inputs| ==> r.results[i] == ReferenceResult(inputs[i], i)
    ensures forall i :: 0 <= i < |inputs| ==>
      GoodVerdict(r.results[i], ReferenceQuality(inputs[i]), inputs[i].baseTarget, inputs[i].claimedQuality, i)
    ensures forall i :: 0 <= i < |inputs| && inputs[i].compression < 64 ==>
      r.results[i].quality == ScalarQualityOf(inputs[i])
    ensures Surrendered(inputs, policy, r.earlySurrender, r.surrenderIndex)
  {
    hide XorScoop, Total, AllTotal, ProofScoop, ReferenceQuality, ScalarQualityOf, GoodVerdict;
    if |inputs| == 0 {
      return BatchResult([], false, None);
    }
    var work := ExpandAll(inputs);
    var accs := new Scoop[|inputs|](_ => ZeroScoop());
    var width := cpu.Width();
    var maxThreads := if hwThreads >= 2 then hwThreads - 1 else 1;
    var numThreads := Min(maxThreads, (|work| + width - 1) / width);
    var chunkSize := if numThreads <= 1 then |work| else (|work| + numThreads - 1) / numThreads;
    PositiveChunk(|work|, numThreads);
    var logs := SplitWork(cpu, work, chunkSize, |inputs|);
    RunThreads(accs, logs);
    forall p | 0 <= p < |inputs|
      ensures accs[p] == ProofScoop(inputs[p])
    {
      XorScoopZero(ProofScoop(inputs[p]));
    }
    r := Finalize(inputs, accs[..], policy);
    forall i | 0 <= i < |inputs|
      ensures GoodVerdict(r.results[i], ReferenceQuality(inputs[i]), inputs[i].baseTarget, inputs[i].claimedQuality, i)
    {
      VerdictIs(r.results[i], ReferenceQuality(inputs[i]), inputs[i].baseTarget, inputs[i].claimedQuality, i);
    }
    forall i | 0 <= i < |inputs| && inputs[i].compression < 64
      ensures r.results[i].quality == ScalarQualityOf(inputs[i])
    {
      ReferenceIsScalar(inputs[i]);
    }
  }

  lemma PositiveChunk(total: nat, threads: nat)
    requires total > 0
    ensures threads > 0 ==> (total + threads - 1) / threads > 0
  {
    if threads > 0 {
      var n := total + threads - 1;
      assert n == n / threads * threads + n % threads;
    }
  }

  method Judge(input: ProofInput, idx: nat, scoop: Scoop) returns (result: ValidationResult)
    requires scoop == ProofScoop(input)
    ensures result == ReferenceResult(input, idx)
    ensures result.error.Some? <==> Mismatched(input)
  {
    hide ProofScoop, ReferenceQuality, Deadline;
    var quality := Shabal256Lite(scoop, GensigWords(input.gensig));
    ReferenceIs(input);
    var deadline := Deadline(quality, input.baseTarget);
    if input.claimedQuality.Some? && quality != input.claimedQuality.value {
      result := ValidationResult(quality, deadline, false, Some(Mismatch(input.claimedQuality.value, quality, idx)));
    } else {
      result := ValidationResult(quality, deadline, true, None);
    }
  }

  method Finalize(inputs: seq<ProofInput>, scoops: seq<Scoop>, policy: Policy) returns (r: BatchResult)
    requires |scoops| == |inputs|
    requires forall p :: 0 <= p < |inputs| ==> scoops[p] == ProofScoop(inputs[p])
    ensures |r.results| == |inputs|
    ensures forall i :: 0 <= i < |inputs| ==> r.results[i] == ReferenceResult(inputs[i], i)
    ensures Surrendered(inputs, policy, r.earlySurrender, r.surrenderIndex)
  {
    hide ProofScoop, ReferenceResult, Surrendered, Mismatched;
    var results: seq<ValidationResult>, early, index: Option<nat> := [], false, None;
    NoSurrender(policy);
    assert inputs[..0] == [];
    for idx := 0 to |inputs|
      invariant |results| == idx
      invariant forall i :: 0 <= i < idx ==> results[i] == ReferenceResult(inputs[i], i)
      invariant Surrendered(inputs[..idx], policy, early, index)
    {
      var result := Judge(inputs[idx], idx, scoops[idx]);
      SurrenderStep(inputs, idx, policy, early, index);
      if result.error.Some? && policy == StopOnFirst {
        early := true;
        if index.None? {
          index := Some(idx);
        }
      }
      results := results + [result];
    }
    assert inputs[..|inputs|] == inputs;
    r := BatchResult(results, early, index);
  }

  lemma ReferenceIs(input: ProofInput)
    ensures QualityOf(ProofScoop(input), GensigWords(input.gensig)) == ReferenceQuality(input)
  {
  }
}
