/** The pass/fail gate of the restart benchmark, computed from its samples. */
module BenchGate {
  import opened Results
  import opened RealFacts
  import opened Sequences

  datatype FailureCode =
    | InitialHealthzTimeout | InitialReadyLogTimeout | InitialReadyzTimeout | RestartDeadlineTimeout
    | RestartSignalFailed | RestartChildExited | NextHealthzTimeout | NextReadyzTimeout | ReadyLogTimeout
    | TraceMissing | ChildNonzeroExit | CleanupFailed

  datatype Iteration = Iteration(failureCode: Option<FailureCode>, restartTrace: map<string, real>,
      snapshotRssMb: seq<Option<real>>)
  datatype Sample = Sample(failureCode: Option<FailureCode>, iterations: seq<Iteration>, maxRssMb: Option<real>,
      rssMbPerRestart: Option<real>)
  datatype CaseResult = CaseResult(id: string, samples: seq<Sample>, failureRate: real,
      firstFailureCode: Option<FailureCode>)

  datatype Reason = MissingSamples | MissingIterations | MissingPositiveRss | MissingRestartRss | MissingRssSlope
  datatype EvidenceFailure = EvidenceFailure(id: string, reason: Reason, sampleIndex: Option<nat>)

  // ----- resource values and their slope

  function TraceValue(iteration: Iteration, keys: seq<string>): Option<real> {
    if keys == [] then None
    else if keys[0] in iteration.restartTrace then Some(iteration.restartTrace[keys[0]])
    else TraceValue(iteration, keys[1..])
  }

  function LastSnapshot(values: seq<Option<real>>): Option<real> {
    if values == [] then None
    else if values[|values| - 1].Some? then values[|values| - 1]
    else LastSnapshot(values[..|values| - 1])
  }

  function RssMb(iteration: Iteration): Option<real> {
    var traced := TraceValue(iteration, ["restart.ready.rssMb", "restart.ready.memory.ready.rssMb"]);
    if traced.Some? then traced else LastSnapshot(iteration.snapshotRssMb)
  }

  datatype Point = Point(index: nat, value: real)

  function Points(values: seq<Option<real>>): seq<Point> {
    if values == [] then []
    else
      var n := |values| - 1;
      Points(values[..n]) + if values[n].Some? then [Point(n, values[n].value)] else []
  }

  function Slope(values: seq<Option<real>>): Option<real> {
    var points := Points(values);
    if |points| < 2 then None
    else
      var first, last := points[0], points[|points| - 1];
      var distance := last.index - first.index;
      Some((last.value - first.value) / ((if distance > 1 then distance else 1) as real))
  }

  function RssValues(iterations: seq<Iteration>): seq<Option<real>> {
    seq(|iterations|, i requires 0 <= i < |iterations| => RssMb(iterations[i]))
  }

  // ----- the summary of one case

  function FailedIterations(iterations: seq<Iteration>): seq<Iteration> {
    if iterations == [] then []
    else (if iterations[0].failureCode.Some? then [iterations[0]] else []) + FailedIterations(iterations[1..])
  }

  function AllIterations(samples: seq<Sample>): seq<Iteration> {
    if samples == [] then [] else samples[0].iterations + AllIterations(samples[1..])
  }

  predicate FailsAlone(sample: Sample) {
    sample.failureCode.Some? && forall i :: i in sample.iterations ==> i.failureCode.None?
  }

  function SampleOnlyFailures(samples: seq<Sample>): seq<Sample> {
    if samples == [] then []
    else (if FailsAlone(samples[0]) then [samples[0]] else []) + SampleOnlyFailures(samples[1..])
  }

  function FirstSampleFailure(samples: seq<Sample>): Option<FailureCode> {
    if samples == [] then None
    else if samples[0].failureCode.Some? then samples[0].failureCode
    else FirstSampleFailure(samples[1..])
  }

  function SummarizeCase(id: string, samples: seq<Sample>): CaseResult {
    var iterations := AllIterations(samples);
    var failedIterations := FailedIterations(iterations);
    var sampleOnlyFailures := SampleOnlyFailures(samples);
    var failureUnits := |iterations| + |sampleOnlyFailures|;
    var sampleFailure := FirstSampleFailure(samples);
    CaseResult(id, samples,
      if failureUnits == 0 then 0.0 else (|failedIterations| + |sampleOnlyFailures|) as real / failureUnits as real,
      if sampleFailure.Some? then sampleFailure else if failedIterations == [] then None
      else failedIterations[0].failureCode)
  }

  // ----- the gate

  predicate IsPositive(value: Option<real>) {
    value.Some? && value.value > 0.0
  }

  predicate IsFailureFree(sample: Sample) {
    sample.failureCode.None? && forall i :: i in sample.iterations ==> i.failureCode.None?
  }

  predicate HasFailures(results: seq<CaseResult>) {
    exists r :: r in results && (r.failureRate > 0.0 || r.firstFailureCode.Some?)
  }

  function SampleFailures(id: string, sample: Sample, sampleIndex: nat): seq<EvidenceFailure> {
    if !IsFailureFree(sample) then []
    else if sample.iterations == [] then [EvidenceFailure(id, MissingIterations, Some(sampleIndex))]
    else
      (if !IsPositive(sample.maxRssMb) then [EvidenceFailure(id, MissingPositiveRss, Some(sampleIndex))] else []) +
      (if exists i :: i in sample.iterations && !IsPositive(RssMb(i))
        then [EvidenceFailure(id, MissingRestartRss, Some(sampleIndex))] else []) +
      (if |sample.iterations| >= 2 && sample.rssMbPerRestart.None?
        then [EvidenceFailure(id, MissingRssSlope, Some(sampleIndex))] else [])
  }

  function SamplesFailures(id: string, samples: seq<Sample>): seq<EvidenceFailure> {
    if samples == [] then []
    else SamplesFailures(id, samples[..|samples| - 1]) + SampleFailures(id, samples[|samples| - 1], |samples|)
  }

  function EvidenceFailures(results: seq<CaseResult>): seq<EvidenceFailure> {
    if results == [] then []
    else EvidenceFailures(results[..|results| - 1]) + CaseFailures(results[|results| - 1])
  }

  function CaseFailures(r: CaseResult): seq<EvidenceFailure> {
    if r.samples == [] then [EvidenceFailure(r.id, MissingSamples, None)] else SamplesFailures(r.id, r.samples)
  }

  lemma NothingFound(before: seq<EvidenceFailure>)
    ensures before + [] == before
  {
  }

  lemma FoundMore(a: seq<EvidenceFailure>, b: seq<EvidenceFailure>, c: seq<EvidenceFailure>)
    ensures a + b + c == a + (b + c)
  {
  }

  method CollectBenchmarkEvidenceFailures(results: seq<CaseResult>) returns (failures: seq<EvidenceFailure>)
    ensures failures == EvidenceFailures(results)
    ensures failures == [] <==> forall r :: r in results ==> IsEvidenced(r)
  {
    failures := [];
    for r := 0 to |results|
      invariant failures == EvidenceFailures(results[..r])
    {
      var result := results[r];
      assert results[..r + 1][..r] == results[..r];
      if |result.samples| == 0 {
        failures := failures + [EvidenceFailure(result.id, MissingSamples, None)];
        continue;
      }
      ghost var before := failures;
      NothingFound(before);
      for index := 0 to |result.samples|
        invariant failures == before + SamplesFailures(result.id, result.samples[..index])
      {
        assert result.samples[..index + 1][..index] == result.samples[..index];
        var found := CollectSampleFailures(result.id, result.samples[index], index + 1);
        FoundMore(before, SamplesFailures(result.id, result.samples[..index]), found);
        failures := failures + found;
      }
      assert result.samples[..|result.samples|] == result.samples;
    }
    assert results[..|results|] == results;
    NoEvidenceFailuresIff(results);
  }

  // One turn of the inner loop.
  method CollectSampleFailures(id: string, sample: Sample, sampleIndex: nat) returns (failures: seq<EvidenceFailure>)
    ensures failures == SampleFailures(id, sample, sampleIndex)
  {
    failures := [];
    if !IsFailureFree(sample) {
      return;
    }
    if |sample.iterations| == 0 {
      return [EvidenceFailure(id, MissingIterations, Some(sampleIndex))];
    }
    if !IsPositive(sample.maxRssMb) {
      failures := failures + [EvidenceFailure(id, MissingPositiveRss, Some(sampleIndex))];
    }
    if exists i :: i in sample.iterations && !IsPositive(RssMb(i)) {
      failures := failures + [EvidenceFailure(id, MissingRestartRss, Some(sampleIndex))];
    }
    if |sample.iterations| >= 2 && sample.rssMbPerRestart.None? {
      failures := failures + [EvidenceFailure(id, MissingRssSlope, Some(sampleIndex))];
    }
  }

  predicate ShouldFailBenchmark(results: seq<CaseResult>, allowFailures: bool) {
    |EvidenceFailures(results)| > 0 || (!allowFailures && HasFailures(results))
  }

  // ----- what passing the gate means

  /** Nothing is missing from the sample's evidence, or the sample failed and none is asked for. */
  ghost predicate HasEvidence(s: Sample) {
    IsFailureFree(s) ==>
      && s.iterations != [] && IsPositive(s.maxRssMb)
      && (forall i :: i in s.iterations ==> IsPositive(RssMb(i)))
      && (|s.iterations| >= 2 ==> s.rssMbPerRestart.Some?)
  }

  // The slope recorded with a sample is the one computed from its iterations.
  ghost predicate Measured(s: Sample) {
    s.rssMbPerRestart == Slope(RssValues(s.iterations))
  }

  ghost predicate Summarized(r: CaseResult) {
    r == SummarizeCase(r.id, r.samples) && forall s :: s in r.samples ==> Measured(s)
  }

  lemma NothingLacking(id: string, s: Sample, sampleIndex: nat)
    ensures SampleFailures(id, s, sampleIndex) == [] <==> HasEvidence(s)
  {
  }

  // The case has samples, and each has its evidence.
  ghost predicate IsEvidenced(r: CaseResult) {
    r.samples != [] && forall s :: s in r.samples ==> HasEvidence(s)
  }

  lemma {:induction false} NoSampleFailuresIff(id: string, samples: seq<Sample>)
    ensures SamplesFailures(id, samples) == [] <==> forall s :: s in samples ==> HasEvidence(s)
  {
    if samples != [] {
      var init, last := samples[..|samples| - 1], samples[|samples| - 1];
      NoSampleFailuresIff(id, init);
      MembersOfInit(samples);
      NothingLacking(id, last, |samples|);
      BothEmpty(SamplesFailures(id, init), SampleFailures(id, last, |samples|));
    }
  }

  lemma {:induction false} NoEvidenceFailuresIff(results: seq<CaseResult>)
    ensures EvidenceFailures(results) == [] <==> forall r :: r in results ==> IsEvidenced(r)
  {
    if results != [] {
      var init, last := results[..|results| - 1], results[|results| - 1];
      NoEvidenceFailuresIff(init);
      NoSampleFailuresIff(last.id, last.samples);
      MembersOfInit(results);
      BothEmpty(EvidenceFailures(init), CaseFailures(last));
      assert CaseFailures(last) == [] <==> IsEvidenced(last);
      assert last in results;
    }
  }

  // A sample deserves a finding.
  ghost predicate Lacks(s: Sample, reason: Reason) {
    IsFailureFree(s) && match reason
      case MissingSamples => false
      case MissingIterations => s.iterations == []
      case MissingPositiveRss => s.iterations != [] && !IsPositive(s.maxRssMb)
      case MissingRestartRss => exists i :: i in s.iterations && !IsPositive(RssMb(i))
      case MissingRssSlope => |s.iterations| >= 2 && s.rssMbPerRestart.None?
  }

  ghost predicate Deserved(r: CaseResult, f: EvidenceFailure) {
    f.id == r.id &&
    if r.samples == [] then f.reason == MissingSamples && f.sampleIndex.None?
    else
      && f.sampleIndex.Some? && 1 <= f.sampleIndex.value <= |r.samples|
      && Lacks(r.samples[f.sampleIndex.value - 1], f.reason)
  }

  lemma SampleFindings(id: string, s: Sample, sampleIndex: nat, f: EvidenceFailure)
    ensures f in SampleFailures(id, s, sampleIndex) <==>
      f.id == id && f.sampleIndex == Some(sampleIndex) && Lacks(s, f.reason)
  {
    assert s.iterations == [] ==> !exists i :: i in s.iterations && !IsPositive(RssMb(i));
  }

  lemma {:induction false} SamplesFindings(id: string, samples: seq<Sample>, f: EvidenceFailure)
    ensures f in SamplesFailures(id, samples) <==>
      f.id == id && f.sampleIndex.Some? && 1 <= f.sampleIndex.value <= |samples| &&
        Lacks(samples[f.sampleIndex.value - 1], f.reason)
  {
    if samples != [] {
      SamplesFindings(id, samples[..|samples| - 1], f);
      SampleFindings(id, samples[|samples| - 1], |samples|, f);
    }
  }

  lemma CaseFindings(r: CaseResult, f: EvidenceFailure)
    ensures f in CaseFailures(r) <==> Deserved(r, f)
  {
    SamplesFindings(r.id, r.samples, f);
  }

  /** Exactly the deserved findings are reported, each with its case, its sample and its reason. */
  lemma {:induction false} FindingIsReportedIff(results: seq<CaseResult>, f: EvidenceFailure)
    ensures f in EvidenceFailures(results) <==> exists r :: r in results && Deserved(r, f)
  {
    if results != [] {
      var init, last := results[..|results| - 1], results[|results| - 1];
      FindingIsReportedIff(init, f);
      CaseFindings(last, f);
      assert f in EvidenceFailures(results) <==> f in EvidenceFailures(init) || Deserved(last, f);
      MembersOfInit(results);
    }
  }

  lemma {:induction false} FailedIterationsCount(iterations: seq<Iteration>)
    ensures |FailedIterations(iterations)| <= |iterations|
    ensures FailedIterations(iterations) == [] <==> forall i :: i in iterations ==> i.failureCode.None?
    ensures FailedIterations(iterations) != [] ==> FailedIterations(iterations)[0].failureCode.Some?
  {
    if iterations != [] {
      FailedIterationsCount(iterations[1..]);
      assert iterations == [iterations[0]] + iterations[1..];
    }
  }

  lemma {:induction false} AllIterationsMembers(samples: seq<Sample>)
    ensures forall i :: i in AllIterations(samples) <==> exists s :: s in samples && i in s.iterations
  {
    if samples != [] {
      AllIterationsMembers(samples[1..]);
      forall i ensures i in AllIterations(samples) <==> exists s :: s in samples && i in s.iterations {
        if i in samples[0].iterations { assert samples[0] in samples; }
      }
    }
  }

  lemma {:induction false} SampleFailuresCount(samples: seq<Sample>)
    ensures SampleOnlyFailures(samples) == [] <==> forall s :: s in samples ==> !FailsAlone(s)
    ensures FirstSampleFailure(samples).None? <==> forall s :: s in samples ==> s.failureCode.None?
  {
    if samples != [] {
      SampleFailuresCount(samples[1..]);
      assert samples == [samples[0]] + samples[1..];
    }
  }

  /** The failure rate is a proportion, zero exactly when nothing failed, and then no failure code is reported. */
  lemma FailureRateIsAProportion(id: string, samples: seq<Sample>)
    ensures var r := SummarizeCase(id, samples);
      && 0.0 <= r.failureRate <= 1.0
      && (r.failureRate == 0.0 <==> forall s :: s in samples ==> IsFailureFree(s))
      && (r.firstFailureCode.None? <==> forall s :: s in samples ==> IsFailureFree(s))
  {
    var iterations := AllIterations(samples);
    FailedIterationsCount(iterations);
    AllIterationsMembers(samples);
    SampleFailuresCount(samples);
    var failed, alone := |FailedIterations(iterations)|, |SampleOnlyFailures(samples)|;
    if |iterations| + alone > 0 {
      ProportionBounds((failed + alone) as real, (|iterations| + alone) as real);
    }
    assert failed + alone == 0 <==> forall s :: s in samples ==> IsFailureFree(s) by {
      if forall s :: s in samples ==> IsFailureFree(s) {
        assert failed == 0;
      }
      if failed + alone == 0 {
        forall s | s in samples ensures IsFailureFree(s) {
          forall i | i in s.iterations ensures i.failureCode.None? { assert i in iterations; }
          assert !FailsAlone(s);
        }
      }
    }
  }

  lemma ProportionBounds(part: real, whole: real)
    requires 0.0 <= part <= whole && whole > 0.0
    ensures 0.0 <= part / whole <= 1.0
    ensures part / whole == 0.0 <==> part == 0.0
  {
    QuotientBounds(part, whole, 0.0, 1.0);
    QuotientBounds(part, whole, 0.0, 0.0);
  }

  lemma {:induction false} PointsKeepValues(values: seq<Option<real>>)
    ensures (forall v :: v in values ==> v.Some?) ==> |Points(values)| == |values|
    ensures forall k :: 0 <= k < |Points(values)| ==>
      Points(values)[k].index < |values| && values[Points(values)[k].index] == Some(Points(values)[k].value)
    ensures forall j, k :: 0 <= j < k < |Points(values)| ==> Points(values)[j].index < Points(values)[k].index
  {
    if values != [] {
      var init := values[..|values| - 1];
      PointsKeepValues(init);
      assert values == init + [values[|values| - 1]];
      forall v | v in init ensures v in values {}
    }
  }

  /** RSS evidence for every one of two or more restarts forces a slope. */
  lemma EvidenceForcesSlope(s: Sample)
    requires Measured(s) && |s.iterations| >= 2 && forall i :: i in s.iterations ==> IsPositive(RssMb(i))
    ensures s.rssMbPerRestart.Some?
  {
    var values := RssValues(s.iterations);
    forall v | v in values ensures v.Some? {
      var k :| 0 <= k < |values| && values[k] == v;
      assert s.iterations[k] in s.iterations;
    }
    PointsKeepValues(values);
  }

  /** The slope is exact on values that grow by the same amount at every restart, however many are missing. */
  lemma SlopeIsExactOnLines(values: seq<Option<real>>, start: real, step: real)
    requires forall i :: 0 <= i < |values| && values[i].Some? ==> values[i].value == start + step * i as real
    ensures Slope(values).Some? ==> Slope(values) == Some(step)
  {
    PointsKeepValues(values);
    var points := Points(values);
    if |points| >= 2 {
      var first, last := points[0], points[|points| - 1];
      var d := (last.index - first.index) as real;
      assert last.value - first.value == step * d;
      QuotientBounds(step * d, d, step, step);
    }
  }

  // ----- what the measured values are

  // The last snapshot that has a value.
  ghost predicate IsLastPresent(values: seq<Option<real>>, k: nat) {
    k < |values| && values[k].Some? && forall j :: k < j < |values| ==> values[j].None?
  }

  lemma {:induction false} LastSnapshotIs(values: seq<Option<real>>)
    ensures forall k: nat :: IsLastPresent(values, k) ==> LastSnapshot(values) == values[k]
    ensures (forall k :: 0 <= k < |values| ==> values[k].None?) ==> LastSnapshot(values).None?
  {
    if values != [] && values[|values| - 1].None? {
      var init := values[..|values| - 1];
      LastSnapshotIs(init);
      forall k: nat | IsLastPresent(values, k) ensures IsLastPresent(init, k) && init[k] == values[k] {}
    }
  }

  /** The resident set size of a restart is the traced one, by its short name or its long one, or else the last that
      a snapshot has. */
  lemma RssMbIs(it: Iteration)
    ensures "restart.ready.rssMb" in it.restartTrace ==>
      RssMb(it) == Some(it.restartTrace["restart.ready.rssMb"])
    ensures "restart.ready.rssMb" !in it.restartTrace && "restart.ready.memory.ready.rssMb" in it.restartTrace ==>
      RssMb(it) == Some(it.restartTrace["restart.ready.memory.ready.rssMb"])
    ensures "restart.ready.rssMb" !in it.restartTrace && "restart.ready.memory.ready.rssMb" !in it.restartTrace ==>
      && (forall k: nat :: IsLastPresent(it.snapshotRssMb, k) ==> RssMb(it) == it.snapshotRssMb[k])
      && ((forall k :: 0 <= k < |it.snapshotRssMb| ==> it.snapshotRssMb[k].None?) ==> RssMb(it).None?)
  {
    var a, b := "restart.ready.rssMb", "restart.ready.memory.ready.rssMb";
    assert [a, b][1..] == [b] && [b][1..] == [];
    assert TraceValue(it, [a, b]) ==
      if a in it.restartTrace then Some(it.restartTrace[a]) else TraceValue(it, [b]);
    assert TraceValue(it, [b]) == if b in it.restartTrace then Some(it.restartTrace[b]) else TraceValue(it, []);
    LastSnapshotIs(it.snapshotRssMb);
  }

  lemma {:induction false} PointsAreAll(values: seq<Option<real>>, k: nat)
    requires k < |values| && values[k].Some?
    ensures Point(k, values[k].value) in Points(values)
  {
    if k < |values| - 1 { PointsAreAll(values[..|values| - 1], k); }
  }

  // The first and the last value present are at i and j.
  ghost predicate AreEnds(values: seq<Option<real>>, i: nat, j: nat) {
    && i <= j < |values| && values[i].Some? && values[j].Some?
    && forall k :: (0 <= k < i || j < k < |values|) ==> values[k].None?
  }

  /** The slope is the change from the first value to the last, per restart between them; there is none unless two
      values are present. */
  lemma SlopeIs(values: seq<Option<real>>, i: nat, j: nat)
    requires AreEnds(values, i, j)
    ensures i == j <==> Slope(values).None?
    ensures Slope(values).Some? ==> Slope(values).value * (j - i) as real == values[j].value - values[i].value
  {
    var points := Points(values);
    PointsKeepValues(values);
    PointsAreAll(values, i);
    PointsAreAll(values, j);
    var first, last := points[0], points[|points| - 1];
    assert first.index == i && last.index == j;
    if |points| >= 2 {
      assert first.index < last.index;
      QuotientTimes(last.value - first.value, (j - i) as real);
    }
  }

  lemma NoSlope(values: seq<Option<real>>)
    requires forall k :: 0 <= k < |values| ==> values[k].None?
    ensures Slope(values).None?
  {
    PointsKeepValues(values);
  }

  // ----- what the summary counts

  // The first iteration with a failure code.
  ghost predicate IsFirstFailing(iterations: seq<Iteration>, k: nat) {
    && k < |iterations| && iterations[k].failureCode.Some?
    && forall j :: 0 <= j < k ==> iterations[j].failureCode.None?
  }

  ghost predicate IsFirstFailingSample(samples: seq<Sample>, k: nat) {
    k < |samples| && samples[k].failureCode.Some? && forall j :: 0 <= j < k ==> samples[j].failureCode.None?
  }

  function CountIf(condition: bool, n: nat): nat {
    if condition then n else 0
  }

  /** The failed iterations are those with a failure code, each as often as it occurs. */
  lemma {:induction false} FailedIterationsAre(iterations: seq<Iteration>, x: Iteration)
    ensures multiset(FailedIterations(iterations))[x] == CountIf(x.failureCode.Some?, multiset(iterations)[x])
  {
    if iterations != [] {
      FailedIterationsAre(iterations[1..], x);
      assert iterations == [iterations[0]] + iterations[1..];
    }
  }

  lemma {:induction false} FirstFailedIs(iterations: seq<Iteration>, k: nat)
    requires IsFirstFailing(iterations, k)
    ensures FailedIterations(iterations) != [] && FailedIterations(iterations)[0] == iterations[k]
  {
    if k > 0 { FirstFailedIs(iterations[1..], k - 1); }
  }

  /** The samples that fail alone have a failure code of their own and no failed iteration. */
  lemma {:induction false} SampleOnlyFailuresAre(samples: seq<Sample>, x: Sample)
    ensures multiset(SampleOnlyFailures(samples))[x]
      == CountIf(x.failureCode.Some? && forall i :: i in x.iterations ==> i.failureCode.None?, multiset(samples)[x])
  {
    if samples != [] {
      SampleOnlyFailuresAre(samples[1..], x);
      assert samples == [samples[0]] + samples[1..];
    }
  }

  lemma {:induction false} AllIterationsConcat(a: seq<Sample>, b: seq<Sample>)
    ensures AllIterations(a + b) == AllIterations(a) + AllIterations(b)
    ensures forall s: Sample :: AllIterations([s]) == s.iterations
  {
    forall s: Sample ensures AllIterations([s]) == s.iterations {
      assert [s][1..] == [] && s.iterations + [] == s.iterations;
    }
    if a == [] {
      assert a + b == b;
    } else {
      assert (a + b)[1..] == a[1..] + b;
      AllIterationsConcat(a[1..], b);
    }
  }

  // A rate of so many parts in a whole, zero if there is nothing.
  ghost predicate IsRate(rate: real, part: nat, whole: nat) {
    if whole == 0 then rate == 0.0 else rate * (whole as real) == part as real
  }

  lemma QuotientIsRate(part: nat, whole: nat)
    requires whole > 0
    ensures IsRate(part as real / whole as real, part, whole)
  {
    QuotientTimes(part as real, whole as real);
  }

  /** The failure rate is the number of failed iterations and samples that fail alone, out of all iterations and such
      samples. */
  lemma FailureRateIs(id: string, samples: seq<Sample>, part: nat, whole: nat)
    requires part == |FailedIterations(AllIterations(samples))| + |SampleOnlyFailures(samples)|
    requires whole == |AllIterations(samples)| + |SampleOnlyFailures(samples)|
    ensures IsRate(SummarizeCase(id, samples).failureRate, part, whole)
  {
    if whole > 0 { QuotientIsRate(part, whole); }
  }

  lemma {:induction false} FirstSampleFailureIs(samples: seq<Sample>, k: nat)
    requires IsFirstFailingSample(samples, k)
    ensures FirstSampleFailure(samples) == samples[k].failureCode
  {
    if k > 0 { FirstSampleFailureIs(samples[1..], k - 1); }
  }

  /** The failure code reported is that of the first sample that has one, or else of the first iteration. */
  lemma FirstFailureIs(id: string, samples: seq<Sample>, k: nat)
    ensures IsFirstFailingSample(samples, k) ==> SummarizeCase(id, samples).firstFailureCode == samples[k].failureCode
    ensures (forall s :: s in samples ==> s.failureCode.None?) && IsFirstFailing(AllIterations(samples), k) ==>
      SummarizeCase(id, samples).firstFailureCode == AllIterations(samples)[k].failureCode
  {
    if IsFirstFailingSample(samples, k) { FirstSampleFailureIs(samples, k); }
    SampleFailuresCount(samples);
    if IsFirstFailing(AllIterations(samples), k) { FirstFailedIs(AllIterations(samples), k); }
  }

  // ----- the gate

  // What a maintainer reads off a sample: no failure code anywhere, iterations, and positive sizes throughout.
  ghost predicate NothingFailed(s: Sample) {
    s.failureCode.None? && forall i :: i in s.iterations ==> i.failureCode.None?
  }

  ghost predicate FullyMeasured(s: Sample) {
    && s.iterations != [] && s.maxRssMb.Some? && s.maxRssMb.value > 0.0
    && forall i :: i in s.iterations ==> RssMb(i).Some? && RssMb(i).value > 0.0
  }

  lemma EvidenceIs(s: Sample)
    requires Measured(s)
    ensures HasEvidence(s) <==> (NothingFailed(s) ==> FullyMeasured(s))
  {
    if |s.iterations| >= 2 && forall i :: i in s.iterations ==> IsPositive(RssMb(i)) { EvidenceForcesSlope(s); }
  }

  /** With failures disallowed the gate passes exactly on complete, failure-free, evidenced results. */
  lemma GatePassesIff(results: seq<CaseResult>)
    requires forall r :: r in results ==> Summarized(r)
    ensures !ShouldFailBenchmark(results, false) <==>
      forall r :: r in results ==> r.samples != [] && forall s :: s in r.samples ==>
        NothingFailed(s) && FullyMeasured(s)
  {
    NoEvidenceFailuresIff(results);
    forall r | r in results
      ensures (r.failureRate > 0.0 || r.firstFailureCode.Some?) <==> exists s :: s in r.samples && !IsFailureFree(s)
    {
      FailureRateIsAProportion(r.id, r.samples);
    }
    forall r, s | r in results && s in r.samples
      ensures HasEvidence(s) <==> (NothingFailed(s) ==> FullyMeasured(s))
    {
      EvidenceIs(s);
    }
  }

  /** With failures allowed it passes exactly when every case has samples and every sample without a failure is fully
      measured. */
  lemma GateAllowingFailuresIff(results: seq<CaseResult>)
    requires forall r :: r in results ==> Summarized(r)
    ensures !ShouldFailBenchmark(results, true) <==>
      forall r :: r in results ==>
        r.samples != [] && forall s :: s in r.samples && NothingFailed(s) ==> FullyMeasured(s)
  {
    NoEvidenceFailuresIff(results);
    forall r, s | r in results && s in r.samples
      ensures HasEvidence(s) <==> (NothingFailed(s) ==> FullyMeasured(s))
    {
      EvidenceIs(s);
    }
  }
}
