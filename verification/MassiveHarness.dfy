/**
 The massive ABBA harness: measuring one case against its oracle, running one block, pairing four
 blocks into a round, and the campaign report.  What the device does is an input.
 */
module MassiveHarness {
  import opened OrderStatistics
  import opened Wrappers
  import Suite = ReferenceSuite

  type ReferenceCase = Suite.ReferenceCase

  // ----- Timing samples -----

  datatype Sample = Finite(ms: real) | NonFinite

  datatype Timing = Timing(samples: seq<Sample>, median: real)

  /** Samples that can be summarized: some, all of them finite and non-negative. */
  predicate Usable(samples: seq<Sample>) {
    samples != [] && forall i :: 0 <= i < |samples| ==> samples[i].Finite? && samples[i].ms >= 0.0
  }

  function Milliseconds(samples: seq<Sample>): (v: seq<real>)
    requires Usable(samples)
    ensures |v| == |samples| && forall i :: 0 <= i < |v| ==> v[i] == samples[i].ms
  {
    seq(|samples|, i requires 0 <= i < |samples| => samples[i].ms)
  }

  function MedianOf(samples: seq<Sample>): real
    requires Usable(samples)
  {
    Percentile(Sorted(Milliseconds(samples)), 0.5)
  }

  /** `timing_report`, of which the harness reads the median. */
  function TimingReport(samples: seq<Sample>): Option<Timing> {
    if Usable(samples) then Some(Timing(samples, MedianOf(samples))) else None
  }

  lemma MedianIsNonNegative(samples: seq<Sample>)
    requires Usable(samples)
    ensures MedianOf(samples) >= 0.0
  {
    MedianIsPercentile(Milliseconds(samples));
    MedianInRange(Milliseconds(samples), 0.0);
  }

  // ----- One generation against its oracle -----

  datatype Profile = Profile(generatedIds: seq<nat>, generatedTokens: nat, forwardRuns: nat, forwardGpuMs: seq<Sample>,
                             prefillGpuMs: Sample, stageGpuMs: Sample, samplingIncluded: bool, finalTokenConsumed: bool)

  /** What one session does: it cannot be made, its generation fails, or it returns a profile with its wall times. */
  datatype Attempt =
    | NoSession
    | GenerationFailed
    | Profiled(setupMs: Sample, wallMs: Sample, requestMs: Sample, profile: Profile)

  /** `require_expected_profile`: the oracle's tokens, one forward run fewer than tokens, and the metric contract. */
  predicate ExpectedProfile(p: Profile, c: ReferenceCase) {
    && p.generatedIds == c.greedyIds
    && p.generatedTokens == c.decodeSteps
    && p.forwardRuns == c.decodeSteps - 1 && |p.forwardGpuMs| == c.decodeSteps - 1
    && !p.samplingIncluded && !p.finalTokenConsumed
  }

  predicate Reproduces(a: Attempt, c: ReferenceCase) {
    a.Profiled? && ExpectedProfile(a.profile, c)
  }

  predicate AllReproduce(attempts: nat -> Attempt, c: ReferenceCase, first: nat, n: nat) {
    forall k: nat :: first <= k < first + n ==> Reproduces(attempts(k), c)
  }

  datatype Metric = Setup | Wall | Request | Prefill | Gpu

  function Value(a: Attempt, m: Metric): Sample {
    match a
    case Profiled(setup, wall, request, p) =>
      (match m
       case Setup => setup
       case Wall => wall
       case Request => request
       case Prefill => p.prefillGpuMs
       case Gpu => p.stageGpuMs)
    case _ => NonFinite
  }

  /** One metric of n consecutive attempts. */
  function Series(attempts: nat -> Attempt, first: nat, n: nat, m: Metric): (s: seq<Sample>)
    ensures |s| == n && forall i :: 0 <= i < n ==> s[i] == Value(attempts(first + i), m)
  {
    seq(n, i requires 0 <= i < n => Value(attempts(first + i), m))
  }

  lemma SeriesStarts(attempts: nat -> Attempt, first: nat)
    ensures forall m :: Series(attempts, first, 0, m) == []
  {
  }

  lemma SeriesGrows(attempts: nat -> Attempt, first: nat, i: nat)
    ensures forall m :: Series(attempts, first, i + 1, m) == Series(attempts, first, i,
              m) + [Value(attempts(first + i), m)]
  {
  }

  datatype CaseMeasurement = CaseMeasurement(name: string, family: string, inputTokens: nat, decodeSteps: nat,
                                             success: bool, generatedIds: seq<nat>, exact: bool,
                                             timings: map<Metric, Timing>)

  function FailedCase(c: ReferenceCase): CaseMeasurement {
    CaseMeasurement(c.name, c.family, |c.inputIds|, c.decodeSteps, false, [], false, map[])
  }

  /** One attempt reproduces the oracle: its tokens, their number, and one forward run fewer, with nothing sampled. */
  lemma ReproducesMeans(a: Attempt, c: ReferenceCase)
    ensures Reproduces(a, c) <==>
            && a.Profiled?
            && a.profile.generatedIds == c.greedyIds && a.profile.generatedTokens == c.decodeSteps
            && a.profile.forwardRuns + 1 == c.decodeSteps && |a.profile.forwardGpuMs| + 1 == c.decodeSteps
            && !a.profile.samplingIncluded && !a.profile.finalTokenConsumed
  {
  }

  /** The time that each metric is. */
  lemma SeriesHold(attempts: nat -> Attempt, first: nat, n: nat, i: nat)
    requires i < n && attempts(first + i).Profiled?
    ensures var a := attempts(first + i);
            && Series(attempts, first, n, Setup)[i] == a.setupMs && Series(attempts, first, n, Wall)[i] == a.wallMs
            && Series(attempts, first, n, Request)[i] == a.requestMs
            && Series(attempts, first, n, Prefill)[i] == a.profile.prefillGpuMs
            && Series(attempts, first, n, Gpu)[i] == a.profile.stageGpuMs
  {
  }

  /** Every attempt reproduces the oracle, every measured series can be summarized, and the GPU median is positive. */
  ghost predicate Measurable(c: ReferenceCase, attempts: nat -> Attempt, warmups: nat, iterations: nat) {
    && AllReproduce(attempts, c, 0, warmups) && AllReproduce(attempts, c, warmups, iterations)
    && (forall m :: Usable(Series(attempts, warmups, iterations, m)))
    && MedianOf(Series(attempts, warmups, iterations, Gpu)) > 0.0
  }

  ghost predicate SuccessfulMeasurement(r: CaseMeasurement, c: ReferenceCase, attempts: nat -> Attempt,
                                        warmups: nat, iterations: nat)
  {
    && r.success && r.exact
    && r.name == c.name && r.family == c.family && r.inputTokens == |c.inputIds| && r.decodeSteps == c.decodeSteps
    && r.generatedIds == c.greedyIds
    && r.timings.Keys == {Setup, Wall, Request, Prefill, Gpu}
    && (forall m :: m in r.timings ==> Some(r.timings[m]) == TimingReport(Series(attempts, warmups, iterations, m)))
  }

  /** The warm-up loop: every warm-up is held to the oracle as well. */
  method WarmUp(c: ReferenceCase, attempts: nat -> Attempt, warmups: nat) returns (ok: bool)
    ensures ok <==> AllReproduce(attempts, c, 0, warmups)
  {
    for k := 0 to warmups
      invariant AllReproduce(attempts, c, 0, k)
    {
      if !Reproduces(attempts(k), c) {
        return false;
      }
    }
    return true;
  }

  /** The measured loop: five growing lists of samples, up to the first attempt that misses the oracle. */
  method MeasureIterations(c: ReferenceCase, attempts: nat -> Attempt, first: nat, iterations: nat)
      returns (ok: bool, generated: seq<nat>, setups: seq<Sample>, walls: seq<Sample>, requests: seq<Sample>,
               prefills: seq<Sample>, gpus: seq<Sample>)
    ensures ok <==> AllReproduce(attempts, c, first, iterations)
    ensures ok ==>
              && (iterations > 0 ==> generated == c.greedyIds)
              && setups == Series(attempts, first, iterations, Setup) &&
                  walls == Series(attempts, first, iterations, Wall)
              && requests == Series(attempts, first, iterations, Request)
              && prefills == Series(attempts, first, iterations, Prefill) &&
                  gpus == Series(attempts, first, iterations, Gpu)
  {
    hide ExpectedProfile, Series;
    SeriesStarts(attempts, first);
    ok, generated, setups, walls, requests, prefills, gpus := true, [], [], [], [], [], [];
    for i := 0 to iterations
      invariant ok && AllReproduce(attempts, c, first, i)
      invariant i > 0 ==> generated == c.greedyIds
      invariant setups == Series(attempts, first, i, Setup)
      invariant walls == Series(attempts, first, i, Wall)
      invariant requests == Series(attempts, first, i, Request)
      invariant prefills == Series(attempts, first, i, Prefill)
      invariant gpus == Series(attempts, first, i, Gpu)
    {
      var a := attempts(first + i);
      SeriesGrows(attempts, first, i);
      if !a.Profiled? {
        assert !Reproduces(a, c);
        ok := false;
        return;
      }
      setups, walls, requests := setups + [a.setupMs], walls + [a.wallMs], requests + [a.requestMs];
      if !ExpectedProfile(a.profile, c) {
        assert !Reproduces(a, c);
        ok := false;
        return;
      }
      prefills, gpus := prefills + [a.profile.prefillGpuMs], gpus + [a.profile.stageGpuMs];
      ExpectedTokens(a.profile, c);
      if i == 0 {
        generated := a.profile.generatedIds;
      } else if a.profile.generatedIds != generated {
        // The output cannot change across iterations: each has already matched the oracle.
        assert false;
      }
    }
  }

  /**
   `measure_case`: a measurement exactly when every attempt, warm-up or measured, reproduces the
   oracle and every series can be summarized; what it holds is then the oracle's tokens and the
   timings of the measured attempts alone.
   */
  method MeasureCase(c: ReferenceCase, attempts: nat -> Attempt, warmups: nat, iterations: nat)
      returns (r: Option<CaseMeasurement>)
    ensures r.Some? <==> Measurable(c, attempts, warmups, iterations)
    ensures r.Some? ==> SuccessfulMeasurement(r.value, c, attempts, warmups, iterations)
  {
    hide AllReproduce, Usable, MedianOf, Series;
    var warm := WarmUp(c, attempts, warmups);
    if !warm {
      return None;
    }
    var same, generated, setups, walls, requests, prefills, gpus := MeasureIterations(c, attempts, warmups, iterations);
    if !same {
      return None;
    }
    SeriesLength(attempts, warmups, iterations);
    var gpu := TimingReport(gpus);
    if gpu.None? || gpu.value.median <= 0.0 {
      return None;
    }
    var setup, wall, request, prefill :=
      TimingReport(setups), TimingReport(walls), TimingReport(requests), TimingReport(prefills);
    if setup.None? || wall.None? || request.None? || prefill.None? {
      return None;
    }
    forall m
      ensures Usable(Series(attempts, warmups, iterations, m))
    {
      match m case Setup => case Wall => case Request => case Prefill => case Gpu =>
    }
    return Some(CaseMeasurement(c.name, c.family, |c.inputIds|, c.decodeSteps, true, generated, true,
                                map[Setup := setup.value, Wall := wall.value, Request := request.value,
                                    Prefill := prefill.value, Gpu := gpu.value]));
  }

  /**
   When a case is measurable: every warm-up and every iteration reproduces the oracle, there is an
   iteration, its five times are all finite and not negative, and the GPU times have a positive median.
   */
  lemma MeasurableMeans(c: ReferenceCase, attempts: nat -> Attempt, warmups: nat, iterations: nat)
    ensures Measurable(c, attempts, warmups, iterations) <==>
            && iterations > 0
            && (forall k: nat :: k < warmups + iterations ==> Reproduces(attempts(k), c))
            && (forall m :: AllTimes(attempts, warmups, iterations, m))
            && MedianOfTimes(Series(attempts, warmups, iterations, Gpu)) > 0.0
  {
    hide Reproduces, AllTimes, MedianOf, Usable, Series;
    forall m
      ensures Usable(Series(attempts, warmups, iterations, m)) <==>
              iterations > 0 && AllTimes(attempts, warmups, iterations, m)
    {
      UsableSeries(attempts, warmups, iterations, m);
    }
    assert AllReproduce(attempts, c, 0, warmups) && AllReproduce(attempts, c, warmups, iterations)
           <==> forall k: nat :: k < warmups + iterations ==> Reproduces(attempts(k), c);
  }

  /** One of the five times of the measured attempts is always finite and not negative. */
  predicate AllTimes(attempts: nat -> Attempt, first: nat, n: nat, m: Metric) {
    forall k: nat :: first <= k < first + n ==> IsTime(Value(attempts(k), m))
  }

  lemma UsableSeries(attempts: nat -> Attempt, first: nat, n: nat, m: Metric)
    ensures Usable(Series(attempts, first, n, m)) <==> n > 0 && AllTimes(attempts, first, n, m)
  {
    hide Value, IsTime, Usable;
    var s := Series(attempts, first, n, m);
    UsableMeans(s);
    if forall i :: 0 <= i < |s| ==> IsTime(s[i]) {
      forall k: nat | first <= k < first + n
        ensures IsTime(Value(attempts(k), m))
      {
        assert s[k - first] == Value(attempts(k), m);
      }
    }
  }

  /** A finite time that is not negative. */
  predicate IsTime(s: Sample) {
    s.Finite? && !(s.ms < 0.0)
  }

  lemma UsableMeans(samples: seq<Sample>)
    ensures Usable(samples) <==> |samples| > 0 && forall i :: 0 <= i < |samples| ==> IsTime(samples[i])
  {
  }

  function MedianOfTimes(samples: seq<Sample>): real {
    if Usable(samples) then MedianOf(samples) else 0.0
  }

  /** What a measurement holds: the samples of the measured attempts in order, metric by metric, and their medians. */
  lemma MeasurementHolds(r: CaseMeasurement, c: ReferenceCase, attempts: nat -> Attempt, warmups: nat, iterations: nat)
    requires Measurable(c, attempts, warmups, iterations)
    requires SuccessfulMeasurement(r, c, attempts, warmups, iterations)
    ensures iterations > 0
    ensures forall m :: m in r.timings && |r.timings[m].samples| == iterations
                        && Usable(r.timings[m].samples) && r.timings[m].median == MedianOf(r.timings[m].samples)
    ensures forall i: nat :: i < iterations ==>
              var a := attempts(warmups + i);
              && a.Profiled?
              && r.timings[Setup].samples[i] == a.setupMs && r.timings[Wall].samples[i] == a.wallMs
              && r.timings[Request].samples[i] == a.requestMs
              && r.timings[Prefill].samples[i] == a.profile.prefillGpuMs
              && r.timings[Gpu].samples[i] == a.profile.stageGpuMs
  {
    hide ExpectedProfile, MedianOf, Usable, Series;
    SeriesLength(attempts, warmups, iterations);
    forall m
      ensures m in r.timings && r.timings[m].samples == Series(attempts, warmups, iterations, m)
      ensures Usable(r.timings[m].samples) && r.timings[m].median == MedianOf(r.timings[m].samples)
    {
      match m case Setup => case Wall => case Request => case Prefill => case Gpu =>
      assert m in {Setup, Wall, Request, Prefill, Gpu};
      assert Some(r.timings[m]) == TimingReport(Series(attempts, warmups, iterations, m));
    }
    forall i: nat | i < iterations
      ensures var a := attempts(warmups + i);
              && a.Profiled?
              && r.timings[Setup].samples[i] == a.setupMs && r.timings[Wall].samples[i] == a.wallMs
              && r.timings[Request].samples[i] == a.requestMs
              && r.timings[Prefill].samples[i] == a.profile.prefillGpuMs
              && r.timings[Gpu].samples[i] == a.profile.stageGpuMs
    {
      assert Reproduces(attempts(warmups + i), c);
      SeriesHold(attempts, warmups, iterations, i);
    }
  }

  lemma SeriesLength(attempts: nat -> Attempt, first: nat, n: nat)
    ensures Usable(Series(attempts, first, n, Gpu)) ==> n > 0
  {
  }

  lemma ExpectedTokens(p: Profile, c: ReferenceCase)
    requires ExpectedProfile(p, c)
    ensures p.generatedIds == c.greedyIds
  {
  }

  // ----- One block -----

  datatype Plan = Reference | Transposed | Fused | FusedMlp | Staged | FusedMlpStaged {
    predicate UsesStagedAttention() {
      this == Staged || this == FusedMlpStaged
    }
  }

  datatype Slot = A1 | B1 | B2 | A2

  /** What the device does for one block, in the order it is asked, and in its sessions, case by case. */
  datatype Device = Device(ready: bool, stagedRows: Option<nat>, loads: bool, configMatches: bool, plansKept: bool,
                           memoryReadable: bool, sessions: nat -> nat -> Attempt)

  datatype Campaign = Campaign(cases: seq<ReferenceCase>, rounds: nat, warmups: nat, iterations: nat,
      candidates: seq<Plan>)

  function RowsOf(c: ReferenceCase): nat
    requires c.decodeSteps > 0
  {
    |c.inputIds| + c.decodeSteps - 1
  }

  predicate Decodes(cases: seq<ReferenceCase>) {
    forall i :: 0 <= i < |cases| ==> cases[i].decodeSteps > 0
  }

  /** The KV rows that the longest case needs. */
  function MaxActiveRows(cases: seq<ReferenceCase>): (rows: nat)
    requires Decodes(cases)
    ensures forall i :: 0 <= i < |cases| ==> RowsOf(cases[i]) <= rows
    ensures if cases == [] then rows == 0 else exists i :: 0 <= i < |cases| && RowsOf(cases[i]) == rows
  {
    if cases == [] then 0
    else
      var init := cases[..|cases| - 1];
      var here := RowsOf(cases[|cases| - 1]);
      assert forall i :: 0 <= i < |init| ==> RowsOf(init[i]) == RowsOf(cases[i]);
      var before := MaxActiveRows(init);
      if before > here then before else here
  }

  /** The block gets as far as its cases; staged attention must hold every case, or nothing is measured. */
  predicate Starts(d: Device, plan: Plan, cases: seq<ReferenceCase>)
    requires Decodes(cases)
  {
    && d.ready
    && (plan.UsesStagedAttention() ==> d.stagedRows.Some? && d.stagedRows.value >= MaxActiveRows(cases))
    && d.loads && d.configMatches && d.plansKept && d.memoryReadable
  }

  datatype BlockReport = BlockReport(slot: Slot, plan: Plan, success: bool, cases: seq<CaseMeasurement>)

  /** Which case is measured i-th. */
  function Place(n: nat, reverse: bool, i: nat): nat
    requires i < n
  {
    if reverse then n - 1 - i else i
  }

  /** The measurement of a case, or its failure. */
  ghost predicate Outcome(r: CaseMeasurement, c: ReferenceCase, attempts: nat -> Attempt, k: Campaign) {
    if Measurable(c, attempts, k.warmups, k.iterations)
    then SuccessfulMeasurement(r, c, attempts, k.warmups, k.iterations)
    else r == FailedCase(c)
  }

  ghost predicate BlockOf(b: BlockReport, d: Device, plan: Plan, slot: Slot, reverse: bool, k: Campaign)
    requires Decodes(k.cases)
  {
    && b.slot == slot && b.plan == plan && |b.cases| == |k.cases|
    && (b.success <==> Starts(d, plan, k.cases) && forall i :: 0 <= i < |b.cases| ==> b.cases[i].success)
    && (forall i :: 0 <= i < |b.cases| ==>
          if Starts(d, plan, k.cases)
          then
            var j := Place(|k.cases|, reverse, i);
            Outcome(b.cases[i], k.cases[j], d.sessions(j), k)
          else b.cases[i] == FailedCase(k.cases[i]))
  }

  /** `run_block`: one entry per case whatever happens, in suite order or reversed. */
  method RunBlock(d: Device, plan: Plan, slot: Slot, reverse: bool, k: Campaign) returns (b: BlockReport)
    requires Decodes(k.cases)
    ensures BlockOf(b, d, plan, slot, reverse, k)
  {
    hide Measurable, SuccessfulMeasurement, Starts, Decodes;
    var n := |k.cases|;
    var entries: seq<CaseMeasurement> := [];
    if !Starts(d, plan, k.cases) {
      for i := 0 to n
        invariant |entries| == i && forall j :: 0 <= j < i ==> entries[j] == FailedCase(k.cases[j])
      {
        entries := entries + [FailedCase(k.cases[i])];
      }
      return BlockReport(slot, plan, false, entries);
    }
    var success := true;
    for i := 0 to n
      invariant |entries| == i
      invariant forall h :: 0 <= h < i ==>
                  Outcome(entries[h], k.cases[Place(n, reverse, h)], d.sessions(Place(n, reverse, h)), k)
      invariant success <==> forall h :: 0 <= h < i ==> entries[h].success
    {
      var index := Place(n, reverse, i);
      var c := k.cases[index];
      var measured := MeasureCase(c, d.sessions(index), k.warmups, k.iterations);
      var entry := if measured.Some? then measured.value else FailedCase(c);
      entries := entries + [entry];
      success := success && entry.success;
    }
    return BlockReport(slot, plan, success, entries);
  }

  /** What an entry says: which case it is about, and the result it holds, or none at all. */
  ghost predicate EntrySays(r: CaseMeasurement, c: ReferenceCase) {
    && r.name == c.name && r.family == c.family && r.inputTokens == |c.inputIds| && r.decodeSteps == c.decodeSteps
    && (r.success ==> r.exact && r.generatedIds == c.greedyIds)
    && (!r.success ==> !r.exact && r.generatedIds == [] && r.timings == map[])
  }

  lemma OutcomeSays(r: CaseMeasurement, c: ReferenceCase, attempts: nat -> Attempt, k: Campaign)
    requires Outcome(r, c, attempts, k)
    ensures EntrySays(r, c)
  {
    hide Measurable;
  }

  lemma FailedSays(c: ReferenceCase)
    ensures EntrySays(FailedCase(c), c)
  {
  }

  /**
   Every entry of a block is about the case whose turn it is: a block that starts measures the suite forwards or from
   the last case to the first, and one that does not start lists it forwards.
   */
  lemma EntriesSay(b: BlockReport, d: Device, plan: Plan, slot: Slot, reverse: bool, k: Campaign, i: nat)
    requires Decodes(k.cases) && BlockOf(b, d, plan, slot, reverse, k) && i < |b.cases|
    ensures |b.cases| == |k.cases|
    ensures EntrySays(b.cases[i], k.cases[if Starts(d, plan, k.cases) && reverse then |k.cases| - 1 - i else i])
  {
    hide Starts, Outcome, EntrySays;
    if Starts(d, plan, k.cases) {
      var j := Place(|k.cases|, reverse, i);
      OutcomeSays(b.cases[i], k.cases[j], d.sessions(j), k);
    } else {
      FailedSays(k.cases[i]);
    }
  }

  /** When a block starts: everything before the cases works, and a staged plan has rows for each of them. */
  lemma StartsMeans(d: Device, plan: Plan, cases: seq<ReferenceCase>)
    requires Decodes(cases)
    ensures Starts(d, plan, cases) <==>
            && d.ready && d.loads && d.configMatches && d.plansKept && d.memoryReadable
            && (plan == Staged || plan == FusedMlpStaged ==>
                  && d.stagedRows.Some?
                  && forall i :: 0 <= i < |cases| ==>
                       |cases[i].inputIds| + cases[i].decodeSteps <= d.stagedRows.value + 1)
  {
    var most := MaxActiveRows(cases);
    assert forall i :: 0 <= i < |cases| ==> RowsOf(cases[i]) == |cases[i].inputIds| + cases[i].decodeSteps - 1;
  }

  /** A staged block never runs with fewer rows than any of its cases needs. */
  lemma StagedBlockHoldsEveryCase(b: BlockReport, d: Device, plan: Plan, slot: Slot, reverse: bool, k: Campaign, i: nat)
    requires Decodes(k.cases) && BlockOf(b, d, plan, slot, reverse, k)
    requires plan.UsesStagedAttention() && i < |b.cases| && b.cases[i].success
    ensures d.stagedRows.Some? && forall j :: 0 <= j < |k.cases| ==> RowsOf(k.cases[j]) <= d.stagedRows.value
  {
    hide Outcome;
  }

  ghost predicate BlockSucceeds(d: Device, plan: Plan, k: Campaign)
    requires Decodes(k.cases)
  {
    && Starts(d, plan, k.cases)
    && forall j :: 0 <= j < |k.cases| ==> Measurable(k.cases[j], d.sessions(j), k.warmups, k.iterations)
  }

  /** A block succeeds exactly when it starts and every case of the suite is measurable on it. */
  lemma BlockSuccessIff(b: BlockReport, d: Device, plan: Plan, slot: Slot, reverse: bool, k: Campaign)
    requires Decodes(k.cases) && BlockOf(b, d, plan, slot, reverse, k)
    ensures b.success <==> BlockSucceeds(d, plan, k)
  {
    hide Measurable, Starts;
    var n := |k.cases|;
    if b.success {
      forall j | 0 <= j < n
        ensures Measurable(k.cases[j], d.sessions(j), k.warmups, k.iterations)
      {
        var i := Place(n, reverse, j);
        assert Place(n, reverse, i) == j;
        assert b.cases[i].success;
      }
    }
  }

  // ----- Pairing four blocks -----

  function CaseInBlock(cases: seq<CaseMeasurement>, name: string): Option<CaseMeasurement> {
    if cases == [] then None
    else if cases[0].name == name then Some(cases[0])
    else CaseInBlock(cases[1..], name)
  }

  function MedianOfMetric(c: CaseMeasurement, m: Metric): Option<real> {
    if m in c.timings then Some(c.timings[m].median) else None
  }

  function LookUp(b: BlockReport, name: string, m: Metric): Option<real> {
    match CaseInBlock(b.cases, name)
    case None => None
    case Some(c) => MedianOfMetric(c, m)
  }

  datatype Pair = Pair(reference: real, candidate: real, improvement: real)

  /** `paired_metric` from the four medians. */
  function PairOf(a1: real, b1: real, b2: real, a2: real): Option<Pair> {
    var reference, candidate := (a1 + a2) / 2.0, (b1 + b2) / 2.0;
    if reference <= 0.0 || candidate <= 0.0 then None
    else Some(Pair(reference, candidate, (reference - candidate) / reference))
  }

  function PairedMetric(blocks: seq<BlockReport>, name: string, m: Metric): Option<Pair> {
    if |blocks| != 4 then None
    else
      var a1, b1, b2, a2 :=
        LookUp(blocks[0], name, m), LookUp(blocks[1], name, m), LookUp(blocks[2], name, m), LookUp(blocks[3], name, m);
      if a1.None? || b1.None? || b2.None? || a2.None? then None
      else PairOf(a1.value, b1.value, b2.value, a2.value)
  }

  datatype PairedEvidence = PairedEvidence(caseName: string, candidate: Plan, complete: bool,
                                       gpu: Option<Pair>, wall: Option<Pair>, request: Option<Pair>)

  function EvidenceOf(candidate: Plan, blocks: seq<BlockReport>, name: string): PairedEvidence {
    var gpu, wall, request :=
      PairedMetric(blocks, name, Gpu), PairedMetric(blocks, name, Wall), PairedMetric(blocks, name, Request);
    PairedEvidence(name, candidate, gpu.Some? && wall.Some? && request.Some?, gpu, wall, request)
  }

  /** `summarize_round`. */
  function SummarizeRound(candidate: Plan, blocks: seq<BlockReport>,
      cases: seq<ReferenceCase>): (e: seq<PairedEvidence>)
    ensures |e| == |cases| && forall i :: 0 <= i < |e| ==> e[i] == EvidenceOf(candidate, blocks, cases[i].name)
  {
    seq(|cases|, i requires 0 <= i < |cases| => EvidenceOf(candidate, blocks, cases[i].name))
  }

  lemma {:induction false} FindsTheOnlyOne(cases: seq<CaseMeasurement>, name: string, i: nat)
    requires i < |cases| && cases[i].name == name
    requires forall h :: 0 <= h < i ==> cases[h].name != name
    ensures CaseInBlock(cases, name) == Some(cases[i])
  {
    if i > 0 {
      FindsTheOnlyOne(cases[1..], name, i - 1);
    }
  }

  /** Names being distinct, a lookup by name finds the case's own measurement, forward or reversed. */
  lemma LookUpFindsOwnCase(b: BlockReport, d: Device, plan: Plan, slot: Slot, reverse: bool, k: Campaign, j: nat)
    requires Decodes(k.cases) && Suite.DistinctNames(k.cases) && j < |k.cases|
    requires BlockOf(b, d, plan, slot, reverse, k) && Starts(d, plan, k.cases)
    ensures CaseInBlock(b.cases, k.cases[j].name).Some?
    ensures Outcome(CaseInBlock(b.cases, k.cases[j].name).value, k.cases[j], d.sessions(j), k)
  {
    hide Starts, Outcome;
    var n, i := |k.cases|, Place(|k.cases|, reverse, j);
    assert Place(n, reverse, i) == j;
    forall h | 0 <= h <= i
      ensures b.cases[h].name == k.cases[Place(n, reverse, h)].name
    {
      OutcomeSays(b.cases[h], k.cases[Place(n, reverse, h)], d.sessions(Place(n, reverse, h)), k);
    }
    FindsTheOnlyOne(b.cases, k.cases[j].name, i);
  }

  /** The median of one metric of one case on one device. */
  ghost function OwnMedian(d: Device, j: nat, m: Metric, k: Campaign): real
    requires Usable(Series(d.sessions(j), k.warmups, k.iterations, m))
  {
    MedianOf(Series(d.sessions(j), k.warmups, k.iterations, m))
  }

  lemma LookUpIsOwnMedian(b: BlockReport, d: Device, plan: Plan, slot: Slot, reverse: bool, k: Campaign, j: nat,
      m: Metric)
    requires Decodes(k.cases) && Suite.DistinctNames(k.cases) && j < |k.cases|
    requires BlockOf(b, d, plan, slot, reverse, k) && BlockSucceeds(d, plan, k)
    ensures Usable(Series(d.sessions(j), k.warmups, k.iterations, m))
    ensures LookUp(b, k.cases[j].name, m) == Some(OwnMedian(d, j, m, k))
    ensures OwnMedian(d, j, m, k) >= 0.0 && (m == Gpu ==> OwnMedian(d, j, m, k) > 0.0)
  {
    hide BlockOf, Starts, Reproduces, MedianOf, Series, CaseInBlock, Usable;
    var c := k.cases[j];
    assert Measurable(c, d.sessions(j), k.warmups, k.iterations);
    LookUpFindsOwnCase(b, d, plan, slot, reverse, k, j);
    var r := CaseInBlock(b.cases, c.name).value;
    assert SuccessfulMeasurement(r, c, d.sessions(j), k.warmups, k.iterations);
    assert m in {Setup, Wall, Request, Prefill, Gpu};
    assert Some(r.timings[m]) == TimingReport(Series(d.sessions(j), k.warmups, k.iterations, m));
    MedianIsNonNegative(Series(d.sessions(j), k.warmups, k.iterations, m));
  }
}
