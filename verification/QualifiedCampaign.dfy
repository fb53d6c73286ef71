/**
 From devices to exit code: harness runs that are complete, launched under either version in a fresh
 directory or without resuming, end in a valid consensus and a parity record.
 */
module QualifiedCampaign {
  import opened CampaignLauncher
  import opened CampaignValidation
  import opened CaseObservations
  import opened Json
  import opened LauncherConsensus
  import opened LauncherRuns
  import opened LauncherVerdict
  import opened Wrappers
  import Evidence = MassiveEvidence
  import Harness = MassiveHarness
  import Rounds = MassiveCampaign

  /** The harness emits an acceptable report for this repeat, and it can be saved. */
  predicate Delivers(run: Run, repeat: nat) {
    && run.harness(repeat).Emits? && run.harness(repeat).saving.Done?
    && Validate(run.version, run.harness(repeat).report, run.head, Some(Str(Context(run.head, run.timestamp,
        repeat)))).Ok?
  }

  function ReportFor(run: Run, repeat: nat): Json {
    match run.harness(repeat)
    case Emits(report, _) => report
    case _ => Null
  }

  function Delivered(run: Run, n: nat): (r: seq<Json>)
    ensures |r| == n && forall i :: 0 <= i < n ==> r[i] == ReportFor(run, i + 1)
  {
    seq(n, i requires 0 <= i < n => ReportFor(run, i + 1))
  }

  /** The run finds nothing on disk to take up. */
  predicate StartsAfresh(start: map<nat, Saved<Json>>, run: Run) {
    run.noResume || start == map[]
  }

  lemma DeliveredTurn(p: Progress, run: Run, n: nat)
    requires n > 0 && p.stopped.None? && (run.noResume || n !in p.campaigns) && Delivers(run, n)
    ensures Turn(p, run, n) ==
            Progress(p.campaigns[n := Complete(ReportFor(run, n))], p.used + [n],
                     p.reports + [ReportFor(run, n)], p.failures, None)
  {
    hide Validate, Context;
  }

  /** In a fresh directory, or without resuming, a run uses whatever is delivered, in order. */
  lemma {:induction false} FreshRun(start: map<nat, Saved<Json>>, run: Run, n: nat)
    requires StartsAfresh(start, run) && forall k :: 1 <= k <= n ==> Delivers(run, k)
    ensures var p := Turns(start, run, n);
            && p.stopped.None? && p.failures == [] && p.used == Numbers(n) && p.reports == Delivered(run, n)
            && (run.noResume || forall k: nat :: k in p.campaigns ==> k <= n)
  {
    hide Delivers, Turn;
    if n > 0 {
      FreshRun(start, run, n - 1);
      TurnsStep(start, run, n);
      DeliveredTurn(Turns(start, run, n - 1), run, n);
      assert Numbers(n) == Numbers(n - 1) + [n];
      assert Delivered(run, n) == Delivered(run, n - 1) + [ReportFor(run, n)];
    } else {
      assert Numbers(0) == [] && Delivered(run, 0) == [];
    }
  }

  /** What the devices did, repeat by repeat, and what the harness made of it. */
  datatype Trial = Trial(devices: Rounds.Devices, report: Rounds.Report, header: Evidence.Header)

  /** The harness's own report of a complete campaign, with the header the launcher asks for. */
  ghost predicate CompleteTrial(t: Trial, k: Harness.Campaign, run: Run, repeat: nat)
    requires Harness.Decodes(k.cases)
  {
    && Rounds.ReportOf(t.report, t.devices, k) && t.report.complete
    && Evidence.HeaderOk(t.header, run.head, Some(Str(Context(run.head, run.timestamp, repeat))))
    && run.harness(repeat) == Emits(Evidence.ReportJson(t.report, t.header), Done)
  }

  lemma CompleteTrialDelivers(t: Trial, k: Harness.Campaign, run: Run, repeat: nat)
    requires Evidence.Runnable(k) && Harness.Decodes(k.cases) && CompleteTrial(t, k, run, repeat)
    ensures Delivers(run, repeat)
  {
    hide Rounds.ReportOf, Evidence.HeaderOk, Evidence.ReportJson, ValidateCompleteCampaign, ValidateCampaign, Context;
    var expected := Some(Str(Context(run.head, run.timestamp, repeat)));
    Evidence.ReportIdentity(t.report, t.devices, k, t.header, run.head, expected);
    Evidence.AcceptedIffComplete(t.report, t.devices, k, t.header, run.head, expected);
  }

  function PerReport(k: Harness.Campaign): nat {
    |k.candidates| * k.rounds * 4 * |k.cases|
  }

  /** A complete trial's report is exact in every case, says so, and declares what the campaign asks for. */
  lemma TrialIsExact(t: Trial, k: Harness.Campaign, run: Run, repeat: nat)
    requires Evidence.Runnable(k) && Harness.Decodes(k.cases) && CompleteTrial(t, k, run, repeat)
    ensures ReportFor(run, repeat).Obj? && DimensionsOk(ReportFor(run, repeat))
    ensures EveryCaseExact(ReportFor(run, repeat))
    ensures Get(ReportFor(run, repeat), CampaignComplete) == Bool(true)
    ensures Get(ReportFor(run, repeat), Metadata) == t.header.metadata
    ensures DeclaredCases(ReportFor(run, repeat)) == PerReport(k)
  {
    hide Rounds.ReportOf, Evidence.HeaderOk, Evidence.ReportJson, WellShaped, AllExact, AllEvidenceOk,
         CollectedSemantic, ValidateCompleteCampaign, Context;
    var j := Evidence.ReportJson(t.report, t.header);
    Evidence.ReportDocument(t.report, t.devices, k, t.header);
    Evidence.ReportLookups(t.report, t.header);
    Evidence.IdentityLookups(t.report, t.header);
    Evidence.AcceptedIffComplete(t.report, t.devices, k, t.header, run.head, None);
    SingleReport(j);
    assert ShapeOf(j) == Evidence.CampaignShape(k);
  }

  lemma TrialIsNamed(t: Trial, k: Harness.Campaign, run: Run, repeat: nat)
    requires Harness.Decodes(k.cases) && CompleteTrial(t, k, run, repeat)
    ensures WellNamed(ReportFor(run, repeat))
  {
    hide Rounds.ReportOf, Evidence.HeaderOk, Evidence.ReportJson, WellNamed, Context;
    Evidence.EveryReportIsDescribable(t.report, t.header);
  }

  lemma {:induction false} TotalIsProduct(reports: seq<Json>, n: nat, per: nat)
    requires n <= |reports|
    requires forall i :: 0 <= i < |reports| ==> Countable(reports[i]) && DeclaredCases(reports[i]) == per
    ensures TotalCases(reports, n) == n * per
  {
    hide Countable, DeclaredCases;
    if n > 0 {
      TotalIsProduct(reports, n - 1, per);
      OneMore(n, per);
    }
  }

  /** What a trial's metadata says of the environment, without what may differ between independent runs. */
  ghost function EnvironmentOfTrial(t: Trial, k: Harness.Campaign, run: Run, repeat: nat): Json
    requires Harness.Decodes(k.cases) && CompleteTrial(t, k, run, repeat)
  {
    NormalizedEnvironment(t.header.metadata)
  }

  lemma DeliveredIsOwn(run: Run, repeat: nat)
    requires Delivers(run, repeat)
    ensures Accepted(run.version, ReportFor(run, repeat), run.head) && OwnReport(ReportFor(run, repeat), repeat)
  {
    hide Validate, Context, OwnReport;
    AcceptedIsOwn(run, ReportFor(run, repeat), repeat);
  }

  lemma DeliveredContextsDiffer(run: Run, n: nat)
    requires forall k :: 1 <= k <= n ==> Delivers(run, k)
    ensures AllAccepted(run.version, Delivered(run, n), run.head)
    ensures DifferentContexts(Delivered(run, n), run.version, run.head)
  {
    hide Delivers, Accepted, OwnReport, ReportContext, ContextOf;
    var reports := Delivered(run, n);
    forall i | 0 <= i < n
      ensures Accepted(run.version, reports[i], run.head) && OwnReport(reports[i], i + 1)
    {
      DeliveredIsOwn(run, i + 1);
    }
    forall i, j | 0 <= i < j < n
      ensures ReportContext(run.version, reports[i], run.head) != ReportContext(run.version, reports[j], run.head)
    {
      ContextsDiffer(run, reports[i], i + 1, reports[j], j + 1);
      ContextsMeaning(reports, run.version, run.head);
      SameContext(run.version, reports[i], run.head);
      SameContext(run.version, reports[j], run.head);
    }
  }

  lemma SameContext(v: Version, report: Json, head: string)
    requires Accepted(v, report, head)
    ensures ReportContext(v, report, head) == ContextOf(v, report, head)
  {
    hide Validate;
    AcceptedFacts(v, report, head, None);
  }

  lemma SameMetadataAgrees(v: Version, x: Json, y: Json, head: string)
    requires Accepted(v, x, head) && Accepted(v, y, head)
    requires Get(x, Metadata).Obj? && Get(Get(x, Metadata), EnvironmentFingerprint).Obj?
    requires Get(y, Metadata).Obj? && Get(Get(y, Metadata), EnvironmentFingerprint).Obj?
    requires NormalizedEnvironment(Get(x, Metadata)) == NormalizedEnvironment(Get(y, Metadata))
    ensures EnvironmentAgrees(v, x, y, head)
  {
    hide Validate, NormalizedEnvironment;
  }

  /** The reports of complete trials in one environment qualify. */
  lemma TrialsQualify(run: Run, k: Harness.Campaign, trials: nat -> Trial)
    requires run.repeats >= 2 && Evidence.Runnable(k) && Harness.Decodes(k.cases)
    requires forall r :: 1 <= r <= run.repeats ==> CompleteTrial(trials(r), k, run, r)
    requires forall r :: 1 <= r <= run.repeats ==>
               EnvironmentOfTrial(trials(r), k, run, r) == EnvironmentOfTrial(trials(1), k, run, 1)
    ensures Qualify(Delivered(run, run.repeats), run)
    ensures forall i :: 0 <= i < run.repeats ==> Countable(Delivered(run, run.repeats)[i])
    ensures TotalCases(Delivered(run, run.repeats), run.repeats) == run.repeats * PerReport(k)
  {
    hide CompleteTrial, Delivers, Accepted, EveryCaseExact, Countable, DeclaredCases, Describable, WellNamed,
         EnvironmentAgrees, DifferentContexts, EnvironmentOfTrial, TotalCases;
    var reports := Delivered(run, run.repeats);
    forall r: nat | 1 <= r <= run.repeats
      ensures Delivers(run, r)
    {
      CompleteTrialDelivers(trials(r), k, run, r);
    }
    DeliveredContextsDiffer(run, run.repeats);
    forall i | 0 <= i < |reports|
      ensures reports[i].Obj? && DimensionsOk(reports[i])
      ensures EveryCaseExact(reports[i]) && Countable(reports[i]) && WellNamed(reports[i])
      ensures Get(reports[i], CampaignComplete) == Bool(true)
      ensures DeclaredCases(reports[i]) == PerReport(k)
      ensures EnvironmentAgrees(run.version, reports[i], reports[0], run.head)
    {
      TrialIsExact(trials(i + 1), k, run, i + 1);
      ExactIsCountable(reports[i]);
      TrialIsNamed(trials(i + 1), k, run, i + 1);
      TrialsAgree(run, k, trials, i + 1);
    }
    WellNamedCampaigns(reports);
    TotalIsProduct(reports, run.repeats, PerReport(k));
  }

  lemma TrialsAgree(run: Run, k: Harness.Campaign, trials: nat -> Trial, r: nat)
    requires Evidence.Runnable(k) && Harness.Decodes(k.cases) && 1 <= r
    requires CompleteTrial(trials(r), k, run, r) && CompleteTrial(trials(1), k, run, 1)
    requires EnvironmentOfTrial(trials(r), k, run, r) == EnvironmentOfTrial(trials(1), k, run, 1)
    ensures Accepted(run.version, ReportFor(run, r), run.head) && Accepted(run.version, ReportFor(run, 1), run.head)
    ensures EnvironmentAgrees(run.version, ReportFor(run, r), ReportFor(run, 1), run.head)
  {
    hide Delivers, Accepted, EveryCaseExact, EnvironmentAgrees, OwnReport, NormalizedEnvironment, Rounds.ReportOf,
         Evidence.ReportJson, DeclaredCases;
    CompleteTrialDelivers(trials(r), k, run, r);
    CompleteTrialDelivers(trials(1), k, run, 1);
    DeliveredIsOwn(run, r);
    DeliveredIsOwn(run, 1);
    TrialIsExact(trials(r), k, run, r);
    TrialIsExact(trials(1), k, run, 1);
    SameMetadataAgrees(run.version, ReportFor(run, r), ReportFor(run, 1), run.head);
  }

  /**
   Complete trials qualify: if every repeat's devices reproduce the oracle in every block, two or
   more repeats share an environment, and nothing on the host fails, a run of either version, fresh or
   without resuming, exits with 0, its consensus and parity record on disk.
   */
  lemma CompleteTrialsQualify(disk: Disk, run: Run, k: Harness.Campaign, trials: nat -> Trial)
    requires run.repeats >= 2 && StartsAfresh(disk.campaigns, run)
    requires Evidence.Runnable(k) && Harness.Decodes(k.cases)
    requires forall r :: 1 <= r <= run.repeats ==> CompleteTrial(trials(r), k, run, r)
    requires forall r :: 1 <= r <= run.repeats ==>
               EnvironmentOfTrial(trials(r), k, run, r) == EnvironmentOfTrial(trials(1), k, run, 1)
    requires IsHexString(run.tokenizerSha256, 64) && IsHex(run.head, 40) && run.caseCount == |k.cases|
    requires run.consensusWriting.Done? && run.summaryWriting.Done? && run.parityWriting.Done?
    ensures After(disk, run).1 == Zero
    ensures Qualified(After(disk, run).0, run, Delivered(run, run.repeats))
  {
    hide After, Turns, Delivers, CompleteTrial, IsHex, IsHexString, Qualify, Qualified, Countable, TotalCases, Lost;
    forall r: nat | 1 <= r <= run.repeats
      ensures Delivers(run, r)
    {
      CompleteTrialDelivers(trials(r), k, run, r);
    }
    FreshRun(disk.campaigns, run, run.repeats);
    NothingLostIff(disk.campaigns, run, run.repeats);
    TrialsQualify(run, k, trials);
    EnoughObservations(k, run.repeats);
    QualifiedIsExact(Delivered(run, run.repeats), run);
    LaunchSucceedsIff(disk, run);
    ZeroMeansQualified(disk, run);
  }

  lemma QualifiedIsExact(reports: seq<Json>, run: Run)
    requires Qualify(reports, run)
    ensures AllExactAndComplete(reports)
  {
  }

  lemma EnoughObservations(k: Harness.Campaign, n: nat)
    requires Evidence.Runnable(k) && n >= 1
    ensures 1 <= |k.cases| <= PerReport(k) <= n * PerReport(k)
  {
    AtLeastFactor(|k.candidates|, k.rounds);
    AtLeastFactor(|k.candidates| * k.rounds, 4);
    AtLeastFactor(|k.cases|, |k.candidates| * k.rounds * 4);
    AtLeastFactor(PerReport(k), n);
  }

  lemma AtLeastFactor(a: nat, b: nat)
    requires a >= 1 && b >= 1
    ensures a <= a * b && b <= a * b && a * b == b * a
  {
  }
}
