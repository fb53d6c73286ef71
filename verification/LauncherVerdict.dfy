/** Exit codes, the consensus and the parity record of a launcher run: what they establish, and when. */
module LauncherVerdict {
  import opened CampaignLauncher
  import opened CampaignValidation
  import opened CaseObservations
  import opened Json
  import opened LauncherRuns
  import opened Wrappers
  import Parity = ParityEvidence

  /** How far the loop of a run comes on a disk. */
  function Outcome(disk: Disk, run: Run): Progress {
    Turns(disk.campaigns, run, run.repeats)
  }

  // ----- Exit code 0 -----

  /** A valid consensus over these reports: enough of them, independent, compatible, complete and exact. */
  ghost predicate Sound(c: Consensus, reports: seq<Json>, run: Run) {
    && |reports| >= 2 && AllAccepted(run.version, reports, run.head)
    && c.head == run.head && c.contexts == Contexts(run.version, reports, run.head) && Distinct(c.contexts)
    && SameEnvironment(run.version, reports, run.head) && AllComplete(reports)
    && CollectedSemantic(reports) == Ok(c.semantic) && c.semantic.allExact
    && c.valid && c.failures == []
  }

  /** What exit code 0 leaves on disk. */
  ghost predicate Qualified(d: Disk, run: Run, reports: seq<Json>) {
    && d.consensus.Some? && d.consensus.value.Complete?
    && var c := d.consensus.value.value;
       && Sound(c, reports, run)
       && |reports| == run.repeats && c.rawFiles == Numbers(run.repeats)
       && (forall i :: 0 <= i < |reports| ==>
             c.rawFiles[i] in d.campaigns && d.campaigns[c.rawFiles[i]] == Complete(reports[i]))
       && Parity.BuildRecord(ParityInputs(c, run)).Ok?
       && d.parity == Some(Complete(Parity.BuildRecord(ParityInputs(c, run)).value))
  }

  /** The consensus is sound whenever it is valid and no repeat failed. */
  lemma ValidIsSound(reports: seq<Json>, run: Run)
    requires BuildConsensus(reports, run).Some? && BuildConsensus(reports, run).value.valid
    ensures Sound(BuildConsensus(reports, run).value, reports, run)
  {
    hide Validate, CollectedSemantic, Describable, EnvironmentOf;
  }

  lemma ConsensusNames(reports: seq<Json>, run: Run)
    requires BuildConsensus(reports, run).Some?
    ensures BuildConsensus(reports, run).value.rawFiles == Numbers(|reports|)
    ensures BuildConsensus(reports, run).value.failures == []
  {
    hide Validate, CollectedSemantic, Describable, EnvironmentOf;
  }

  /** Every way to exit code 0 goes through all of the loop, a valid consensus, and every write. */
  lemma ZeroIff(disk: Disk, run: Run)
    ensures var p := Outcome(disk, run);
            After(disk, run).1 == Zero <==>
              && p.stopped.None? && p.failures == []
              && BuildConsensus(p.reports, run).Some? && BuildConsensus(p.reports, run).value.valid
              && Parity.BuildRecord(ParityInputs(BuildConsensus(p.reports, run).value, run)).Ok?
              && run.consensusWriting.Done? && run.summaryWriting.Done? && run.parityWriting.Done?
    ensures var p := Outcome(disk, run);
            After(disk, run).1 == Zero ==>
              After(disk, run).0 ==
              disk.(campaigns := p.campaigns,
                    consensus := Some(Complete(BuildConsensus(p.reports, run).value)),
                    parity := Some(Complete(Parity.BuildRecord(ParityInputs(BuildConsensus(p.reports, run).value,
                        run)).value)))
  {
    hide BuildConsensus, Parity.BuildRecord, ParityInputs, Outcome;
    NeverStoppedAtZero(disk.campaigns, run, run.repeats);
    AfterOutcome(disk, run);
  }

  lemma AfterOutcome(disk: Disk, run: Run)
    ensures Outcome(disk, run) == Turns(disk.campaigns, run, run.repeats)
  {
  }

  lemma {:induction false} NeverStoppedAtZero(campaigns: map<nat, Saved<Json>>, run: Run, n: nat)
    ensures Turns(campaigns, run, n).stopped != Some(Zero)
  {
    hide Turn;
    if n > 0 {
      NeverStoppedAtZero(campaigns, run, n - 1);
      TurnNeverStopsAtZero(Turns(campaigns, run, n - 1), run, n);
    }
  }

  lemma TurnNeverStopsAtZero(p: Progress, run: Run, n: nat)
    requires p.stopped != Some(Zero)
    ensures Turn(p, run, n).stopped != Some(Zero)
  {
    hide Validate, Existing, Context;
  }

  /**
   Exit code 0, of either version and on any disk: the consensus on disk is valid and sound, its raw
   files are the campaigns it was made from, in order, and the parity record was built from it.
   */
  lemma ZeroMeansQualified(disk: Disk, run: Run)
    requires After(disk, run).1 == Zero
    ensures Qualified(After(disk, run).0, run, Outcome(disk, run).reports)
  {
    hide After, BuildConsensus, Parity.BuildRecord, ParityInputs, Turns, Sound, Accepted;
    var p := Outcome(disk, run);
    ZeroIff(disk, run);
    TurnsCollect(disk.campaigns, run, run.repeats);
    ValidIsSound(p.reports, run);
    ConsensusNames(p.reports, run);
    SoundFlags(BuildConsensus(p.reports, run).value, p.reports, run);
  }

  lemma SoundFlags(c: Consensus, reports: seq<Json>, run: Run)
    requires Sound(c, reports, run)
    ensures |reports| >= 2 && c.valid && c.failures == []
  {
    hide AllAccepted, SameEnvironment, AllComplete, CollectedSemantic;
  }

  /** One repeat is never enough. */
  lemma OneRepeatNeverSucceeds(disk: Disk, run: Run)
    requires run.repeats < 2
    ensures After(disk, run).1 != Zero
  {
    hide After, Sound, Turns;
    if After(disk, run).1 == Zero {
      ZeroMeansQualified(disk, run);
      SoundFlags(After(disk, run).0.consensus.value.value, Outcome(disk, run).reports, run);
    }
  }

  /** A parity record appears only with exit code 0 or an unfinished write of it: any other run leaves the old one. */
  lemma ParityChangesOnlyWithValidConsensus(disk: Disk, run: Run)
    requires After(disk, run).0.parity != disk.parity
    ensures var p := Outcome(disk, run);
            && p.stopped.None? && p.failures == []
            && BuildConsensus(p.reports, run).Some? && BuildConsensus(p.reports, run).value.valid
    ensures After(disk, run).1 == Zero || !run.parityWriting.Done?
  {
    hide BuildConsensus, Parity.BuildRecord, ParityInputs, Turns;
  }

  // ----- Version 2 -----

  lemma V2ReportsAreExact(reports: seq<Json>, run: Run)
    requires run.version == V2 && AllAccepted(V2, reports, run.head) && reports != []
    ensures AllComplete(reports) && CommitEqual(reports, run.head)
    ensures CollectedSemantic(reports).Ok? && CollectedSemantic(reports).value.allExact
  {
    hide Validate, WellShaped, AllExact, AllEvidenceOk, CampaignCounts;
    forall i | 0 <= i < |reports|
      ensures FullyExact(reports[i])
      ensures reports[i].Obj? && Get(reports[i], CampaignComplete) == Bool(true)
      ensures Get(reports[i], Metadata).Obj? && Get(Get(reports[i], Metadata), GitCommit) == Str(run.head)
    {
      AcceptedFacts(V2, reports[i], run.head, None);
    }
    ExactCampaigns(reports, |reports|);
  }

  /** On accepted version 2 reports all that is left of consensus validity is their number and their environments. */
  lemma V2ConsensusIff(reports: seq<Json>, run: Run)
    requires run.version == V2 && AllAccepted(V2, reports, run.head) && reports != []
    requires Distinct(Contexts(V2, reports, run.head))
    ensures BuildConsensus(reports, run).Some? <==> Describable(reports)
    ensures BuildConsensus(reports, run).Some? ==>
              (BuildConsensus(reports, run).value.valid <==> |reports| >= 2 && SameEnvironment(V2, reports, run.head))
  {
    hide AllAccepted, Distinct, Contexts, SameEnvironment, CollectedSemantic, Describable, AllComplete, CommitEqual;
    V2ReportsAreExact(reports, run);
  }

  /** What the parity record still asks for: well-formed digests and enough observations. */
  lemma ParityBuilds(c: Consensus, run: Run)
    requires c.semantic.exact == c.semantic.observations
    ensures Parity.BuildRecord(ParityInputs(c, run)).Ok? <==>
              && IsHexString(run.tokenizerSha256, 64) && IsHex(run.head, 40)
              && 1 <= run.caseCount <= c.semantic.observations
  {
    hide Parity.BuildRecord, IsHex, IsText;
    Parity.BuildRecordIff(ParityInputs(c, run));
    Parity.ConstantIsText(TransformersVersion);
    Parity.ConstantIsText(MassiveBackend);
    Parity.ConstantIsText(ConsensusKind);
    Parity.ConstantIsText(ConsensusFile);
  }

  /**
   Version 2 in a safe directory exits with 0 exactly when the loop was neither stopped nor lost a
   repeat, at least two campaigns share one environment, and recording the result succeeds.
   */
  lemma V2ZeroIff(disk: Disk, run: Run)
    requires run.version == V2 && Safe(disk.campaigns)
    ensures AllAccepted(V2, Outcome(disk, run).reports, run.head)
    ensures var p := Outcome(disk, run);
            After(disk, run).1 == Zero <==>
              && p.stopped.None? && p.failures == [] && run.repeats >= 2
              && SameEnvironment(V2, p.reports, run.head) && Describable(p.reports)
              && IsHexString(run.tokenizerSha256, 64) && IsHex(run.head, 40)
              && CollectedSemantic(p.reports).Ok? &&
                  1 <= run.caseCount <= CollectedSemantic(p.reports).value.observations
              && run.consensusWriting.Done? && run.summaryWriting.Done? && run.parityWriting.Done?
  {
    hide After, Turns, Validate, CollectedSemantic, Describable, SameEnvironment, AllAccepted, Distinct, IsHex,
        ParityInputs, Parity.BuildRecord, BuildConsensus;
    var p := Outcome(disk, run);
    ZeroIff(disk, run);
    DistinctnessNeverFires(disk.campaigns, run, run.repeats);
    ReportCount(disk.campaigns, run);
    if p.stopped.None? && p.failures == [] && p.reports != [] {
      V2ConsensusIff(p.reports, run);
      V2ReportsAreExact(p.reports, run);
      if BuildConsensus(p.reports, run).Some? {
        ConsensusSemantic(p.reports, run);
        ParityBuilds(BuildConsensus(p.reports, run).value, run);
      }
    }
    if p.reports == [] {
      EmptyConsensus(run);
    }
  }

  lemma EmptyConsensus(run: Run)
    ensures BuildConsensus([], run).None?
  {
  }

  lemma ReportCount(campaigns: map<nat, Saved<Json>>, run: Run)
    ensures var p := Turns(campaigns, run, run.repeats);
            p.stopped.None? && p.failures == [] ==> |p.reports| == run.repeats
  {
    hide Turns, Accepted;
    TurnsCollect(campaigns, run, run.repeats);
  }

  lemma ConsensusSemantic(reports: seq<Json>, run: Run)
    requires BuildConsensus(reports, run).Some?
    ensures CollectedSemantic(reports) == Ok(BuildConsensus(reports, run).value.semantic)
    ensures CollectedSemantic(reports).value.allExact ==>
              CollectedSemantic(reports).value.exact == CollectedSemantic(reports).value.observations
  {
    hide Validate, EnvironmentOf, CampaignCounts;
  }

  // ----- What the files may still get wrong -----

  lemma FewReportsInvalid(reports: seq<Json>, run: Run)
    requires BuildConsensus(reports, run).Some? && |reports| < 2
    ensures !BuildConsensus(reports, run).value.valid
  {
    hide Validate, CollectedSemantic, Describable, EnvironmentOf;
  }

  /** Every failed repeat comes after every repeat in use. */
  ghost predicate FailuresComeLast(p: Progress) {
    forall i, j :: 0 <= i < |p.used| && 0 <= j < |p.failures| ==> p.used[i] < p.failures[j].repeat
  }

  /** This repeat comes to nothing: no accepted campaign on disk, and the harness, its report or the write fails. */
  predicate Lost(start: map<nat, Saved<Json>>, run: Run, repeat: nat) {
    && Existing(start, run, repeat) == Ok(None)
    && match run.harness(repeat)
       case KilledMeanwhile => false
       case HarnessFails => true
       case Emits(report, saving) =>
         || Validate(run.version, report, run.head, Some(Str(Context(run.head, run.timestamp, repeat)))).Err?
         || saving.Fault?
  }

  lemma TurnTouchesOnlyItsFile(p: Progress, run: Run, n: nat, k: nat)
    requires k != n
    ensures k in Turn(p, run, n).campaigns <==> k in p.campaigns
    ensures k in p.campaigns ==> Turn(p, run, n).campaigns[k] == p.campaigns[k]
  {
    hide Validate, Existing, Context;
  }

  /** The loop leaves the files of later repeats alone, so each turn finds its own as the run did. */
  lemma {:induction false} LaterFilesUntouched(start: map<nat, Saved<Json>>, run: Run, n: nat, k: nat)
    requires k > n
    ensures var campaigns := Turns(start, run, n).campaigns;
            && (k in campaigns <==> k in start)
            && (k in start ==> campaigns[k] == start[k])
  {
    if n > 0 {
      hide Turn;
      LaterFilesUntouched(start, run, n - 1, k);
      TurnTouchesOnlyItsFile(Turns(start, run, n - 1), run, n, k);
    }
  }

  lemma ExistingReadsOneFile(a: map<nat, Saved<Json>>, b: map<nat, Saved<Json>>, run: Run, k: nat)
    requires (k in a <==> k in b) && (k in a ==> a[k] == b[k])
    ensures Existing(a, run, k) == Existing(b, run, k)
  {
    hide Validate;
  }

  lemma TurnUsesUnlessLost(p: Progress, start: map<nat, Saved<Json>>, run: Run, n: nat)
    requires Turn(p, run, n).stopped.None? && Existing(p.campaigns, run, n) == Existing(start, run, n)
    ensures Turn(p, run, n).used == if Lost(start, run, n) then p.used else p.used + [n]
  {
    hide Validate, Existing, Context;
  }

  /** The repeats in use are exactly those that the files and attempts at the start do not lose. */
  lemma {:induction false} UsedIffNotLost(start: map<nat, Saved<Json>>, run: Run, n: nat, k: nat)
    requires Turns(start, run, n).stopped.None? && 1 <= k <= n
    ensures k in Turns(start, run, n).used <==> !Lost(start, run, k)
  {
    hide Turn, Turns, Lost, Existing, Partitioned;
    var p := Turns(start, run, n - 1);
    TurnsStep(start, run, n);
    TurnExtends(p, run, n);
    LaterFilesUntouched(start, run, n - 1, n);
    ExistingReadsOneFile(p.campaigns, start, run, n);
    TurnUsesUnlessLost(p, start, run, n);
    if k < n {
      UsedIffNotLost(start, run, n - 1, k);
    } else {
      UsedSoFar(start, run, n - 1);
    }
  }

  lemma UsedSoFar(start: map<nat, Saved<Json>>, run: Run, n: nat)
    ensures forall k :: k in Turns(start, run, n).used ==> k <= n
  {
    hide Turns, Accepted;
    TurnsCollect(start, run, n);
  }

  /** No repeat is lost before one that is not. */
  predicate LossesComeLast(start: map<nat, Saved<Json>>, run: Run, n: nat) {
    forall j, k :: 1 <= j < k <= n && Lost(start, run, j) ==> Lost(start, run, k)
  }

  /**
   The consensus lists campaigns 1 to n for its n reports.  Those are the campaigns it used exactly
   if, by the files at the start and the attempts, no repeat is lost before one that is not.
   */
  lemma RawFilesCorrectIff(start: map<nat, Saved<Json>>, run: Run, n: nat)
    requires Turns(start, run, n).stopped.None?
    ensures var p := Turns(start, run, n);
            Numbers(|p.reports|) == p.used <==> LossesComeLast(start, run, n)
  {
    hide Turns, Lost;
    NumbersIffFailuresLast(start, run, n);
    FailuresLastIff(start, run, n);
  }

  lemma FailuresLastIff(start: map<nat, Saved<Json>>, run: Run, n: nat)
    requires Turns(start, run, n).stopped.None?
    ensures FailuresComeLast(Turns(start, run, n)) <==> LossesComeLast(start, run, n)
  {
    hide Turns, Lost, FailureOf, Partitioned;
    var p := Turns(start, run, n);
    forall k | 1 <= k <= n
      ensures k in p.used <==> !Lost(start, run, k)
    {
      UsedIffNotLost(start, run, n, k);
    }
    TurnsPartition(start, run, n);
    PartitionOrder(p, run, n);
    assert LossesComeLast(start, run, n) <==> UsedBeforeUnused(p, n);
  }

  ghost predicate UsedBeforeUnused(p: Progress, n: nat) {
    forall j: nat, k: nat :: 1 <= j < k <= n && j !in p.used ==> k !in p.used
  }

  lemma PartitionOrder(p: Progress, run: Run, n: nat)
    requires Partitioned(p, run, n)
    ensures FailuresComeLast(p) <==> UsedBeforeUnused(p, n)
  {
    hide Context;
    if FailuresComeLast(p) {
      forall j: nat, k: nat | 1 <= j < k <= n && j !in p.used
        ensures k !in p.used
      {
        assert FailureOf(run, j) in p.failures;
      }
    } else {
      var i, j :| 0 <= i < |p.used| && 0 <= j < |p.failures| && p.used[i] >= p.failures[j].repeat;
      assert p.failures[j] in p.failures && p.used[i] in p.used;
    }
  }

  lemma {:induction false} NumbersIffFailuresLast(campaigns: map<nat, Saved<Json>>, run: Run, n: nat)
    requires Turns(campaigns, run, n).stopped.None?
    ensures var p := Turns(campaigns, run, n);
            Numbers(|p.reports|) == p.used <==> FailuresComeLast(p)
  {
    if n > 0 {
      hide Turns, Accepted, Turn;
      var before := Turns(campaigns, run, n - 1);
      TurnsStep(campaigns, run, n);
      TurnsCollect(campaigns, run, n - 1);
      TurnExtends(before, run, n);
      NumbersIffFailuresLast(campaigns, run, n - 1);
      RawFilesStep(before, Turn(before, run, n), run, n);
    }
  }

  lemma RawFilesStep(p: Progress, q: Progress, run: Run, n: nat)
    requires n > 0 && p.stopped.None? && Collected(p, run, n - 1)
    requires Numbers(|p.reports|) == p.used <==> FailuresComeLast(p)
    requires || (q.used == p.used + [n] && |q.reports| == |p.reports| + 1 && q.failures == p.failures)
             || (q.used == p.used && q.reports == p.reports && q.failures == p.failures + [FailureOf(run, n)])
    ensures Numbers(|q.reports|) == q.used <==> FailuresComeLast(q)
  {
    hide Accepted;
    if q.used == p.used + [n] {
      var u := |p.used|;
      assert Numbers(u + 1)[u] == u + 1 && q.used[u] == n;
      if p.failures != [] {
        assert q.used[u] >= q.failures[0].repeat;
        assert u + 1 != n;
      } else {
        assert Numbers(u + 1) == Numbers(u) + [u + 1];
      }
    } else {
      var f := |p.failures|;
      assert forall j :: 0 <= j < f ==> q.failures[j] == p.failures[j];
      assert FailuresComeLast(q) <==> FailuresComeLast(p);
    }
  }

  /** When the first of two repeats fails, the consensus of the second one's campaign points at the first file. */
  lemma FirstFailureMislabels(run: Run, report: Json)
    requires run.repeats == 2 && run.harness(1) == HarnessFails && run.harness(2) == Emits(report, Done)
    requires Validate(run.version, report, run.head, Some(Str(Context(run.head, run.timestamp, 2)))).Ok?
    ensures var p := Turns(map[], run, 2);
            p.used == [2] && p.reports == [report] && Numbers(|p.reports|) == [1]
  {
    hide Validate, Context;
    var start := Progress(map[], [], [], [], None);
    var one := Turn(start, run, 1);
    assert Turns(map[], run, 0) == start && Turns(map[], run, 1) == one;
    assert one == Fail(start, 1, Context(run.head, run.timestamp, 1));
    assert Turns(map[], run, 2) == Turn(one, run, 2);
    assert Numbers(1) == [1];
  }

  /** A campaign file copied under another number is accepted twice, and then distinctness does fail the run. */
  lemma CopiedCampaignFailsTheRun(disk: Disk, run: Run, report: Json)
    requires run.repeats == 2 && !run.noResume && Accepted(run.version, report, run.head)
    requires disk.campaigns == map[1 := Complete(report), 2 := Complete(report)]
    ensures After(disk, run) == (disk, One)
  {
    hide Validate;
    var start := Progress(disk.campaigns, [], [], [], None);
    assert Turns(disk.campaigns, run, 0) == start;
    assert Turns(disk.campaigns, run, 1) == Use(start, 1, report);
    assert Turns(disk.campaigns, run, 2) == Use(Use(start, 1, report), 2, report);
    SameReportTwice(run, report);
  }

  lemma SameReportTwice(run: Run, report: Json)
    requires Accepted(run.version, report, run.head)
    ensures BuildConsensus([report, report], run).None?
  {
    hide Validate, CollectedSemantic, Describable, SameEnvironment;
    if AllAccepted(run.version, [report, report], run.head) {
      var c := Contexts(run.version, [report, report], run.head);
      assert c[0] == c[1];
    }
  }

  // ----- Resuming -----

  /** Each of these reports is accepted and stands on disk under its own number, from 1 on. */
  ghost predicate AllSaved(campaigns: map<nat, Saved<Json>>, run: Run, reports: seq<Json>) {
    forall i :: 0 <= i < |reports| ==> SavedAs(campaigns, run, reports[i], i + 1)
  }

  ghost predicate SavedAs(campaigns: map<nat, Saved<Json>>, run: Run, report: Json, repeat: nat) {
    repeat in campaigns && campaigns[repeat] == Complete(report) && Accepted(run.version, report, run.head)
  }

  /** Once its campaign is accepted, a repeat is not measured again: the run uses it and leaves the files alone. */
  lemma {:induction false} ResumeUsesAccepted(campaigns: map<nat, Saved<Json>>, run: Run, reports: seq<Json>, n: nat)
    requires !run.noResume && n <= |reports|
    requires AllSaved(campaigns, run, reports)
    ensures Turns(campaigns, run, n) == Progress(campaigns, Numbers(n), reports[..n], [], None)
  {
    hide Validate;
    if n == 0 {
      assert Numbers(0) == [] && reports[..0] == [];
    } else {
      ResumeUsesAccepted(campaigns, run, reports, n - 1);
      TurnsStep(campaigns, run, n);
      assert SavedAs(campaigns, run, reports[n - 1], n);
      assert Numbers(n) == Numbers(n - 1) + [n] && reports[..n] == reports[..n - 1] + [reports[n - 1]];
    }
  }

  /**
   A run after exit code 0, at the same commit, version and repeats, measures nothing: whatever the
   harness would do, if the files can be written again they are the same and the exit code is 0.
   */
  lemma ResumeIsStable(disk: Disk, first: Run, again: Run)
    requires After(disk, first).1 == Zero && !again.noResume
    requires again.version == first.version && again.head == first.head && again.repeats == first.repeats
    requires again.tokenizerSha256 == first.tokenizerSha256 && again.caseCount == first.caseCount
    requires again.consensusWriting.Done? && again.summaryWriting.Done? && again.parityWriting.Done?
    ensures After(After(disk, first).0, again) == After(disk, first)
  {
    hide After, Turns, Validate, Accepted, AllSaved, BuildConsensus, Parity.BuildRecord, ParityInputs;
    var d := After(disk, first).0;
    var p := Outcome(disk, first);
    ZeroIff(disk, first);
    TurnsCollect(disk.campaigns, first, first.repeats);
    CollectedIsSaved(p, first, again, first.repeats);
    ResumeUsesAccepted(d.campaigns, again, p.reports, again.repeats);
    assert p.reports[..again.repeats] == p.reports;
    SameConsensus(p.reports, first, again);
    ZeroIff(d, again);
  }

  lemma CollectedIsSaved(p: Progress, first: Run, again: Run, n: nat)
    requires Collected(p, first, n) && p.failures == [] && p.stopped.None?
    requires again.version == first.version && again.head == first.head
    ensures AllSaved(p.campaigns, again, p.reports) && |p.reports| == n
  {
    hide Accepted;
    forall i | 0 <= i < |p.reports|
      ensures SavedAs(p.campaigns, again, p.reports[i], i + 1)
    {
      assert p.used[i] == i + 1;
    }
  }

  lemma SameConsensus(reports: seq<Json>, first: Run, again: Run)
    requires again.version == first.version && again.head == first.head
    requires again.tokenizerSha256 == first.tokenizerSha256 && again.caseCount == first.caseCount
    ensures BuildConsensus(reports, again) == BuildConsensus(reports, first)
    ensures forall c :: ParityInputs(c, again) == ParityInputs(c, first)
  {
    hide Validate, CollectedSemantic, Describable, SameEnvironment, AllComplete, CommitEqual;
  }
}
