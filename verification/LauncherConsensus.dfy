/**
 What the consensus of a launcher run says and when the run exits with 0, for both versions, in
 terms of the reports themselves: their fields, their shape and every case in them.
 */
module LauncherConsensus {
  import opened CampaignLauncher
  import opened CampaignValidation
  import opened CaseObservations
  import opened Json
  import opened LauncherRuns
  import opened LauncherVerdict
  import opened Text
  import opened Wrappers
  import Parity = ParityEvidence

  // ----- Acceptance -----

  /** The fields that make a report acceptable to version 1. */
  lemma AcceptedIff(report: Json, head: string, expected: Option<Json>)
    ensures ValidateCampaign(report, head, expected).Ok? <==>
            && report.Obj?
            && EqualsInt(Get(report, SchemaVersion), 1) && Get(report, Benchmark) == Constant(MassiveBenchmark)
            && Get(report, SourceRepo) == Constant(TinyLlamaRepo)
            && Get(report, SourceRevision) == Constant(TinyLlamaRevision)
            && Get(report, SourceModelSha256) == Constant(TinyLlamaSha256)
            && Get(report, Metadata).Obj?
            && Get(Get(report, Metadata), GitCommit) == Str(head)
            && Get(Get(report, Metadata), GitDirty) == Bool(false)
            && Get(Get(report, Metadata), EnvironmentFingerprint).Obj?
            && IsText(Get(Get(Get(report, Metadata), EnvironmentFingerprint), RunContextId))
            && (expected.Some? ==>
                  Get(Get(Get(report, Metadata), EnvironmentFingerprint), RunContextId) == expected.value)
            && Get(report, Candidates).Arr? && Get(report, Candidates).items != []
            && Get(report, CandidateReports).Arr?
            && |Get(report, CandidateReports).items| == |Get(report, Candidates).items|
  {
    hide Get, EqualsInt, IsText;
  }

  // ----- Environments -----

  predicate SameField(m: Json, n: Json, key: Key)
    requires m.Obj? && n.Obj?
  {
    (key in m.fields <==> key in n.fields) && Get(m, key) == Get(n, key)
  }

  /** Two environments are equal when normalized if they differ in nothing but the time, the commit and its state, and
      the run context. */
  lemma NormalizedEqualIff(m: Json, n: Json)
    requires m.Obj? && Get(m, EnvironmentFingerprint).Obj? && n.Obj? && Get(n, EnvironmentFingerprint).Obj?
    ensures NormalizedEnvironment(m) == NormalizedEnvironment(n) <==>
            && (forall key :: key !in {UnixTimestampSeconds, GitCommit, GitDirty, EnvironmentFingerprint} ==>
                  SameField(m, n, key))
            && (forall key :: key != RunContextId ==>
                  SameField(Get(m, EnvironmentFingerprint), Get(n, EnvironmentFingerprint), key))
  {
    var a, b := NormalizedEnvironment(m).fields, NormalizedEnvironment(n).fields;
    var f, g := Get(m, EnvironmentFingerprint), Get(n, EnvironmentFingerprint);
    WithoutEqualIff(f, g, RunContextId);
    if NormalizedEnvironment(m) == NormalizedEnvironment(n) {
      assert a[EnvironmentFingerprint] == b[EnvironmentFingerprint];
      forall key | key !in {UnixTimestampSeconds, GitCommit, GitDirty, EnvironmentFingerprint}
        ensures SameField(m, n, key)
      {
        assert (key in a <==> key in m.fields) && (key in b <==> key in n.fields);
      }
    }
    if && Without(f, {RunContextId}) == Without(g, {RunContextId})
       && forall key :: key !in {UnixTimestampSeconds, GitCommit, GitDirty, EnvironmentFingerprint} ==>
            SameField(m, n, key) {
      forall key
        ensures key in a <==> key in b
        ensures key in a ==> a[key] == b[key]
      {
        assert key !in {UnixTimestampSeconds, GitCommit, GitDirty, EnvironmentFingerprint} ==> SameField(m, n, key);
      }
      assert a == b;
    }
  }

  lemma WithoutEqualIff(f: Json, g: Json, key: Key)
    requires f.Obj? && g.Obj?
    ensures Without(f, {key}) == Without(g, {key}) <==> forall k :: k != key ==> SameField(f, g, k)
  {
    var a, b := Without(f, {key}).fields, Without(g, {key}).fields;
    if a == b {
      forall k | k != key
        ensures SameField(f, g, k)
      {
        assert (k in a <==> k in f.fields) && (k in b <==> k in g.fields);
      }
    }
    if forall k :: k != key ==> SameField(f, g, k) {
      forall k
        ensures k in a <==> k in b
        ensures k in a ==> a[k] == b[k]
      {
        assert k != key ==> SameField(f, g, k);
      }
      assert a == b;
    }
  }

  // ----- Counting over all reports -----

  /** A report that can be counted: it has dimensions, and everything below it is as they say. */
  predicate Countable(report: Json) {
    report.Obj? && DimensionsOk(report) && WellShaped(report, 4, ShapeOf(report))
  }

  /** Every case of every candidate, round and block is an exact observation. */
  predicate EveryCaseExact(report: Json) {
    Countable(report) && AllExact(report, 4, ShapeOf(report))
  }

  /** The number of case measurements that a report declares. */
  function DeclaredCases(report: Json): nat
    requires report.Obj? && DimensionsOk(report)
  {
    |Get(report, Candidates).items| * Get(report, RoundsPerCandidate).i * 4 * Get(report, CaseCount).i
  }

  function TotalCases(reports: seq<Json>, n: nat): nat
    requires n <= |reports| && forall i :: 0 <= i < |reports| ==> Countable(reports[i])
  {
    if n == 0 then 0 else TotalCases(reports, n - 1) + DeclaredCases(reports[n - 1])
  }

  lemma ReportCountsMeaning(report: Json)
    ensures ReportCounts(report).Ok? <==> Countable(report)
    ensures Countable(report) ==>
              var (expected, c) := ReportCounts(report).value;
              && expected == c.observations == DeclaredCases(report) > 0
              && c.exact <= c.successful <= c.observations
              && (c.exact == c.observations <==> EveryCaseExact(report))
  {
    hide Count, WellShaped, AllExact, Shape.Volume;
    if report.Obj? && DimensionsOk(report) {
      CountMeaning(report, 4, ShapeOf(report));
      FullVolume(ShapeOf(report));
    }
  }

  lemma {:induction false} CountsMeaning(reports: seq<Json>, n: nat)
    requires n <= |reports|
    ensures CampaignCounts(reports, n).Ok? <==> forall i :: 0 <= i < n ==> Countable(reports[i])
    ensures CampaignCounts(reports, n).Ok? ==>
              var (expected, c) := CampaignCounts(reports, n).value;
              && expected == c.observations && c.exact <= c.successful <= c.observations
              && (n > 0 ==> expected > 0)
              && (c.exact == c.observations <==> forall i :: 0 <= i < n ==> EveryCaseExact(reports[i]))
    ensures (forall i :: 0 <= i < |reports| ==> Countable(reports[i])) ==>
              CampaignCounts(reports, n).Ok? && CampaignCounts(reports, n).value.0 == TotalCases(reports, n)
  {
    hide ReportCounts, Countable, EveryCaseExact, DeclaredCases;
    if n > 0 {
      CountsMeaning(reports, n - 1);
      ReportCountsMeaning(reports[n - 1]);
    }
  }

  /** The semantic count of any campaigns: possible if all can be counted, in full, and exact if every case is. */
  lemma SemanticMeaning(reports: seq<Json>)
    ensures CollectedSemantic(reports).Ok? <==> forall i :: 0 <= i < |reports| ==> Countable(reports[i])
    ensures CollectedSemantic(reports).Ok? ==>
              var s := CollectedSemantic(reports).value;
              && s.observations == s.expected == TotalCases(reports, |reports|)
              && s.exact <= s.successful <= s.observations
              && (s.exact == s.observations <==> forall i :: 0 <= i < |reports| ==> EveryCaseExact(reports[i]))
              && (s.allExact <==> reports != [] && forall i :: 0 <= i < |reports| ==> EveryCaseExact(reports[i]))
  {
    hide CampaignCounts, Countable, EveryCaseExact;
    CountsMeaning(reports, |reports|);
    if reports == [] {
      NothingCounted();
    }
  }

  lemma NothingCounted()
    ensures CampaignCounts([], 0) == Ok((0, Counts(0, 0, 0)))
  {
  }

  // ----- The consensus -----

  ghost predicate DifferentContexts(reports: seq<Json>, v: Version, head: string)
    requires AllAccepted(v, reports, head)
  {
    forall i, j :: 0 <= i < j < |reports| ==>
      ReportContext(v, reports[i], head) != ReportContext(v, reports[j], head)
  }

  /** The run context of an accepted report, as its own metadata has it. */
  function ReportContext(v: Version, report: Json, head: string): Json
    requires Accepted(v, report, head)
  {
    AcceptedFacts(v, report, head, None);
    Get(Get(Get(report, Metadata), EnvironmentFingerprint), RunContextId)
  }

  ghost predicate OneEnvironment(reports: seq<Json>, v: Version, head: string)
    requires AllAccepted(v, reports, head)
  {
    forall i :: 0 <= i < |reports| ==> EnvironmentAgrees(v, reports[i], reports[0], head)
  }

  /** The metadata of two accepted reports normalize to the same environment. */
  predicate EnvironmentAgrees(v: Version, x: Json, y: Json, head: string)
    requires Accepted(v, x, head) && Accepted(v, y, head)
  {
    AcceptedFacts(v, x, head, None);
    AcceptedFacts(v, y, head, None);
    NormalizedEnvironment(Get(x, Metadata)) == NormalizedEnvironment(Get(y, Metadata))
  }

  ghost predicate AllExactAndComplete(reports: seq<Json>) {
    forall i :: 0 <= i < |reports| ==>
      EveryCaseExact(reports[i]) && Get(reports[i], CampaignComplete) == Bool(true)
  }

  lemma ContextsMeaning(reports: seq<Json>, v: Version, head: string)
    requires AllAccepted(v, reports, head)
    ensures Distinct(Contexts(v, reports, head)) <==> DifferentContexts(reports, v, head)
    ensures forall i :: 0 <= i < |reports| ==>
              Contexts(v, reports, head)[i] == ReportContext(v, reports[i], head)
    ensures SameEnvironment(v, reports, head) <==> OneEnvironment(reports, v, head)
    ensures CommitEqual(reports, head)
  {
    hide Validate, NormalizedEnvironment;
    forall i | 0 <= i < |reports|
      ensures ContextOf(v, reports[i], head) == ReportContext(v, reports[i], head)
      ensures reports[i].Obj? && Get(reports[i], Metadata).Obj?
      ensures Get(Get(reports[i], Metadata), GitCommit) == Str(head)
      ensures Accepted(v, reports[0], head)
      ensures EnvironmentOf(v, reports[i], head) == EnvironmentOf(v, reports[0], head) <==>
              EnvironmentAgrees(v, reports[i], reports[0], head)
    {
      AcceptedFacts(v, reports[i], head, None);
      AcceptedFacts(v, reports[0], head, None);
    }
  }

  /**
   A consensus comes about exactly if there are reports, all of them accepted, of different run
   contexts, countable and describable.  It is valid exactly if they are two or more, agree in their
   environment, say that they are complete, and every case of each is exact.
   */
  lemma ConsensusIff(reports: seq<Json>, run: Run)
    ensures BuildConsensus(reports, run).Some? <==>
            && reports != [] && AllAccepted(run.version, reports, run.head)
            && DifferentContexts(reports, run.version, run.head)
            && (forall i :: 0 <= i < |reports| ==> Countable(reports[i])) && Describable(reports)
    ensures BuildConsensus(reports, run).Some? ==>
              (BuildConsensus(reports, run).value.valid <==>
               && |reports| >= 2 && OneEnvironment(reports, run.version, run.head) && AllExactAndComplete(reports))
  {
    hide Accepted, CollectedSemantic, Describable, Countable, EveryCaseExact, SameEnvironment, OneEnvironment,
         CommitEqual, Contexts, Distinct, DifferentContexts;
    SemanticMeaning(reports);
    if AllAccepted(run.version, reports, run.head) {
      ContextsMeaning(reports, run.version, run.head);
      forall i | 0 <= i < |reports|
        ensures reports[i].Obj?
      {
        AcceptedIsObject(run.version, reports[i], run.head);
      }
    }
  }

  lemma AcceptedIsObject(v: Version, report: Json, head: string)
    requires Accepted(v, report, head)
    ensures report.Obj?
  {
    hide Validate;
    AcceptedFacts(v, report, head, None);
  }

  /** What a consensus says of its reports. */
  lemma ConsensusSays(reports: seq<Json>, run: Run)
    requires BuildConsensus(reports, run).Some?
    ensures AllAccepted(run.version, reports, run.head)
    ensures forall i :: 0 <= i < |reports| ==> Countable(reports[i])
    ensures var c := BuildConsensus(reports, run).value;
            && c.head == run.head && |c.contexts| == |reports|
            && (forall i :: 0 <= i < |reports| ==>
                  c.contexts[i] == ReportContext(run.version, reports[i], run.head))
            && (c.environmentCompatible <==> OneEnvironment(reports, run.version, run.head)) && c.commitEqual
            && (c.allComplete <==>
                  forall i :: 0 <= i < |reports| ==> Get(reports[i], CampaignComplete) == Bool(true))
            && c.semantic.observations == c.semantic.expected == TotalCases(reports, |reports|)
            && (c.semantic.exact == c.semantic.observations <==>
                  forall i :: 0 <= i < |reports| ==> EveryCaseExact(reports[i]))
            && (c.semantic.allExact <==> forall i :: 0 <= i < |reports| ==> EveryCaseExact(reports[i]))
            && c.failures == []
  {
    hide Accepted, CollectedSemantic, Describable, Countable, EveryCaseExact, SameEnvironment, OneEnvironment,
         CommitEqual, Contexts, Distinct, DifferentContexts;
    SemanticMeaning(reports);
    ContextsMeaning(reports, run.version, run.head);
    forall i | 0 <= i < |reports|
      ensures reports[i].Obj?
    {
      AcceptedIsObject(run.version, reports[i], run.head);
    }
  }

  // ----- Exit code 0 -----

  /** What the reports of a run must be like for exit code 0. */
  ghost predicate Qualify(reports: seq<Json>, run: Run) {
    && |reports| >= 2 && AllAccepted(run.version, reports, run.head)
    && DifferentContexts(reports, run.version, run.head) && OneEnvironment(reports, run.version, run.head)
    && AllExactAndComplete(reports) && Describable(reports)
  }

  /** What recording their result still asks for. */
  ghost predicate Recordable(reports: seq<Json>, run: Run)
    requires AllExactAndComplete(reports)
  {
    && IsHexString(run.tokenizerSha256, 64) && IsHex(run.head, 40)
    && 1 <= run.caseCount <= TotalCases(reports, |reports|)
    && run.consensusWriting.Done? && run.summaryWriting.Done? && run.parityWriting.Done?
  }

  /**
   Exit code 0, of either version and on any disk: exactly if the loop was not stopped and lost no
   repeat, its reports qualify, and recording the result succeeds.
   */
  lemma LaunchSucceedsIff(disk: Disk, run: Run)
    ensures var p := Outcome(disk, run);
            After(disk, run).1 == Zero <==>
              && p.stopped.None? && (forall k :: 1 <= k <= run.repeats ==> !Lost(disk.campaigns, run, k))
              && Qualify(p.reports, run) && Recordable(p.reports, run)
  {
    hide After, Turns, BuildConsensus, Parity.BuildRecord, ParityInputs, Lost, Accepted, OneEnvironment,
         DifferentContexts, Describable, EveryCaseExact, Countable, IsHex, IsHexString;
    var p := Outcome(disk, run);
    ZeroIff(disk, run);
    if p.stopped.None? {
      NothingLostIff(disk.campaigns, run, run.repeats);
    }
    ConsensusIff(p.reports, run);
    if BuildConsensus(p.reports, run).Some? {
      ConsensusSays(p.reports, run);
      var c := BuildConsensus(p.reports, run).value;
      if c.semantic.exact == c.semantic.observations {
        ParityBuilds(c, run);
      }
    }
    if Qualify(p.reports, run) {
      forall i | 0 <= i < |p.reports|
        ensures Countable(p.reports[i])
      {
        ExactIsCountable(p.reports[i]);
      }
    }
  }

  lemma ExactIsCountable(report: Json)
    ensures EveryCaseExact(report) ==> Countable(report)
  {
  }

  lemma NothingLostIff(start: map<nat, Saved<Json>>, run: Run, n: nat)
    requires Turns(start, run, n).stopped.None?
    ensures Turns(start, run, n).failures == [] <==> forall k :: 1 <= k <= n ==> !Lost(start, run, k)
  {
    hide Turns, Lost, FailureOf, Accepted;
    var p := Turns(start, run, n);
    TurnsPartition(start, run, n);
    TurnsCollect(start, run, n);
    forall k: nat | 1 <= k <= n
      ensures Lost(start, run, k) <==> FailureOf(run, k) in p.failures
    {
      UsedIffNotLost(start, run, n, k);
    }
    if p.failures != [] {
      var f := p.failures[0];
      assert f in p.failures && f == FailureOf(run, f.repeat);
    }
  }

  /** The report of repeat k: the one on disk if that is taken up, else what the harness emits. */
  function SourceOf(start: map<nat, Saved<Json>>, run: Run, k: nat): Json {
    match Existing(start, run, k)
    case Ok(Some(report)) => report
    case _ =>
      match run.harness(k)
      case Emits(report, _) => report
      case _ => Null
  }

  lemma TurnTakesSource(p: Progress, start: map<nat, Saved<Json>>, run: Run, n: nat)
    requires Turn(p, run, n).stopped.None? && Existing(p.campaigns, run, n) == Existing(start, run, n)
    requires !Lost(start, run, n)
    ensures Turn(p, run, n).reports == p.reports + [SourceOf(start, run, n)]
    ensures p.stopped.None?
  {
    hide Validate, Existing, Context;
  }

  /** The reports of a run that loses nothing are those, in order. */
  lemma {:induction false} ReportsAreSources(start: map<nat, Saved<Json>>, run: Run, n: nat)
    requires Turns(start, run, n).stopped.None? && forall k :: 1 <= k <= n ==> !Lost(start, run, k)
    ensures var reports := Turns(start, run, n).reports;
            |reports| == n && forall k :: 1 <= k <= n ==> reports[k - 1] == SourceOf(start, run, k)
  {
    hide Turn, Turns, Lost, Existing, SourceOf;
    if n == 0 {
      NoTurns(start, run);
    } else {
      var p := Turns(start, run, n - 1);
      TurnsStep(start, run, n);
      LaterFilesUntouched(start, run, n - 1, n);
      ExistingReadsOneFile(p.campaigns, start, run, n);
      TurnTakesSource(p, start, run, n);
      ReportsAreSources(start, run, n - 1);
    }
  }

  lemma NoTurns(start: map<nat, Saved<Json>>, run: Run)
    ensures Turns(start, run, 0).reports == []
  {
  }

  /** Without resuming, whatever is on disk is measured anew. */
  lemma NoResumeMeasures(start: map<nat, Saved<Json>>, run: Run, k: nat)
    requires run.noResume && run.harness(k).Emits?
    ensures SourceOf(start, run, k) == run.harness(k).report
  {
    hide Load;
  }

  /** A file that is accepted is taken up, whatever the harness would do. */
  lemma ResumeTakesFile(start: map<nat, Saved<Json>>, run: Run, k: nat)
    requires !run.noResume && k in start && start[k].Complete? && Accepted(run.version, start[k].value, run.head)
    ensures SourceOf(start, run, k) == start[k].value && !Lost(start, run, k)
  {
    hide Validate;
  }

  // ----- Files that are not taken up -----

  /**
   A file that is missing, does not parse, or is an object that version 1 does not accept, is no
   campaign; one that parses to anything but an object makes the launcher fail.
   */
  lemma LoadMeaning(campaigns: map<nat, Saved<Json>>, head: string, k: nat)
    ensures k !in campaigns || campaigns[k].Torn? ==> forall v :: Load(campaigns, v, head, k) == Ok(None)
    ensures k in campaigns && campaigns[k].Complete? && !campaigns[k].value.Obj? ==>
              forall v :: Load(campaigns, v, head, k).Err?
    ensures k in campaigns && campaigns[k].Complete? && campaigns[k].value.Obj? ==>
              Load(campaigns, V1, head, k)
              == Ok(if Accepted(V1, campaigns[k].value, head) then Some(campaigns[k].value) else None)
  {
    hide MetadataOk, EqualsInt, Get;
  }

  // ----- Runs that do not succeed -----

  predicate WritesSurvive(run: Run) {
    && !run.failuresWriting.Killed? && !run.consensusWriting.Killed?
    && !run.summaryWriting.Killed? && !run.parityWriting.Killed?
  }

  predicate AttemptsSurvive(run: Run) {
    forall k: nat :: k <= run.repeats ==>
      !run.harness(k).KilledMeanwhile? && (run.harness(k).Emits? ==> !run.harness(k).saving.Killed?)
  }

  /** Nobody is killed without a kill: a run ends with an exit code as long as no attempt and no write is killed. */
  lemma NoKillNoDeath(disk: Disk, run: Run)
    requires WritesSurvive(run) && AttemptsSurvive(run)
    ensures After(disk, run).1 == Zero || After(disk, run).1 == One
  {
    hide Turns, BuildConsensus, ParityInputs, Parity.BuildRecord;
    TurnsSurvive(disk.campaigns, run, run.repeats);
  }

  lemma {:induction false} TurnsSurvive(campaigns: map<nat, Saved<Json>>, run: Run, n: nat)
    requires AttemptsSurvive(run) && n <= run.repeats
    ensures Turns(campaigns, run, n).stopped != Some(Dead) && Turns(campaigns, run, n).stopped != Some(Zero)
  {
    if n > 0 {
      hide Turn, AttemptsSurvive;
      TurnsSurvive(campaigns, run, n - 1);
      TurnSurvives(Turns(campaigns, run, n - 1), run, n);
    }
  }

  lemma TurnSurvives(p: Progress, run: Run, n: nat)
    requires AttemptsSurvive(run) && n <= run.repeats && p.stopped != Some(Dead) && p.stopped != Some(Zero)
    ensures Turn(p, run, n).stopped != Some(Dead) && Turn(p, run, n).stopped != Some(Zero)
  {
    hide Existing, Validate, Context, SaveCampaign;
  }

  /** And a kill in a write that is reached is one: there is no exit code. */
  lemma KilledWritesEndTheRun(disk: Disk, run: Run)
    requires Outcome(disk, run).stopped.None? && Outcome(disk, run).failures == []
    requires BuildConsensus(Outcome(disk, run).reports, run).Some?
    ensures run.consensusWriting.Killed? ==> After(disk, run).1 == Dead
    ensures run.consensusWriting.Done? && run.summaryWriting.Killed? ==> After(disk, run).1 == Dead
  {
    hide Turns, BuildConsensus, ParityInputs, Parity.BuildRecord;
  }


  /**
   A run that loses a repeat and still has reports for a consensus exits with 1, if it can write its
   files: the failures are listed in their own file and in the consensus, which is not valid, and the
   record stays as it was.
   */
  lemma LossIsReported(disk: Disk, run: Run, k: nat)
    requires Outcome(disk, run).stopped.None? && 1 <= k <= run.repeats && Lost(disk.campaigns, run, k)
    requires BuildConsensus(Outcome(disk, run).reports, run).Some?
    requires run.failuresWriting.Done? && run.consensusWriting.Done? && run.summaryWriting.Done?
    ensures var (after, exit) := After(disk, run);
            && exit == One && after.parity == disk.parity
            && after.failures.Some? && after.failures.value.Complete? && FailureOf(run, k) in after.failures.value.value
            && after.consensus.Some? && after.consensus.value.Complete? && !after.consensus.value.value.valid
            && after.consensus.value.value.failures == after.failures.value.value
  {
    hide Turns, BuildConsensus, Lost, FailureOf, ParityInputs, Parity.BuildRecord;
    UsedIffNotLost(disk.campaigns, run, run.repeats, k);
    TurnsPartition(disk.campaigns, run, run.repeats);
    assert FailureOf(run, k) in Outcome(disk, run).failures;
  }

  /** A run context names the tool, the commit in short, the time and the repeat. */
  lemma ContextSays(head: string, timestamp: string, repeat: nat)
    requires |head| == 40
    ensures Context(head, timestamp, repeat)
            == "tinyllama-massive-" + head[..12] + "-" + timestamp + "-r" + TwoDigits(repeat)
  {
  }

  // ----- The record -----

  /** The parity record names the pinned checkpoint and runtime, and counts the exact observations. */
  lemma RecordSays(c: Consensus, run: Run)
    requires Parity.BuildRecord(ParityInputs(c, run)).Ok?
    ensures var r := Parity.BuildRecord(ParityInputs(c, run)).value;
            && r.Obj?
            && Get(r, CheckpointSpecName) == Constant(TinyLlama) && Get(r, SourceRepo) == Constant(TinyLlamaRepo)
            && Get(r, SourceRevision) == Constant(TinyLlamaRevision)
            && Get(r, SourceModelSha256) == Constant(TinyLlamaSha256)
            && Get(r, TokenizerSha256) == run.tokenizerSha256
            && Get(r, ReferenceRuntime) == Constant(Transformers)
            && Get(r, ReferenceRuntimeVersion) == Constant(TransformersVersion)
            && Get(r, ExecutionGitCommit) == Str(run.head) && Get(r, ExecutionGitDirty) == Bool(false)
            && Get(r, ExecutionBackend) == Constant(MassiveBackend)
            && Get(r, ParityLevel) == Constant(GenerationTrajectory) && Get(r, Logits) == Null
            && Get(r, PromotionAuthorized) == Bool(false)
    ensures var s := Get(Parity.BuildRecord(ParityInputs(c, run)).value, Semantic);
            && s.Obj? && Get(s, CaseCount) == Int(run.caseCount)
            && Get(s, Observations) == Int(c.semantic.observations)
            && Get(s, ExactGreedyObservations) == Int(c.semantic.exact) && Get(s, ExactGreedyAll) == Bool(true)
  {
    hide Parity.RecordOf, Parity.SemanticOf, Get;
    var a := ParityInputs(c, run);
    BuiltIsRecord(a);
    Parity.HeadLookups(a);
    Parity.IdentityLookups(a);
    Parity.ExecutionLookups(a);
    Parity.TailLookups(a);
    SemanticLookups(a);
    Parity.BuildRecordIff(a);
  }

  lemma BuiltIsRecord(a: Parity.RecordInputs)
    ensures Parity.BuildRecord(a).Ok? ==> Parity.BuildRecord(a).value == Parity.RecordOf(a)
  {
    hide Parity.RecordOf, Parity.ValidateRecord;
  }

  lemma SemanticLookups(a: Parity.RecordInputs)
    ensures var s := Parity.SemanticOf(a);
            && s.Obj? && Get(s, CaseCount) == Int(a.caseCount) && Get(s, Observations) == Int(a.observations)
            && Get(s, ExactGreedyObservations) == Int(a.exact)
            && (Parity.Buildable(a) ==> Get(s, ExactGreedyAll) == Bool(true))
  {
  }
}
