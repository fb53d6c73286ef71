/**
 The massive campaign launcher: a resumable run over the files of one run directory.  Every run may
 be killed, or fail, at any write; what is on disk then is all that the next run sees.
 */
module CampaignLauncher {
  import opened CampaignValidation
  import opened CaseObservations
  import opened Json
  import opened Text
  import opened Wrappers
  import Parity = ParityEvidence

  // ----- The run directory -----

  /** A written file, or one cut off in the middle of writing it, which no longer parses. */
  datatype Saved<T> = Complete(value: T) | Torn

  datatype Failure = Failure(repeat: nat, context: string)

  datatype Consensus = Consensus(head: string, contexts: seq<Json>, environmentCompatible: bool, commitEqual: bool,
                                 allComplete: bool, semantic: SemanticCount, valid: bool, rawFiles: seq<nat>,
                                 failures: seq<Failure>)

  /** The campaign files by repeat number, and the three other files of a run directory. */
  datatype Disk = Disk(campaigns: map<nat, Saved<Json>>, failures: Option<Saved<seq<Failure>>>,
                       consensus: Option<Saved<Consensus>>, parity: Option<Saved<Json>>)

  /** Writing a file is not atomic: it may fail, or the launcher may be killed, before it or in the middle of it. */
  datatype Writing = Done | Fault(torn: bool) | Killed(torn: bool)

  function Written<T>(before: Option<Saved<T>>, content: T, w: Writing): Option<Saved<T>> {
    if w.Done? then Some(Complete(content)) else if w.torn then Some(Torn) else before
  }

  /** How a run ends: with exit code 0 or 1, or killed. */
  datatype Exit = Zero | One | Dead

  function Stop(w: Writing): Exit
    requires !w.Done?
  {
    if w.Fault? then One else Dead
  }

  // ----- One run -----

  datatype Version = V1 | V2

  /**
   What happens when the harness is started: the launcher is killed, the harness fails, or it emits a
   report to save.
   */
  datatype Attempt = KilledMeanwhile | HarnessFails | Emits(report: Json, saving: Writing)

  datatype Run = Run(version: Version, head: string, timestamp: string, repeats: nat, noResume: bool,
                     harness: nat -> Attempt,
                     tokenizerSha256: Json, caseCount: int,  // of the validated fixture
                     failuresWriting: Writing, consensusWriting: Writing, summaryWriting: Writing,
                         parityWriting: Writing)

  /** The acceptance test: version 2 replaces it inside the same launcher. */
  function Validate(v: Version, report: Json, head: string, expected: Option<Json>): Result<Json,
      CampaignValidation.Fault> {
    if v == V1 then ValidateCampaign(report, head, expected) else ValidateCompleteCampaign(report, head, expected)
  }

  function ContextPrefix(head: string, timestamp: string): string {
    "tinyllama-massive-" + (if |head| <= 12 then head else head[..12]) + "-" + timestamp
  }

  /** The run context of one repeat. */
  function Context(head: string, timestamp: string, repeat: nat): string {
    ContextPrefix(head, timestamp) + "-r" + TwoDigits(repeat)
  }

  /** `load_resumable_campaign`: a missing, torn or rejected file is no campaign; anything worse escapes. */
  function Load(campaigns: map<nat, Saved<Json>>, v: Version, head: string, repeat: nat): Result<Option<Json>, ()> {
    if repeat !in campaigns || campaigns[repeat].Torn? then Ok(None)
    else
      match Validate(v, campaigns[repeat].value, head, None)
      case Ok(_) => Ok(Some(campaigns[repeat].value))
      case Err(RuntimeFault) => Ok(None)
      case Err(OtherFault) => Err(())
  }

  function Existing(campaigns: map<nat, Saved<Json>>, run: Run, repeat: nat): Result<Option<Json>, ()> {
    if run.noResume then Ok(None) else Load(campaigns, run.version, run.head, repeat)
  }

  /** How far the loop over the repeats has come: the files, the repeats and reports in use, the failures. */
  datatype Progress = Progress(campaigns: map<nat, Saved<Json>>, used: seq<nat>, reports: seq<Json>,
                               failures: seq<Failure>, stopped: Option<Exit>)

  function Use(p: Progress, repeat: nat, report: Json): Progress {
    p.(used := p.used + [repeat], reports := p.reports + [report])
  }

  function Fail(p: Progress, repeat: nat, context: string): Progress {
    p.(failures := p.failures + [Failure(repeat, context)])
  }

  function SaveCampaign(campaigns: map<nat, Saved<Json>>, repeat: nat, report: Json, w: Writing): map<nat,
      Saved<Json>> {
    if w.Done? then campaigns[repeat := Complete(report)]
    else if w.torn then campaigns[repeat := Torn]
    else campaigns
  }

  /** Running the harness for one repeat. */
  function Measure(p: Progress, run: Run, repeat: nat): Progress {
    var context := Context(run.head, run.timestamp, repeat);
    match run.harness(repeat)
    case KilledMeanwhile => p.(stopped := Some(Dead))
    case HarnessFails => Fail(p, repeat, context)
    case Emits(report, saving) =>
      if Validate(run.version, report, run.head, Some(Str(context))).Err? then Fail(p, repeat, context)
      else
        var q := p.(campaigns := SaveCampaign(p.campaigns, repeat, report, saving));
        match saving
        case Done => Use(q, repeat, report)
        case Fault(_) => Fail(q, repeat, context)
        case Killed(_) => q.(stopped := Some(Dead))
  }

  /** One turn of the loop over the repeats. */
  function Turn(p: Progress, run: Run, repeat: nat): Progress {
    if p.stopped.Some? then p
    else
      match Existing(p.campaigns, run, repeat)
      case Err(_) => p.(stopped := Some(One))
      case Ok(Some(report)) => Use(p, repeat, report)
      case Ok(None) => Measure(p, run, repeat)
  }

  function Turns(campaigns: map<nat, Saved<Json>>, run: Run, n: nat): Progress {
    if n == 0 then Progress(campaigns, [], [], [], None)
    else Turn(Turns(campaigns, run, n - 1), run, n)
  }

  // ----- The consensus -----

  predicate Distinct<T(==)>(s: seq<T>) {
    forall i, j :: 0 <= i < j < |s| ==> s[i] != s[j]
  }

  function Without(j: Json, keys: set<Key>): Json
    requires j.Obj?
  {
    Obj(j.fields - keys)
  }

  /** Metadata without what may differ between independent runs. */
  function NormalizedEnvironment(m: Json): Json
    requires m.Obj? && Get(m, EnvironmentFingerprint).Obj?
  {
    Obj((m.fields - {UnixTimestampSeconds, GitCommit, GitDirty})
        [EnvironmentFingerprint := Without(Get(m, EnvironmentFingerprint), {RunContextId})])
  }

  predicate Accepted(v: Version, report: Json, head: string) {
    Validate(v, report, head, None).Ok?
  }

  predicate AllAccepted(v: Version, reports: seq<Json>, head: string) {
    forall i :: 0 <= i < |reports| ==> Accepted(v, reports[i], head)
  }

  lemma AcceptedFacts(v: Version, report: Json, head: string, expected: Option<Json>)
    requires Validate(v, report, head, expected).Ok?
    ensures report.Obj? && Get(report, Metadata).Obj? && Get(Get(report, Metadata), EnvironmentFingerprint).Obj?
    ensures Get(Get(report, Metadata), GitCommit) == Str(head)
    ensures Validate(v, report, head, expected) == Ok(RunContext(report))
    ensures Validate(v, report, head, None) == Ok(RunContext(report))
    ensures expected.Some? ==> RunContext(report) == expected.value
    ensures v == V2 ==> FullyExact(report)
  {
    hide FullyExact, CollectedSemantic, IsText;
    if v == V2 {
      hide ValidateCompleteCampaign;
      CompleteCampaignMeaning(report, head, expected);
      CompleteCampaignMeaning(report, head, None);
    }
  }

  function ContextOf(v: Version, report: Json, head: string): Json
    requires Accepted(v, report, head)
  {
    Validate(v, report, head, None).value
  }

  function EnvironmentOf(v: Version, report: Json, head: string): Json
    requires Accepted(v, report, head)
  {
    AcceptedFacts(v, report, head, None);
    NormalizedEnvironment(Get(report, Metadata))
  }

  predicate SameEnvironment(v: Version, reports: seq<Json>, head: string)
    requires AllAccepted(v, reports, head)
  {
    forall i :: 0 <= i < |reports| ==> EnvironmentOf(v, reports[i], head) == EnvironmentOf(v, reports[0], head)
  }

  function Contexts(v: Version, reports: seq<Json>, head: string): (r: seq<Json>)
    requires AllAccepted(v, reports, head)
    ensures |r| == |reports| && forall i :: 0 <= i < |r| ==> r[i] == ContextOf(v, reports[i], head)
  {
    seq(|reports|, i requires 0 <= i < |reports| => ContextOf(v, reports[i], head))
  }

  predicate CommitEqual(reports: seq<Json>, head: string) {
    forall i :: 0 <= i < |reports| ==>
      reports[i].Obj? && Get(reports[i], Metadata).Obj? && Get(Get(reports[i], Metadata), GitCommit) == Str(head)
  }

  predicate AllComplete(reports: seq<Json>) {
    forall i :: 0 <= i < |reports| ==> reports[i].Obj? && Get(reports[i], CampaignComplete) == Bool(true)
  }

  /** The numbers 1 to n: the repeats whose files the consensus lists. */
  function Numbers(n: nat): (r: seq<nat>)
    ensures |r| == n && forall i :: 0 <= i < n ==> r[i] == i + 1
  {
    seq(n, i requires 0 <= i < n => i + 1)
  }

  /** `build_consensus`, or None if it raises. */
  function BuildConsensus(reports: seq<Json>, run: Run): Option<Consensus> {
    var v, head := run.version, run.head;
    if reports == [] || !AllAccepted(v, reports, head) then None
    else if !Distinct(Contexts(v, reports, head)) then None
    else
      var semantic := CollectedSemantic(reports);
      if semantic.Err? || !Describable(reports) then None
      else
        var compatible, equal, complete := SameEnvironment(v, reports, head), CommitEqual(reports, head),
            AllComplete(reports);
        Some(Consensus(head, Contexts(v, reports, head), compatible, equal, complete, semantic.value,
                       |reports| >= 2 && compatible && equal && complete && semantic.value.allExact,
                       Numbers(|reports|), []))
  }

  /** A failed repeat is listed in the consensus and invalidates it. */
  function WithFailures(c: Consensus, failures: seq<Failure>): Consensus {
    if failures == [] then c else c.(failures := failures, valid := false)
  }

  function ParityInputs(c: Consensus, run: Run): Parity.RecordInputs {
    Parity.RecordInputs(Constant(TinyLlama), Constant(TinyLlamaRepo), Constant(TinyLlamaRevision),
        Constant(TinyLlamaSha256),
                        run.tokenizerSha256, Constant(Transformers), Constant(TransformersVersion), Str(run.head),
                        Constant(MassiveBackend), run.caseCount, c.semantic.observations, c.semantic.exact,
                        Constant(ConsensusKind), Constant(ConsensusFile))
  }

  // ----- The rest of a run -----

  function WriteParity(disk: Disk, c: Consensus, run: Run): (Disk, Exit) {
    if !c.valid then (disk, One)
    else
      match Parity.BuildRecord(ParityInputs(c, run))
      case Err(_) => (disk, One)
      case Ok(record) =>
        var w := run.parityWriting;
        (disk.(parity := Written(disk.parity, record, w)), if w.Done? then Zero else Stop(w))
  }

  function WriteConsensus(disk: Disk, c: Consensus, run: Run): (Disk, Exit) {
    var w := run.consensusWriting;
    var next := disk.(consensus := Written(disk.consensus, c, w));
    if !w.Done? then (next, Stop(w))
    else if !run.summaryWriting.Done? then (next, Stop(run.summaryWriting))
    else WriteParity(next, c, run)
  }

  function Conclude(disk: Disk, p: Progress, run: Run): (Disk, Exit) {
    match BuildConsensus(p.reports, run)
    case None => (disk, One)
    case Some(c) => WriteConsensus(disk, WithFailures(c, p.failures), run)
  }

  /** What a run leaves on disk, and how it ends. */
  function After(disk: Disk, run: Run): (Disk, Exit) {
    var p := Turns(disk.campaigns, run, run.repeats);
    var next := disk.(campaigns := p.campaigns);
    if p.stopped.Some? then (next, p.stopped.value)
    else if p.failures == [] then Conclude(next, p, run)
    else
      var w := run.failuresWriting;
      var noted := next.(failures := Written(next.failures, p.failures, w));
      if w.Done? then Conclude(noted, p, run) else (noted, Stop(w))
  }

  /** The disk after a history of runs, each resuming from what the one before left. */
  function History(disk: Disk, runs: seq<Run>): Disk {
    if runs == [] then disk else After(History(disk, runs[..|runs| - 1]), runs[|runs| - 1]).0
  }
}
