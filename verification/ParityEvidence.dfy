/**
 NNML1 parity evidence: validation of one record, composition of records into a suite, and the
 summary the Hub process derives from either.
 */
module ParityEvidence {
  import opened Json
  import opened Wrappers

  /** The exact source identity of a checkpoint. */
  datatype Checkpoint = Checkpoint(repo: Json, revision: Json, modelSha256: Json)

  /** The registered checkpoints. */
  function Registered(name: Json): Option<Checkpoint> {
    if name == Constant(SmolLm2) then
      Some(Checkpoint(Constant(SmolLm2Repo), Constant(SmolLm2Revision), Constant(SmolLm2Sha256)))
    else if name == Constant(TinyLlama) then
      Some(Checkpoint(Constant(TinyLlamaRepo), Constant(TinyLlamaRevision), Constant(TinyLlamaSha256)))
    else None
  }

  function BothNames(): set<Json> {
    {Constant(SmolLm2), Constant(TinyLlama)}
  }

  /** Rejected is the evidence error; Raised is a type error nobody expects. */
  datatype Verdict = Accepted | Rejected | Raised

  predicate CheckpointIdentityOk(r: Json)
    requires r.Obj?
  {
    && IsText(Get(r, CheckpointSpecName))
    && EqualsInt(Get(r, CheckpointSpecVersion), 1)
    && Registered(Get(r, CheckpointSpecName))
       == Some(Checkpoint(Get(r, SourceRepo), Get(r, SourceRevision), Get(r, SourceModelSha256)))
    && IsHexString(Get(r, TokenizerSha256), 64)
  }

  predicate SemanticOk(j: Json) {
    && j.Obj?
    && IntAtLeast(Get(j, CaseCount), 1) && IntAtLeast(Get(j, Observations), 1)
    && IntAtLeast(Get(j, ExactGreedyObservations), 0)
    && Get(j, Observations).i >= Get(j, CaseCount).i
    && Get(j, ExactGreedyAll) == Bool(true)
    && Get(j, ExactGreedyObservations).i == Get(j, Observations).i
  }

  predicate FiniteNonNegative(j: Json) {
    (j.Int? && j.i >= 0) || (j.Float? && j.r >= 0.0)
  }

  predicate LogitsOk(j: Json) {
    && j.Obj?
    && FiniteNonNegative(Get(j, Atol)) && FiniteNonNegative(Get(j, Rtol))
    && IntAtLeast(Get(j, Stages), 1)
    && Get(j, Failures) == Int(0) && Get(j, NonFinite) == Int(0)
    && FiniteNonNegative(Get(j, MaxAbs)) && FiniteNonNegative(Get(j, MaxRms))
    && Get(j, StrictToleranceAsserted) == Bool(true)
  }

  /** The checks before the parity level is looked at. */
  predicate RecordHeadOk(r: Json)
    requires r.Obj?
  {
    && EqualsInt(Get(r, SchemaVersion), 1) && Get(r, Kind) == Constant(ParityRecordKind)
    && CheckpointIdentityOk(r)
    && Get(r, ReferenceRuntime) == Constant(Transformers)
    && IsText(Get(r, ReferenceRuntimeVersion))
    && IsHexString(Get(r, ExecutionGitCommit), 40)
    && Get(r, ExecutionGitDirty) == Bool(false)
    && IsText(Get(r, ExecutionBackend))
  }

  /** The checks after it. */
  predicate RecordTailOk(r: Json)
    requires r.Obj?
  {
    && SemanticOk(Get(r, Semantic))
    && (if Get(r, ParityLevel) == Constant(LogitAndGeneration) then LogitsOk(Get(r, Logits))
        else Get(r, Logits) == Null)
    && Get(r, SourceEvidence).Obj?
    && IsText(Get(Get(r, SourceEvidence), Kind)) && IsText(Get(Get(r, SourceEvidence), Artifact))
    && Get(r, PromotionAuthorized) == Bool(false)
    && IsText(Get(r, ClaimBoundary))
  }

  /** `validate_record`; an unhashable parity level raises instead of being rejected. */
  function ValidateRecord(r: Json): Verdict {
    if !r.Obj? || !RecordHeadOk(r) then Rejected
    else if Get(r, ParityLevel).Arr? || Get(r, ParityLevel).Obj? then Raised
    else if Get(r, ParityLevel) != Constant(GenerationTrajectory) &&
        Get(r, ParityLevel) != Constant(LogitAndGeneration) then Rejected
    else if RecordTailOk(r) then Accepted
    else Rejected
  }

  function Name(r: Json): Json
    requires ValidateRecord(r).Accepted?
  {
    Get(r, CheckpointSpecName)
  }

  function Commit(r: Json): string
    requires ValidateRecord(r).Accepted?
  {
    Get(r, ExecutionGitCommit).s
  }

  predicate AllAccepted(records: seq<Json>) {
    forall i :: 0 <= i < |records| ==> ValidateRecord(records[i]).Accepted?
  }

  /** Validating a list stops at the first record that is not accepted. */
  function ValidateAll(records: seq<Json>): (v: Verdict)
    ensures v.Accepted? <==> AllAccepted(records)
  {
    hide ValidateRecord;
    if records == [] then Accepted
    else
      var v := ValidateRecord(records[0]);
      assert AllAccepted(records) ==> AllAccepted(records[1..]);
      assert v.Accepted? && AllAccepted(records[1..]) ==> AllAccepted(records) by {
        assert forall i :: 1 <= i < |records| ==> records[i] == records[1..][i - 1];
      }
      if v.Accepted? then ValidateAll(records[1..]) else v
  }

  function Names(records: seq<Json>): set<Json>
    requires AllAccepted(records)
  {
    hide ValidateRecord;
    set i | 0 <= i < |records| :: Name(records[i])
  }

  function Commits(records: seq<Json>): set<string>
    requires AllAccepted(records)
  {
    hide ValidateRecord;
    set i | 0 <= i < |records| :: Commit(records[i])
  }

  /** `validate_suite`. */
  function ValidateSuite(s: Json): Verdict {
    hide ValidateRecord;
    if !s.Obj? || !EqualsInt(Get(s, SchemaVersion), 1) || Get(s, Kind) != Constant(ParitySuiteKind) then Rejected
    else if !IsHexString(Get(s, ExecutionGitCommit), 40) then Rejected
    else if !Get(s, Records).Arr? || |Get(s, Records).items| < 2 then Rejected
    else
      var records := Get(s, Records).items;
      var v := ValidateAll(records);
      if !v.Accepted? then v
      else if exists i :: 0 <= i < |records| && Commit(records[i]) != Get(s, ExecutionGitCommit).s then Rejected
      else if |Names(records)| < 2 then Rejected
      else if !EqualsInt(Get(s, DistinctCheckpointCount), |Names(records)|) then Rejected
      else if Get(s, PromotionAuthorized) != Bool(false) || !IsText(Get(s, ClaimBoundary)) then Rejected
      else Accepted
  }

  function SuiteOf(commit: string, distinct: nat, records: seq<Json>): Json {
    Obj(map[SchemaVersion := Int(1), Kind := Constant(ParitySuiteKind), ExecutionGitCommit := Str(commit),
            DistinctCheckpointCount := Int(distinct), Records := Arr(records),
            PromotionAuthorized := Bool(false), ClaimBoundary := Constant(SuiteClaim)])
  }

  /** `build_suite`: the composed suite if it validates, or how the composition fails. */
  function BuildSuite(records: seq<Json>): Result<Json, Verdict> {
    hide ValidateRecord, ValidateSuite;
    var v := ValidateAll(records);
    if !v.Accepted? then Err(v)
    else if records == [] then Err(Rejected)
    else if Commits(records) != {Commit(records[0])} then Err(Rejected)
    else
      var suite := SuiteOf(Commit(records[0]), |Names(records)|, records);
      var w := ValidateSuite(suite);
      if w.Accepted? then Ok(suite) else Err(w)
  }

  // ----- What holds of accepted evidence -----

  /** One of the two registered checkpoints with its own source. */
  predicate NamesItsSource(r: Json)
    requires r.Obj?
  {
    || (Get(r, CheckpointSpecName) == Constant(SmolLm2) && Get(r, SourceRepo) == Constant(SmolLm2Repo)
        && Get(r, SourceRevision) == Constant(SmolLm2Revision) && Get(r, SourceModelSha256) == Constant(SmolLm2Sha256))
    || (Get(r, CheckpointSpecName) == Constant(TinyLlama) && Get(r, SourceRepo) == Constant(TinyLlamaRepo)
        && Get(r, SourceRevision) == Constant(TinyLlamaRevision)
        && Get(r, SourceModelSha256) == Constant(TinyLlamaSha256))
  }

  /** As many exact observations as observations, no fewer than cases, and at least one case. */
  predicate CountsAllExact(s: Json) {
    && s.Obj? && Get(s, CaseCount).Int? && Get(s, Observations).Int?
    && 1 <= Get(s, CaseCount).i <= Get(s, Observations).i
    && Get(s, ExactGreedyObservations) == Get(s, Observations) && Get(s, ExactGreedyAll) == Bool(true)
  }

  /** A number that is neither negative nor infinite, and no boolean. */
  predicate IsMagnitude(x: Json) {
    match x
    case Int(i) => !(i < 0)
    case Float(r) => !(r < 0.0)
    case _ => false
  }

  /** Logits compared over at least one stage, within stated tolerances, without a failure or a non-finite value. */
  predicate ComparesLogits(l: Json) {
    && l.Obj? && IsMagnitude(Get(l, Atol)) && IsMagnitude(Get(l, Rtol))
    && Get(l, Stages).Int? && Get(l, Stages).i > 0
    && Get(l, Failures) == Int(0) && Get(l, NonFinite) == Int(0)
    && IsMagnitude(Get(l, MaxAbs)) && IsMagnitude(Get(l, MaxRms))
    && Get(l, StrictToleranceAsserted) == Bool(true)
  }

  /** A record is accepted exactly if it is one of the two kinds of evidence, and complete for that kind. */
  lemma RecordAcceptedIff(r: Json)
    ensures ValidateRecord(r).Accepted? <==>
            && r.Obj?
            && EqualsInt(Get(r, SchemaVersion), 1) && Get(r, Kind) == Constant(ParityRecordKind)
            && EqualsInt(Get(r, CheckpointSpecVersion), 1) && NamesItsSource(r)
            && IsHexString(Get(r, TokenizerSha256), 64)
            && Get(r, ReferenceRuntime) == Constant(Transformers) && IsText(Get(r, ReferenceRuntimeVersion))
            && IsHexString(Get(r, ExecutionGitCommit), 40) && Get(r, ExecutionGitDirty) == Bool(false)
            && IsText(Get(r, ExecutionBackend)) && CountsAllExact(Get(r, Semantic))
            && (|| (Get(r, ParityLevel) == Constant(GenerationTrajectory) && Get(r, Logits) == Null)
                || (Get(r, ParityLevel) == Constant(LogitAndGeneration) && ComparesLogits(Get(r, Logits))))
            && Get(r, SourceEvidence).Obj? && IsText(Get(Get(r, SourceEvidence), Kind))
            && IsText(Get(Get(r, SourceEvidence), Artifact))
            && Get(r, PromotionAuthorized) == Bool(false) && IsText(Get(r, ClaimBoundary))
  {
    hide Get, EqualsInt, IsHexString, NonBlank, SemanticOk, CountsAllExact, NamesItsSource, CheckpointIdentityOk,
         LogitsOk, ComparesLogits;
    LogitsOkIff(Get(if r.Obj? then r else Obj(map[]), Logits));
    if r.Obj? {
      SemanticOkIff(Get(r, Semantic));
      IdentityOkIff(r);
    }
  }

  lemma LogitsOkIff(l: Json)
    ensures LogitsOk(l) <==> ComparesLogits(l)
  {
    hide Get;
  }

  lemma SemanticOkIff(s: Json)
    ensures SemanticOk(s) <==> CountsAllExact(s)
  {
  }

  lemma IdentityOkIff(r: Json)
    requires r.Obj?
    ensures CheckpointIdentityOk(r) <==>
            && EqualsInt(Get(r, CheckpointSpecVersion), 1) && NamesItsSource(r)
            && IsHexString(Get(r, TokenizerSha256), 64)
  {
    hide Get, EqualsInt, IsHexString;
  }

  lemma RecordFacts(r: Json)
    requires ValidateRecord(r).Accepted?
    ensures IsHex(Commit(r), 40)
    ensures Name(r) in BothNames()
  {
    assert Registered(Name(r)).Some?;
  }

  lemma SameCommit(records: seq<Json>, commit: string)
    requires AllAccepted(records) && records != []
    ensures Commits(records) == {commit} <==> forall i :: 0 <= i < |records| ==> Commit(records[i]) == commit
  {
    hide ValidateRecord, Commit;
    if forall i :: 0 <= i < |records| ==> Commit(records[i]) == commit {
      assert Commit(records[0]) in Commits(records);
      assert Commits(records) == {commit};
    } else {
      var i :| 0 <= i < |records| && Commit(records[i]) != commit;
      assert Commit(records[i]) in Commits(records);
    }
  }

  /** Only two checkpoints are registered, so two distinct names are both of them. */
  lemma AtMostTwoNames(records: seq<Json>)
    requires AllAccepted(records)
    ensures Names(records) <= BothNames()
    ensures |Names(records)| <= 2
    ensures |Names(records)| == 2 <==> Names(records) == BothNames()
  {
    forall n | n in Names(records)
      ensures n in BothNames()
    {
      var i :| 0 <= i < |records| && Name(records[i]) == n;
      RecordFacts(records[i]);
    }
    SubsetOfPair(Names(records));
  }

  lemma SubsetOfPair(s: set<Json>)
    requires s <= BothNames()
    ensures |s| <= 2
    ensures |s| == 2 <==> s == BothNames()
  {
    assert BothNames() == s + (BothNames() - s);
    assert |BothNames() - s| == 0 <==> BothNames() - s == {};
  }

  /** Non-empty, all valid, one commit, both checkpoints named. */
  ghost predicate Composable(records: seq<Json>) {
    && AllAccepted(records) && records != []
    && OneCommit(records)
    && Names(records) == BothNames()
  }

  ghost predicate OneCommit(records: seq<Json>)
    requires AllAccepted(records) && records != []
  {
    forall i :: 0 <= i < |records| ==> Commit(records[i]) == Commit(records[0])
  }

  /** Composing succeeds exactly when all records validate, share one commit, and name both checkpoints. */
  lemma BuildSuiteIff(records: seq<Json>)
    ensures BuildSuite(records).Ok? <==> Composable(records)
  {
    hide ValidateRecord, ValidateSuite, Names, Name, Commit, Commits, SuiteOf;
    if AllAccepted(records) && records != [] {
      SameCommit(records, Commit(records[0]));
      AtMostTwoNames(records);
      if Commits(records) == {Commit(records[0])} {
        SuiteVerdict(records);
      }
    }
  }

  lemma SuiteVerdict(records: seq<Json>)
    requires AllAccepted(records) && records != []
    requires OneCommit(records)
    ensures ValidateSuite(SuiteOf(Commit(records[0]), |Names(records)|, records)).Accepted? <==>
            Names(records) == BothNames()
  {
    hide ValidateRecord, Names, Name, Commit, SuiteOf, IsText, IsHex;
    AtMostTwoNames(records);
    RecordFacts(records[0]);
    SuiteFields(Commit(records[0]), |Names(records)|, records);
    if |records| == 1 {
      SingleName(records);
    }
  }

  lemma SuiteFields(commit: string, distinct: nat, records: seq<Json>)
    ensures var s := SuiteOf(commit, distinct, records);
            && s.Obj?
            && EqualsInt(Get(s, SchemaVersion), 1) && Get(s, Kind) == Constant(ParitySuiteKind)
            && Get(s, ExecutionGitCommit) == Str(commit)
            && Get(s, DistinctCheckpointCount) == Int(distinct)
            && Get(s, Records) == Arr(records)
            && Get(s, PromotionAuthorized) == Bool(false) && IsText(Get(s, ClaimBoundary))
  {
  }

  lemma SingleName(records: seq<Json>)
    requires AllAccepted(records) && |records| == 1
    ensures |Names(records)| == 1
  {
    hide ValidateRecord, Name;
    assert Names(records) == {Name(records[0])};
  }

  /** A composed suite is a fixed point of validation and always counts exactly two checkpoints. */
  lemma BuiltSuite(records: seq<Json>)
    requires BuildSuite(records).Ok?
    ensures ValidateSuite(BuildSuite(records).value).Accepted?
    ensures Get(BuildSuite(records).value, DistinctCheckpointCount) == Int(2)
    ensures Get(BuildSuite(records).value, Records) == Arr(records)
  {
    hide ValidateRecord, Names, Commit, SuiteOf, ValidateSuite;
    BuildSuiteIff(records);
    AtMostTwoNames(records);
    SuiteFields(Commit(records[0]), |Names(records)|, records);
  }

  // ----- The Hub summary -----

  datatype HubSummary = HubSummary(commit: string, distinctCheckpoints: int, specs: set<Json>)

  datatype HubError = Unsupported | Evidence(verdict: Verdict) | ManyCommits

  /** The records behind a document, once validated, with the checkpoint count it declares. */
  function ValidatedRecords(document: Json): Result<seq<Json>, HubError>
    requires document.Obj?
  {
    if Get(document, Kind) == Constant(ParityRecordKind) then
      var v := ValidateRecord(document);
      if v.Accepted? then Ok([document]) else Err(Evidence(v))
    else if Get(document, Kind) == Constant(ParitySuiteKind) then
      var v := ValidateSuite(document);
      if v.Accepted? then Ok(Get(document, Records).items) else Err(Evidence(v))
    else Err(Unsupported)
  }

  lemma ValidatedRecordsAccepted(document: Json)
    requires document.Obj? && ValidatedRecords(document).Ok?
    ensures AllAccepted(ValidatedRecords(document).value) && ValidatedRecords(document).value != []
  {
    hide ValidateRecord, ValidateAll, Names;
  }

  function DeclaredCount(document: Json): int
    requires document.Obj?
  {
    if Get(document, Kind) == Constant(ParityRecordKind) then 1
    else
      match Get(document, DistinctCheckpointCount)
      case Int(i) => i
      case Float(r) => r.Floor
      case Bool(b) => if b then 1 else 0
      case _ => 0
  }

  /** `_validated_summary`, up to the fields it copies. */
  function Summarize(document: Json): Result<HubSummary, HubError>
    requires document.Obj?
  {
    match ValidatedRecords(document)
    case Err(e) => Err(e)
    case Ok(records) =>
      ValidatedRecordsAccepted(document);
      var commits := Commits(records);
      if |commits| != 1 then Err(ManyCommits)
      else Ok(HubSummary(Commit(records[0]), DeclaredCount(document), Names(records)))
  }

  /** The summary's own single-commit check can never fail: validation has already forced one commit. */
  lemma SingleCommitCheckNeverFails(document: Json)
    requires document.Obj?
    ensures Summarize(document) != Err(ManyCommits)
    ensures ValidatedRecords(document).Ok? <==> Summarize(document).Ok?
  {
    if ValidatedRecords(document).Ok? {
      ValidatedRecordsAccepted(document);
      ValidatedCommits(document);
      hide ValidateRecord, Names, ValidateAll, ValidatedRecords, ValidateSuite, Commit;
      var records := ValidatedRecords(document).value;
      SameCommit(records, Commit(records[0]));
    }
  }

  lemma ValidatedCommits(document: Json)
    requires document.Obj? && ValidatedRecords(document).Ok? && AllAccepted(ValidatedRecords(document).value)
    ensures var records := ValidatedRecords(document).value;
            forall i :: 0 <= i < |records| ==> Commit(records[i]) == Commit(records[0])
  {
    hide ValidateRecord, Names, ValidateAll, Commit;
  }

  lemma SuiteRecords(document: Json)
    requires document.Obj? && Get(document, Kind) == Constant(ParitySuiteKind) && ValidatedRecords(document).Ok?
    ensures Get(document, Records).Arr? && ValidatedRecords(document).value == Get(document, Records).items
    ensures AllAccepted(Get(document, Records).items) && 2 <= |Names(Get(document, Records).items)|
    ensures EqualsInt(Get(document, DistinctCheckpointCount), |Names(Get(document, Records).items)|)
    ensures Get(document, Records).items != []
    ensures Get(document, ExecutionGitCommit) == Str(Commit(Get(document, Records).items[0]))
  {
    hide ValidateRecord, Names, Commit;
  }

  /** A suite is accepted exactly if all its records are, share its commit, and name both checkpoints. */
  lemma SuiteAcceptedIff(s: Json)
    ensures ValidateSuite(s).Accepted? <==>
            && s.Obj?
            && EqualsInt(Get(s, SchemaVersion), 1) && Get(s, Kind) == Constant(ParitySuiteKind)
            && IsHexString(Get(s, ExecutionGitCommit), 40) && Get(s, Records).Arr?
            && AllAccepted(Get(s, Records).items)
            && (forall i :: 0 <= i < |Get(s, Records).items| ==>
                  Str(Commit(Get(s, Records).items[i])) == Get(s, ExecutionGitCommit))
            && Names(Get(s, Records).items) == BothNames() && EqualsInt(Get(s, DistinctCheckpointCount), 2)
            && Get(s, PromotionAuthorized) == Bool(false) && IsText(Get(s, ClaimBoundary))
  {
    hide ValidateRecord, Names, Name, Commit, Get, EqualsInt, IsText, BothNames;
    if s.Obj? && Get(s, Records).Arr? && AllAccepted(Get(s, Records).items) {
      AtMostTwoNames(Get(s, Records).items);
      EnoughRecords(Get(s, Records).items);
      forall i | 0 <= i < |Get(s, Records).items| && IsHexString(Get(s, ExecutionGitCommit), 40)
        ensures Str(Commit(Get(s, Records).items[i])) == Get(s, ExecutionGitCommit) <==>
                Commit(Get(s, Records).items[i]) == Get(s, ExecutionGitCommit).s
      {
      }
    }
  }

  lemma EnoughRecords(records: seq<Json>)
    requires AllAccepted(records)
    ensures Names(records) == BothNames() ==> |records| >= 2
  {
    hide ValidateRecord, Name;
    if |records| == 1 {
      assert Names(records) == {Name(records[0])};
      assert Constant(SmolLm2) in BothNames() && Constant(TinyLlama) in BothNames();
    } else if |records| == 0 {
      assert Constant(SmolLm2) in BothNames() && Names(records) == {};
    }
  }

  /** For a suite, the summary reports both checkpoints and the declared count is two. */
  lemma SuiteSummary(document: Json)
    requires document.Obj? && Get(document, Kind) == Constant(ParitySuiteKind) && Summarize(document).Ok?
    ensures Summarize(document).value.specs == BothNames()
    ensures Summarize(document).value.distinctCheckpoints == 2
    ensures Get(document, ExecutionGitCommit) == Str(Summarize(document).value.commit)
  {
    hide ValidateRecord, Names, Commit, ValidateSuite, ValidateAll, ValidatedRecords, Get;
    SuiteRecords(document);
    AtMostTwoNames(Get(document, Records).items);
  }

  // ----- Building a record -----

  datatype RecordInputs = RecordInputs(specName: Json, repo: Json, revision: Json, modelSha256: Json,
                                       tokenizerSha256: Json, runtime: Json, runtimeVersion: Json,
                                       commit: Json, backend: Json, caseCount: int, observations: int,
                                       exact: int, evidenceKind: Json, artifact: Json)

  function SemanticOf(a: RecordInputs): Json {
    Obj(map[CaseCount := Int(a.caseCount), Observations := Int(a.observations), ExactGreedyObservations := Int(a.exact),
            ExactGreedyAll := Bool(a.observations > 0 && a.exact == a.observations)])
  }

  /** The record of a generation trajectory, before its validation. */
  function RecordOf(a: RecordInputs): Json {
    Obj(map[SchemaVersion := Int(1), Kind := Constant(ParityRecordKind), CheckpointSpecName := a.specName,
            CheckpointSpecVersion := Int(1), SourceRepo := a.repo, SourceRevision := a.revision,
            SourceModelSha256 := a.modelSha256, TokenizerSha256 := a.tokenizerSha256,
            ReferenceRuntime := a.runtime, ReferenceRuntimeVersion := a.runtimeVersion,
            ExecutionGitCommit := a.commit, ExecutionGitDirty := Bool(false),
            ExecutionBackend := a.backend, ParityLevel := Constant(GenerationTrajectory),
            Semantic := SemanticOf(a),
            Logits := Null,
            SourceEvidence := Obj(map[Kind := a.evidenceKind, Artifact := a.artifact]),
            PromotionAuthorized := Bool(false), ClaimBoundary := Constant(RecordClaim)])
  }

  /** `build_record` for a generation trajectory: the record, or its rejection. */
  function BuildRecord(a: RecordInputs): Result<Json, Verdict> {
    var r := RecordOf(a);
    var v := ValidateRecord(r);
    if v.Accepted? then Ok(r) else Err(v)
  }

  /** A registered identity, well-formed digests, and complete exact counts. */
  predicate Buildable(a: RecordInputs) {
    && Registered(a.specName) == Some(Checkpoint(a.repo, a.revision, a.modelSha256))
    && IsHexString(a.tokenizerSha256, 64) && a.runtime == Constant(Transformers) && IsText(a.runtimeVersion)
    && IsHexString(a.commit, 40) && IsText(a.backend)
    && 1 <= a.caseCount <= a.observations == a.exact
    && IsText(a.evidenceKind) && IsText(a.artifact)
  }

  /** What a built record answers to the lookups of its validation. */
  lemma HeadLookups(a: RecordInputs)
    ensures var r := RecordOf(a);
            && r.Obj?
            && Get(r, SchemaVersion) == Int(1) && Get(r, Kind) == Constant(ParityRecordKind)
            && Get(r, CheckpointSpecVersion) == Int(1)
  {
    hide SemanticOf;
  }

  lemma IdentityLookups(a: RecordInputs)
    ensures var r := RecordOf(a);
            && Get(r, CheckpointSpecName) == a.specName
            && Get(r, SourceRepo) == a.repo && Get(r, SourceRevision) == a.revision
  {
    hide SemanticOf;
  }

  lemma ExecutionLookups(a: RecordInputs)
    ensures var r := RecordOf(a);
            && Get(r, SourceModelSha256) == a.modelSha256 && Get(r, TokenizerSha256) == a.tokenizerSha256
            && Get(r, ReferenceRuntime) == a.runtime && Get(r, ReferenceRuntimeVersion) == a.runtimeVersion
            && Get(r, ExecutionGitCommit) == a.commit && Get(r, ExecutionGitDirty) == Bool(false)
  {
    hide SemanticOf;
  }

  lemma TailLookups(a: RecordInputs)
    ensures var r := RecordOf(a);
            && Get(r, ExecutionBackend) == a.backend && Get(r, ParityLevel) == Constant(GenerationTrajectory)
            && Get(r, Semantic) == SemanticOf(a) && Get(r, Logits) == Null
            && Get(r, SourceEvidence) == Obj(map[Kind := a.evidenceKind, Artifact := a.artifact])
            && Get(r, PromotionAuthorized) == Bool(false) && Get(r, ClaimBoundary) == Constant(RecordClaim)
  {
    hide SemanticOf;
  }

  lemma RecordLookups(a: RecordInputs)
    ensures RecordOf(a).Obj?
    ensures RecordHeadOk(RecordOf(a)) <==>
            && IsText(a.specName) && Registered(a.specName) == Some(Checkpoint(a.repo, a.revision, a.modelSha256))
            && IsHexString(a.tokenizerSha256, 64) && a.runtime == Constant(Transformers) && IsText(a.runtimeVersion)
            && IsHexString(a.commit, 40) && IsText(a.backend)
    ensures RecordTailOk(RecordOf(a)) <==>
            && SemanticOk(SemanticOf(a)) && IsText(a.evidenceKind) && IsText(a.artifact)
  {
    hide RecordOf, Get, Registered, IsHexString, IsText, SemanticOk, SemanticOf;
    HeadLookups(a);
    IdentityLookups(a);
    ExecutionLookups(a);
    TailLookups(a);
    EvidenceLookups(a.evidenceKind, a.artifact);
    ConstantIsText(RecordClaim);
  }

  lemma ConstantIsText(t: Tag)
    ensures IsText(Constant(t))
  {
  }

  lemma SemanticIff(a: RecordInputs)
    ensures SemanticOk(SemanticOf(a)) <==> 1 <= a.caseCount <= a.observations == a.exact
  {
  }

  /** `build_record` succeeds exactly on buildable inputs. */
  lemma BuildRecordIff(a: RecordInputs)
    ensures BuildRecord(a).Ok? <==> Buildable(a)
  {
    hide RecordOf, RecordHeadOk, RecordTailOk, IsHexString, SemanticOk, SemanticOf;
    RecordLookups(a);
    TailLookups(a);
    SemanticIff(a);
  }

  lemma EvidenceLookups(kind: Json, artifact: Json)
    ensures Get(Obj(map[Kind := kind, Artifact := artifact]), Kind) == kind
    ensures Get(Obj(map[Kind := kind, Artifact := artifact]), Artifact) == artifact
  {
  }

  /** The Hub summary accepts every record that can be built. */
  lemma BuiltRecordSummary(a: RecordInputs)
    requires Buildable(a)
    ensures a.commit.Str? && RecordOf(a).Obj? && Summarize(RecordOf(a)) == Ok(HubSummary(a.commit.s, 1, {a.specName}))
  {
    hide ValidateRecord, Names, ValidateSuite, RecordOf, Commit, Name;
    var r := RecordOf(a);
    BuildRecordIff(a);
    RecordFields(a);
    SingleCommitCheckNeverFails(r);
    SingletonName(r);
  }

  lemma RecordFields(a: RecordInputs)
    ensures RecordOf(a).Obj? && Get(RecordOf(a), Kind) == Constant(ParityRecordKind)
    ensures ValidateRecord(RecordOf(a)).Accepted? ==>
              Name(RecordOf(a)) == a.specName && Str(Commit(RecordOf(a))) == a.commit
  {
    hide RecordOf, RecordTailOk;
    HeadLookups(a);
    IdentityLookups(a);
    ExecutionLookups(a);
  }

  lemma SingletonName(r: Json)
    requires AllAccepted([r])
    ensures ValidateRecord(r).Accepted? && Names([r]) == {Name(r)}
  {
    hide ValidateRecord, Name;
    assert [r][0] == r;
  }
}
