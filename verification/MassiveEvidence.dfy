/**
 From producer to validator: what the massive harness reports, as the launcher's validators read it.
 Fields that no validator looks at are left out of the documents.
 */
module MassiveEvidence {
  import opened CampaignValidation
  import opened CaseObservations
  import opened Json
  import opened MassiveCampaign
  import opened MassiveHarness
  import opened Wrappers
  import Suite = ReferenceSuite

  /** The identity of the suite and the collected metadata, as they are serialized. */
  datatype Header = Header(repo: Json, revision: Json, modelSha256: Json, metadata: Json)

  function IdsJson(ids: seq<nat>): (r: seq<Json>)
    ensures |r| == |ids|
  {
    seq(|ids|, i requires 0 <= i < |ids| => Int(ids[i]))
  }

  function CaseJson(c: CaseMeasurement): Json {
    Obj(map[SuccessKey := Bool(c.success), ExactOracleGreedy := Bool(c.exact),
            GeneratedIds := Arr(IdsJson(c.generatedIds)), DecodeSteps := Int(c.decodeSteps)])
  }

  function BlockJson(b: BlockReport): Json {
    Obj(map[SuccessKey := Bool(b.success),
            CasesKey := Arr(seq(|b.cases|, i requires 0 <= i < |b.cases| => CaseJson(b.cases[i])))])
  }

  function PairedMs(pair: Option<Pair>, ofReference: bool): Json {
    match pair
    case None => Null
    case Some(p) => Float(if ofReference then p.reference else p.candidate)
  }

  function Improvement(pair: Option<Pair>): Json {
    match pair
    case None => Null
    case Some(p) => Float(p.improvement)
  }

  function EvidenceJson(e: PairedEvidence): Json {
    Obj(map[CaseName := Str(e.caseName), CandidateKey := Constant(PlanTag(e.candidate)),
            CompleteKey := Bool(e.complete),
            GpuReferenceMs := PairedMs(e.gpu, true), GpuCandidateMs := PairedMs(e.gpu, false),
            GpuImprovement := Improvement(e.gpu), WallImprovement := Improvement(e.wall),
            RequestImprovement := Improvement(e.request)])
  }

  function RoundJson(r: RoundReport): Json {
    Obj(map[BlocksKey := Arr(seq(|r.blocks|, i requires 0 <= i < |r.blocks| => BlockJson(r.blocks[i]))),
            CaseEvidence := Arr(seq(|r.evidence|, i requires 0 <= i < |r.evidence| => EvidenceJson(r.evidence[i])))])
  }

  function PlanTag(p: Plan): Tag {
    match p
    case Reference => ReferencePlan
    case Transposed => TransposedPlan
    case Fused => FusedPlan
    case FusedMlp => FusedMlpPlan
    case Staged => StagedPlan
    case FusedMlpStaged => FusedMlpStagedPlan
  }

  function CandidateJson(r: CandidateReport): Json {
    Obj(map[CandidateKey := Constant(PlanTag(r.candidate)),
            RoundsKey := Arr(seq(|r.rounds|, i requires 0 <= i < |r.rounds| => RoundJson(r.rounds[i])))])
  }

  function ReportJson(r: Report, h: Header): Json {
    Obj(map[SchemaVersion := Int(1), Benchmark := Constant(MassiveBenchmark),
            SourceRepo := h.repo, SourceRevision := h.revision, SourceModelSha256 := h.modelSha256,
            CaseCount := Int(r.caseCount), RoundsPerCandidate := Int(r.roundsPerCandidate),
            Candidates := Arr(seq(|r.candidates|,
                i requires 0 <= i < |r.candidates| => Constant(PlanTag(r.candidates[i])))),
            Metadata := h.metadata,
            CandidateReports := Arr(seq(|r.reports|, i requires 0 <= i < |r.reports| => CandidateJson(r.reports[i]))),
            CampaignComplete := Bool(r.complete)])
  }

  /** Under which name the candidate of a report appears. */
  lemma CandidateSays(r: CandidateReport)
    ensures CandidateJson(r).Obj?
    ensures Get(CandidateJson(r), CandidateKey) ==
            match r.candidate
            case Fused => Constant(FusedPlan)
            case FusedMlp => Constant(FusedMlpPlan)
            case Staged => Constant(StagedPlan)
            case FusedMlpStaged => Constant(FusedMlpStagedPlan)
            case Transposed => Constant(TransposedPlan)
            case Reference => Constant(ReferencePlan)
  {
  }

  // ----- What the validators find in these documents -----

  lemma CaseDocument(c: CaseMeasurement, shape: Shape)
    ensures WellShaped(CaseJson(c), 0, shape)
    ensures CaseJson(c).Obj? && (ExactCase(CaseJson(c)) <==> c.success && c.exact && |c.generatedIds| == c.decodeSteps)
  {
  }

  lemma BlockLookups(b: BlockReport)
    ensures BlockJson(b).Obj? && Get(BlockJson(b), CasesKey).Arr?
    ensures var items := Get(BlockJson(b), CasesKey).items;
            |items| == |b.cases| && forall i :: 0 <= i < |items| ==> items[i] == CaseJson(b.cases[i])
  {
    hide CaseJson;
  }

  lemma BlockDocument(b: BlockReport, shape: Shape)
    requires |b.cases| == shape.cases
    ensures WellShaped(BlockJson(b), 1, shape)
    ensures AllExact(BlockJson(b), 1, shape) <==> forall i :: 0 <= i < |b.cases| ==> ExactMeasurement(b.cases[i])
  {
    hide BlockJson, CaseJson, ExactCase;
    BlockLookups(b);
    forall i | 0 <= i < |b.cases|
      ensures WellShaped(CaseJson(b.cases[i]), 0, shape)
      ensures AllExact(CaseJson(b.cases[i]), 0, shape) <==> ExactMeasurement(b.cases[i])
    {
      CaseDocument(b.cases[i], shape);
    }
  }

  predicate ExactMeasurement(c: CaseMeasurement) {
    c.success && c.exact && |c.generatedIds| == c.decodeSteps
  }

  predicate ExactBlock(b: BlockReport) {
    forall i :: 0 <= i < |b.cases| ==> ExactMeasurement(b.cases[i])
  }

  predicate ExactRound(r: RoundReport) {
    forall s :: 0 <= s < |r.blocks| ==> ExactBlock(r.blocks[s])
  }

  predicate ExactCandidate(r: CandidateReport) {
    forall n :: 0 <= n < |r.rounds| ==> ExactRound(r.rounds[n])
  }

  /** The dimensions that a report of this campaign declares. */
  function CampaignShape(k: Campaign): Shape {
    Shape(|k.cases|, k.rounds, |k.candidates|)
  }

  lemma RoundLookups(r: RoundReport)
    ensures RoundJson(r).Obj? && Get(RoundJson(r), BlocksKey).Arr? && Get(RoundJson(r), CaseEvidence).Arr?
    ensures var items := Get(RoundJson(r), BlocksKey).items;
            |items| == |r.blocks| && forall i :: 0 <= i < |items| ==> items[i] == BlockJson(r.blocks[i])
    ensures var items := Get(RoundJson(r), CaseEvidence).items;
            |items| == |r.evidence| && forall i :: 0 <= i < |items| ==> items[i] == EvidenceJson(r.evidence[i])
  {
    hide BlockJson, EvidenceJson;
  }

  /** The shape of a round as the harness reports it. */
  predicate RoundCovers(r: RoundReport, shape: Shape) {
    && |r.blocks| == 4 && |r.evidence| == shape.cases
    && forall s :: 0 <= s < |r.blocks| ==> |r.blocks[s].cases| == shape.cases
  }

  lemma RoundDocument(r: RoundReport, shape: Shape)
    requires RoundCovers(r, shape)
    ensures WellShaped(RoundJson(r), 2, shape)
    ensures AllExact(RoundJson(r), 2, shape) <==> ExactRound(r)
    ensures RoundEvidenceOk(RoundJson(r), shape.cases) <==> forall i :: 0 <= i < |r.evidence| ==> r.evidence[i].complete
  {
    hide RoundJson, BlockJson, EvidenceJson, ExactBlock;
    RoundLookups(r);
    forall s | 0 <= s < |r.blocks|
      ensures WellShaped(BlockJson(r.blocks[s]), 1, shape)
      ensures AllExact(BlockJson(r.blocks[s]), 1, shape) <==> ExactBlock(r.blocks[s])
    {
      BlockVerdict(r.blocks[s], shape);
    }
    forall i | 0 <= i < |r.evidence|
      ensures CompleteEvidence(EvidenceJson(r.evidence[i])) <==> r.evidence[i].complete
    {
      EvidenceDocument(r.evidence[i]);
    }
  }

  lemma BlockVerdict(b: BlockReport, shape: Shape)
    requires |b.cases| == shape.cases
    ensures WellShaped(BlockJson(b), 1, shape)
    ensures AllExact(BlockJson(b), 1, shape) <==> ExactBlock(b)
  {
    hide BlockJson, WellShaped, AllExact;
    BlockDocument(b, shape);
  }

  lemma EvidenceDocument(e: PairedEvidence)
    ensures CompleteEvidence(EvidenceJson(e)) <==> e.complete
  {
  }

  lemma CandidateLookups(r: CandidateReport)
    ensures CandidateJson(r).Obj? && Get(CandidateJson(r), RoundsKey).Arr?
    ensures var items := Get(CandidateJson(r), RoundsKey).items;
            |items| == |r.rounds| && forall i :: 0 <= i < |items| ==> items[i] == RoundJson(r.rounds[i])
  {
    hide RoundJson;
  }

  predicate CandidateCovers(r: CandidateReport, shape: Shape) {
    |r.rounds| == shape.rounds && forall n :: 0 <= n < |r.rounds| ==> RoundCovers(r.rounds[n], shape)
  }

  predicate EvidenceComplete(r: CandidateReport) {
    forall n, i :: 0 <= n < |r.rounds| && 0 <= i < |r.rounds[n].evidence| ==> r.rounds[n].evidence[i].complete
  }

  lemma CandidateDocument(r: CandidateReport, shape: Shape)
    requires CandidateCovers(r, shape)
    ensures WellShaped(CandidateJson(r), 3, shape)
    ensures AllExact(CandidateJson(r), 3, shape) <==> ExactCandidate(r)
    ensures CandidateEvidenceOk(CandidateJson(r), shape) <==> EvidenceComplete(r)
  {
    hide CandidateJson, RoundJson, RoundCovers, RoundEvidenceOk, ExactRound;
    CandidateLookups(r);
    forall n | 0 <= n < |r.rounds|
      ensures WellShaped(RoundJson(r.rounds[n]), 2, shape)
      ensures AllExact(RoundJson(r.rounds[n]), 2, shape) <==> ExactRound(r.rounds[n])
      ensures RoundEvidenceOk(RoundJson(r.rounds[n]), shape.cases) <==>
              forall i :: 0 <= i < |r.rounds[n].evidence| ==> r.rounds[n].evidence[i].complete
    {
      RoundDocument(r.rounds[n], shape);
    }
  }

  lemma ReportLookups(r: Report, h: Header)
    ensures ReportJson(r, h).Obj?
    ensures Get(ReportJson(r, h), CaseCount) == Int(r.caseCount)
    ensures Get(ReportJson(r, h), RoundsPerCandidate) == Int(r.roundsPerCandidate)
    ensures Get(ReportJson(r, h), CampaignComplete) == Bool(r.complete)
    ensures Get(ReportJson(r, h), Candidates).Arr? && |Get(ReportJson(r, h), Candidates).items| == |r.candidates|
    ensures Get(ReportJson(r, h), CandidateReports).Arr?
    ensures var items := Get(ReportJson(r, h), CandidateReports).items;
            |items| == |r.reports| && forall i :: 0 <= i < |items| ==> items[i] == CandidateJson(r.reports[i])
  {
    hide CandidateJson, PlanTag;
  }

  lemma IdentityLookups(r: Report, h: Header)
    ensures ReportJson(r, h).Obj?
    ensures Get(ReportJson(r, h), SchemaVersion) == Int(1) &&
              Get(ReportJson(r, h), Benchmark) == Constant(MassiveBenchmark)
    ensures Get(ReportJson(r, h), SourceRepo) == h.repo && Get(ReportJson(r, h), SourceRevision) == h.revision
    ensures Get(ReportJson(r, h), SourceModelSha256) == h.modelSha256 && Get(ReportJson(r, h), Metadata) == h.metadata
  {
    hide CandidateJson, PlanTag;
  }

  /** What argument parsing and suite validation guarantee: candidates, rounds, and valid cases. */
  predicate Runnable(k: Campaign) {
    && k.candidates != [] && k.rounds > 0 && k.cases != []
    && forall i :: 0 <= i < |k.cases| ==>
        k.cases[i].decodeSteps >= 2 && |k.cases[i].greedyIds| == k.cases[i].decodeSteps
  }

  /** Suite validation is what makes a campaign runnable. */
  lemma ValidSuiteIsRunnable(k: Campaign, vocab: nat, maxPositions: nat)
    requires k.candidates != [] && k.rounds > 0 && k.cases != []
    requires forall i :: 0 <= i < |k.cases| ==> Suite.ValidCase(k.cases[i], vocab, maxPositions)
    ensures Runnable(k) && Decodes(k.cases)
  {
  }

  lemma CandidateIsCovering(r: CandidateReport, devices: Devices, c: nat, k: Campaign)
    requires Decodes(k.cases) && c < |k.candidates| && CandidateOf(r, devices, c, k)
    ensures CandidateCovers(r, CampaignShape(k))
  {
    hide BlockOf;
    forall n, s | 0 <= n < |r.rounds| && 0 <= s < 4
      ensures |r.rounds[n].blocks| == 4 && |r.rounds[n].blocks[s].cases| == |k.cases|
    {
      assert RoundOf(r.rounds[n], devices, c, n, k);
      BlockLength(r.rounds[n].blocks[s], devices(c, n, s), PlanAt(s, k.candidates[c]), SLOTS[s], n % 2 == 1, k);
    }
  }

  lemma BlockLength(b: BlockReport, d: Device, plan: Plan, slot: Slot, reverse: bool, k: Campaign)
    requires Decodes(k.cases) && BlockOf(b, d, plan, slot, reverse, k)
    ensures |b.cases| == |k.cases|
  {
  }

  lemma ReportDimensions(r: Report, devices: Devices, k: Campaign, h: Header)
    requires Runnable(k) && Decodes(k.cases) && ReportOf(r, devices, k)
    ensures ReportJson(r, h).Obj? && DimensionsOk(ReportJson(r, h)) && ShapeOf(ReportJson(r, h)) == CampaignShape(k)
  {
    hide ReportJson, CandidateJson, CandidateOf, Decodes;
    ReportLookups(r, h);
  }

  /** What the checks of a whole report ask of its candidates. */
  lemma TopLevel(j: Json, shape: Shape)
    requires j.Obj? && Get(j, CandidateReports).Arr? && |Get(j, CandidateReports).items| == shape.candidates
    requires forall c :: 0 <= c < shape.candidates ==> WellShaped(Get(j, CandidateReports).items[c], 3, shape)
    ensures WellShaped(j, 4, shape)
    ensures AllExact(j, 4, shape) <==>
            forall c :: 0 <= c < shape.candidates ==> AllExact(Get(j, CandidateReports).items[c], 3, shape)
  {
    assert ChildrenKey(4) == CandidateReports && shape.Width(4) == shape.candidates;
  }

  lemma CandidateOfReport(r: CandidateReport, devices: Devices, c: nat, k: Campaign)
    requires Decodes(k.cases) && c < |k.candidates| && CandidateOf(r, devices, c, k)
    ensures WellShaped(CandidateJson(r), 3, CampaignShape(k))
    ensures AllExact(CandidateJson(r), 3, CampaignShape(k)) <==> ExactCandidate(r)
    ensures CandidateEvidenceOk(CandidateJson(r), CampaignShape(k)) <==> EvidenceComplete(r)
  {
    hide CandidateJson, CandidateOf, CandidateCovers, CandidateEvidenceOk, EvidenceComplete, ExactCandidate, Decodes,
         WellShaped, AllExact;
    CandidateIsCovering(r, devices, c, k);
    CandidateDocument(r, CampaignShape(k));
  }

  /**
   Every report of the harness passes the shape checks, whatever failed: each candidate, round,
   block and case of the campaign is in it exactly once.
   */
  lemma ReportDocument(r: Report, devices: Devices, k: Campaign, h: Header)
    requires Runnable(k) && Decodes(k.cases) && ReportOf(r, devices, k)
    ensures var j := ReportJson(r, h);
            j.Obj? && DimensionsOk(j) && ShapeOf(j) == CampaignShape(k) && WellShaped(j, 4, CampaignShape(k))
    ensures var j := ReportJson(r, h);
            && (AllExact(j, 4, CampaignShape(k)) <==> forall c :: 0 <= c < |r.reports| ==> ExactCandidate(r.reports[c]))
            && (AllEvidenceOk(j, CampaignShape(k)) <==>
                forall c :: 0 <= c < |r.reports| ==> EvidenceComplete(r.reports[c]))
  {
    hide ReportJson, CandidateJson, CandidateOf, CandidateEvidenceOk, EvidenceComplete, ExactCandidate, Decodes,
         DimensionsOk, ShapeOf, Runnable, WellShaped, AllExact;
    ReportLookups(r, h);
    ReportDimensions(r, devices, k, h);
    forall c | 0 <= c < |r.reports|
      ensures WellShaped(CandidateJson(r.reports[c]), 3, CampaignShape(k))
      ensures AllExact(CandidateJson(r.reports[c]), 3, CampaignShape(k)) <==> ExactCandidate(r.reports[c])
      ensures CandidateEvidenceOk(CandidateJson(r.reports[c]), CampaignShape(k)) <==> EvidenceComplete(r.reports[c])
    {
      CandidateOfReport(r.reports[c], devices, c, k);
    }
    TopLevel(ReportJson(r, h), CampaignShape(k));
  }

  /** So the semantic count always succeeds, and observes exactly what the dimensions promise. */
  lemma EveryReportIsCounted(r: Report, devices: Devices, k: Campaign, h: Header)
    requires Runnable(k) && Decodes(k.cases) && ReportOf(r, devices, k)
    ensures CollectedSemantic([ReportJson(r, h)]).Ok?
    ensures var s := CollectedSemantic([ReportJson(r, h)]).value;
            s.observations == s.expected == |k.candidates| * k.rounds * 4 * |k.cases|
  {
    hide ReportJson, WellShaped, AllExact, AllEvidenceOk;
    var j := ReportJson(r, h);
    ReportDocument(r, devices, k, h);
    SingleReport(j);
    CountMeaning(j, 4, CampaignShape(k));
    FullVolume(CampaignShape(k));
    assert CampaignCounts([j], 0) == Ok((0, Counts(0, 0, 0)));
    assert CampaignCounts([j], 1) == ReportCounts(j);
  }

  // ----- Exactness is success -----

  lemma OutcomeExactness(r: CaseMeasurement, c: ReferenceCase, attempts: nat -> Attempt, k: Campaign)
    requires Outcome(r, c, attempts, k) && |c.greedyIds| == c.decodeSteps
    ensures ExactMeasurement(r) <==> r.success
  {
    hide Measurable;
  }

  lemma BlockExactness(b: BlockReport, d: Device, plan: Plan, slot: Slot, reverse: bool, k: Campaign)
    requires Runnable(k) && Decodes(k.cases) && BlockOf(b, d, plan, slot, reverse, k)
    ensures ExactBlock(b) <==> b.success
  {
    hide Outcome, Starts, ExactMeasurement;
    forall i | 0 <= i < |b.cases|
      ensures ExactMeasurement(b.cases[i]) <==> b.cases[i].success
      ensures !Starts(d, plan, k.cases) ==> !b.cases[i].success
    {
      if Starts(d, plan, k.cases) {
        var j := Place(|k.cases|, reverse, i);
        OutcomeExactness(b.cases[i], k.cases[j], d.sessions(j), k);
      } else {
        FailedExactness(k.cases[i]);
      }
    }
    if !Starts(d, plan, k.cases) {
      assert !b.cases[0].success;
    }
  }

  lemma FailedExactness(c: ReferenceCase)
    ensures !ExactMeasurement(FailedCase(c)) && !FailedCase(c).success
  {
  }

  lemma RoundExactness(r: RoundReport, devices: Devices, c: nat, n: nat, k: Campaign)
    requires Runnable(k) && Decodes(k.cases) && c < |k.candidates| && RoundOf(r, devices, c, n, k)
    ensures ExactRound(r) <==> AllBlocksSucceed(devices, c, n, k)
  {
    hide BlockOf, ExactBlock, AllBlocksSucceed;
    BlocksSucceedIff(r, devices, c, n, k);
    forall s | 0 <= s < |r.blocks|
      ensures ExactBlock(r.blocks[s]) <==> r.blocks[s].success
    {
      BlockExactness(r.blocks[s], devices(c, n, s), PlanAt(s, k.candidates[c]), SLOTS[s], n % 2 == 1, k);
    }
  }

  /**
   The validator's `all_exact_oracle_greedy` holds exactly when every block of the campaign
   started and every case reproduced its oracle on it.
   */
  lemma AllExactIffBlocksSucceed(r: Report, devices: Devices, k: Campaign, h: Header)
    requires Runnable(k) && Decodes(k.cases) && ReportOf(r, devices, k)
    ensures CollectedSemantic([ReportJson(r, h)]).Ok?
    ensures CollectedSemantic([ReportJson(r, h)]).value.allExact <==>
            forall c: nat, n: nat :: c < |k.candidates| && n < k.rounds ==> AllBlocksSucceed(devices, c, n, k)
  {
    hide ReportJson, WellShaped, AllExact, AllEvidenceOk, AllBlocksSucceed, RoundOf, ExactRound;
    ReportDocument(r, devices, k, h);
    SingleReport(ReportJson(r, h));
    forall c: nat, n: nat | c < |k.candidates| && n < k.rounds
      ensures ExactRound(r.reports[c].rounds[n]) <==> AllBlocksSucceed(devices, c, n, k)
    {
      RoundExactness(r.reports[c].rounds[n], devices, c, n, k);
    }
  }

  // ----- Acceptance -----

  /** The pinned source, clean metadata at the launcher's commit, and the run context it asked for. */
  predicate HeaderOk(h: Header, head: string, expected: Option<Json>) {
    && h.repo == Constant(TinyLlamaRepo) && h.revision == Constant(TinyLlamaRevision)
    && h.modelSha256 == Constant(TinyLlamaSha256)
    && MetadataOk(h.metadata, head)
    && (expected.Some? ==> Get(Get(h.metadata, EnvironmentFingerprint), RunContextId) == expected.value)
  }

  lemma ReportIdentity(r: Report, devices: Devices, k: Campaign, h: Header, head: string, expected: Option<Json>)
    requires Runnable(k) && Decodes(k.cases) && ReportOf(r, devices, k)
    ensures ValidateCampaign(ReportJson(r, h), head, expected).Ok? <==> HeaderOk(h, head, expected)
  {
    hide ReportJson, CandidateOf, CandidateComplete, IsText, Get;
    IdentityLookups(r, h);
    ReportLookups(r, h);
  }

  /** A complete campaign is exact everywhere and its evidence is complete. */
  lemma CompleteIsExact(r: Report, devices: Devices, k: Campaign, c: nat)
    requires Runnable(k) && Decodes(k.cases) && ReportOf(r, devices, k) && r.complete && c < |r.reports|
    ensures ExactCandidate(r.reports[c]) && EvidenceComplete(r.reports[c])
  {
    hide RoundOf, ExactRound;
    assert CandidateComplete(r.reports[c]);
    forall n | 0 <= n < |r.reports[c].rounds|
      ensures ExactRound(r.reports[c].rounds[n])
    {
      hide AllBlocksSucceed;
      assert RoundComplete(r.reports[c].rounds[n]);
      BlocksSucceedIff(r.reports[c].rounds[n], devices, c, n, k);
      RoundExactness(r.reports[c].rounds[n], devices, c, n, k);
    }
  }

  /**
   The harness's own `campaign_complete` is all that version 2 adds to the identity checks on the
   reports it emits: such a report is accepted exactly when it says that it is complete.
   */
  lemma AcceptedIffComplete(r: Report, devices: Devices, k: Campaign, h: Header, head: string, expected: Option<Json>)
    requires Runnable(k) && Decodes(k.cases) && ReportOf(r, devices, k)
    ensures ValidateCompleteCampaign(ReportJson(r, h), head, expected).Ok? <==>
              HeaderOk(h, head, expected) && r.complete
    ensures r.complete ==>
              CollectedSemantic([ReportJson(r, h)]).Ok? && CollectedSemantic([ReportJson(r, h)]).value.allExact
  {
    hide ReportJson, WellShaped, AllExact, AllEvidenceOk, CollectedSemantic, ReportOf, HeaderOk, ValidateCampaign,
         ExactCandidate, EvidenceComplete, ValidateCompleteCampaign;
    var j := ReportJson(r, h);
    ReportIdentity(r, devices, k, h, head, expected);
    ReportDocument(r, devices, k, h);
    ReportLookups(r, h);
    CompleteCampaignMeaning(j, head, expected);
    SingleReport(j);
    if r.complete {
      forall c | 0 <= c < |r.reports|
        ensures ExactCandidate(r.reports[c]) && EvidenceComplete(r.reports[c])
      {
        CompleteIsExact(r, devices, k, c);
      }
    }
  }

  // ----- The descriptive summaries -----

  lemma EvidenceNames(e: PairedEvidence, candidate: Json)
    requires Hashable(candidate)
    ensures var o := Observe(candidate, EvidenceJson(e));
            && o.Some? && o.value.candidate == candidate && o.value.caseName == Str(e.caseName)
            && (e.gpu.Some? ==> o.value.gpu == Some(e.gpu.value.improvement)) && (e.gpu.None? ==> o.value.gpu == None)
            && (e.wall.Some? ==> o.value.wall == Some(e.wall.value.improvement)) && (e.wall.None? ==>
                o.value.wall == None)
            && (e.request.Some? ==> o.value.request == Some(e.request.value.improvement))
            && (e.request.None? ==> o.value.request == None)
  {
  }

  /** What the document of a piece of evidence says under which key. */
  lemma EvidenceSays(e: PairedEvidence)
    ensures var j := EvidenceJson(e);
            && j.Obj? && Get(j, CaseName) == Str(e.caseName) && Get(j, CompleteKey) == Bool(e.complete)
            && (e.gpu.Some? ==>
                  && Get(j, GpuReferenceMs) == Float(e.gpu.value.reference)
                  && Get(j, GpuCandidateMs) == Float(e.gpu.value.candidate)
                  && Get(j, GpuImprovement) == Float(e.gpu.value.improvement))
            && (e.gpu.None? ==>
                  Get(j, GpuReferenceMs) == Get(j, GpuCandidateMs) == Get(j, GpuImprovement) == Null)
            && Get(j, WallImprovement) == (if e.wall.Some? then Float(e.wall.value.improvement) else Null)
            && Get(j, RequestImprovement) == (if e.request.Some? then Float(e.request.value.improvement) else Null)
  {
  }

  lemma RoundHasEvidence(r: RoundReport)
    ensures RoundJson(r).Obj? && CaseEvidence in RoundJson(r).fields
  {
  }

  /** The improvement of the inner two of four times over the outer two. */
  predicate ImprovesBy(x: Json, q: Four) {
    x.Float? && x.r * (q.a1 + q.a2) == (q.a1 + q.a2) - (q.b1 + q.b2)
  }

  /** Evidence under a name with these GPU, wall and request medians. */
  predicate SaysMedians(j: Json, name: string, gpu: Four, wall: Four, request: Four) {
    && j.Obj? && Get(j, CaseName) == Str(name) && Get(j, CompleteKey) == Bool(true)
    && Get(j, GpuReferenceMs) == Float((gpu.a1 + gpu.a2) / 2.0)
    && Get(j, GpuCandidateMs) == Float((gpu.b1 + gpu.b2) / 2.0)
    && ImprovesBy(Get(j, GpuImprovement), gpu)
    && ImprovesBy(Get(j, WallImprovement), wall) && ImprovesBy(Get(j, RequestImprovement), request)
  }

  lemma CompleteEvidenceSays(e: PairedEvidence, gpu: Four, wall: Four, request: Four)
    requires e.complete && e.gpu.Some? && e.wall.Some? && e.request.Some?
    requires PairsMedians(e.gpu, gpu) && PairsMedians(e.wall, wall) && PairsMedians(e.request, request)
    ensures SaysMedians(EvidenceJson(e), e.caseName, gpu, wall, request)
  {
    hide EvidenceJson;
    EvidenceSays(e);
  }

  /**
   The document of a complete round: for every case of the suite, under its name, the GPU times of
   reference and candidate and the three improvements are those of the case's own medians.
   */
  lemma RoundSaysOwnMedians(r: RoundReport, devices: Devices, c: nat, n: nat, k: Campaign, j: nat)
    requires Decodes(k.cases) && Suite.DistinctNames(k.cases) && c < |k.candidates| && j < |k.cases|
    requires RoundOf(r, devices, c, n, k) && RoundComplete(r)
    ensures forall m :: Series4(devices, c, n, j, m, k)
    ensures RoundJson(r).Obj? && Get(RoundJson(r), CaseEvidence).Arr?
    ensures |Get(RoundJson(r), CaseEvidence).items| == |k.cases|
    ensures SaysMedians(Get(RoundJson(r), CaseEvidence).items[j], k.cases[j].name,
                        Medians(devices, c, n, j, Gpu, k), Medians(devices, c, n, j, Wall, k),
                        Medians(devices, c, n, j, Request, k))
  {
    hide RoundOf, AllBlocksSucceed, Series4, OwnMedian, RoundJson, EvidenceJson, Decodes, WallPairs, Medians,
         PairsMedians, SaysMedians;
    RoundCompleteIff(r, devices, c, n, k);
    EvidenceIsOwn(r, devices, c, n, k, j);
    RoundLookups(r);
    assert r.evidence[j].complete;
    CompleteEvidenceSays(r.evidence[j], Medians(devices, c, n, j, Gpu, k), Medians(devices, c, n, j, Wall, k),
                         Medians(devices, c, n, j, Request, k));
  }

  /** The observations of a round are its evidence, case by case. */
  ghost predicate Mirrors(observations: seq<Observation>, evidence: seq<PairedEvidence>, candidate: Json)
    requires Hashable(candidate)
  {
    && |observations| == |evidence|
    && forall i :: 0 <= i < |evidence| ==> Some(observations[i]) == Observe(candidate, EvidenceJson(evidence[i]))
  }

  lemma {:induction false} EvidenceMirrored(evidence: seq<PairedEvidence>, items: seq<Json>, candidate: Json)
    requires Hashable(candidate) && |items| == |evidence|
    requires forall i :: 0 <= i < |items| ==> items[i] == EvidenceJson(evidence[i])
    ensures InEvidence(candidate, items).Some? && Mirrors(InEvidence(candidate, items).value, evidence, candidate)
  {
    hide Observe, EvidenceJson;
    if items != [] {
      EvidenceNames(evidence[0], candidate);
      EvidenceMirrored(evidence[1..], items[1..], candidate);
    }
  }

  lemma MirrorIsNamed(observations: seq<Observation>, evidence: seq<PairedEvidence>, candidate: Json)
    requires IsString(candidate) && Mirrors(observations, evidence, candidate)
    ensures Named(observations)
  {
    hide Observe, EvidenceJson;
    forall i | 0 <= i < |observations|
      ensures IsString(observations[i].candidate) && IsString(observations[i].caseName)
    {
      EvidenceNames(evidence[i], candidate);
    }
  }

  lemma RoundObserved(r: RoundReport, candidate: Json)
    requires IsString(candidate)
    ensures InRound(candidate, RoundJson(r)).Some?
    ensures Mirrors(InRound(candidate, RoundJson(r)).value, r.evidence, candidate)
    ensures Named(InRound(candidate, RoundJson(r)).value)
  {
    hide InEvidence, RoundJson;
    RoundLookups(r);
    RoundHasEvidence(r);
    var items := Get(RoundJson(r), CaseEvidence).items;
    EvidenceMirrored(r.evidence, items, candidate);
    MirrorIsNamed(InEvidence(candidate, items).value, r.evidence, candidate);
  }

  lemma {:induction false} RoundsObserved(rounds: seq<RoundReport>, items: seq<Json>, candidate: Json)
    requires IsString(candidate) && |items| == |rounds|
    requires forall i :: 0 <= i < |items| ==> items[i] == RoundJson(rounds[i])
    ensures InRounds(candidate, items).Some? && Named(InRounds(candidate, items).value)
  {
    hide InRound, RoundJson, Mirrors;
    if items != [] {
      RoundObserved(rounds[0], candidate);
      RoundsObserved(rounds[1..], items[1..], candidate);
    }
  }

  lemma CandidateObserved(r: CandidateReport)
    ensures InCandidate(CandidateJson(r)).Some? && Named(InCandidate(CandidateJson(r)).value)
  {
    hide InRounds, CandidateJson;
    CandidateLookups(r);
    CandidateHasName(r);
    RoundsObserved(r.rounds, Get(CandidateJson(r), RoundsKey).items, Constant(PlanTag(r.candidate)));
  }

  lemma CandidateHasName(r: CandidateReport)
    ensures var j := CandidateJson(r);
            j.Obj? && CandidateKey in j.fields && j.fields[CandidateKey] == Constant(PlanTag(r.candidate))
  {
  }

  lemma {:induction false} CandidatesObserved(reports: seq<CandidateReport>, items: seq<Json>)
    requires |items| == |reports| && forall i :: 0 <= i < |items| ==> items[i] == CandidateJson(reports[i])
    ensures InCandidates(items).Some? && Named(InCandidates(items).value)
  {
    hide InCandidate, CandidateJson;
    if items != [] {
      CandidateObserved(reports[0]);
      CandidatesObserved(reports[1..], items[1..]);
    }
  }

  /** Every report of the harness can be described, complete or not: all of its evidence is named by strings. */
  lemma EveryReportIsDescribable(r: Report, h: Header)
    ensures WellNamed(ReportJson(r, h))
    ensures Describable([ReportJson(r, h)])
  {
    hide InCandidates, ReportJson;
    ReportLookups(r, h);
    CandidatesObserved(r.reports, Get(ReportJson(r, h), CandidateReports).items);
    WellNamedCampaigns([ReportJson(r, h)]);
  }
}
