/**
 Validation of a massive campaign report: its identity, the semantic count over every candidate,
 round, block and case, and the fail-closed acceptance of version 2.
 */
module CampaignValidation {
  import opened Json
  import opened Wrappers

  /** RuntimeFault is the tool's own error; OtherFault is what Python raises on a value of the wrong type. */
  datatype Fault = RuntimeFault | OtherFault

  // ----- Identity -----

  /** The metadata checks: the commit, a clean tree, and a fingerprint with a run context. */
  predicate MetadataOk(m: Json, head: string) {
    && m.Obj?
    && Get(m, GitCommit) == Str(head) && Get(m, GitDirty) == Bool(false)
    && Get(m, EnvironmentFingerprint).Obj?
    && IsText(Get(Get(m, EnvironmentFingerprint), RunContextId))
  }

  function RunContext(report: Json): Json
    requires report.Obj? && Get(report, Metadata).Obj? && Get(Get(report, Metadata), EnvironmentFingerprint).Obj?
  {
    Get(Get(Get(report, Metadata), EnvironmentFingerprint), RunContextId)
  }

  /** `validate_campaign` of version 1: the run context of an acceptable report. */
  function ValidateCampaign(report: Json, head: string, expected: Option<Json>): Result<Json, Fault> {
    if !report.Obj? then Err(OtherFault)
    else if !EqualsInt(Get(report, SchemaVersion), 1) ||
        Get(report, Benchmark) != Constant(MassiveBenchmark) then Err(RuntimeFault)
    else if Get(report, SourceRepo) != Constant(TinyLlamaRepo) then Err(RuntimeFault)
    else if Get(report, SourceRevision) != Constant(TinyLlamaRevision) then Err(RuntimeFault)
    else if Get(report, SourceModelSha256) != Constant(TinyLlamaSha256) then Err(RuntimeFault)
    else if !MetadataOk(Get(report, Metadata), head) then Err(RuntimeFault)
    else if expected.Some? && RunContext(report) != expected.value then Err(RuntimeFault)
    else if !Get(report, Candidates).Arr? || Get(report, Candidates).items == [] then Err(RuntimeFault)
    else if !Get(report, CandidateReports).Arr?
            || |Get(report, CandidateReports).items| != |Get(report, Candidates).items| then Err(RuntimeFault)
    else Ok(RunContext(report))
  }

  // ----- The semantic count -----

  datatype Counts = Counts(observations: nat, successful: nat, exact: nat) {
    function Plus(c: Counts): Counts {
      Counts(observations + c.observations, successful + c.successful, exact + c.exact)
    }
  }

  /** The declared dimensions of a report. */
  datatype Shape = Shape(cases: nat, rounds: nat, candidates: nat) {
    /** How many children a node has at each level: cases of a block, blocks of a round, rounds, candidates. */
    function Width(level: nat): nat
      requires 1 <= level <= 4
    {
      if level == 1 then cases else if level == 2 then 4 else if level == 3 then rounds else candidates
    }

    /** The number of case measurements below a node. */
    function Volume(level: nat): nat
      requires level <= 4
    {
      if level == 0 then 1 else Width(level) * Volume(level - 1)
    }
  }

  function ChildrenKey(level: nat): Key
    requires 1 <= level <= 4
  {
    if level == 1 then CasesKey
    else if level == 2 then BlocksKey
    else if level == 3 then RoundsKey
    else CandidateReports
  }

  predicate ExactCase(c: Json)
    requires c.Obj?
  {
    && Get(c, SuccessKey) == Bool(true) && Get(c, ExactOracleGreedy) == Bool(true)
    && Get(c, GeneratedIds).Arr? && Get(c, DecodeSteps) == Int(|Get(c, GeneratedIds).items|)
  }

  function CaseCounts(c: Json): Counts
    requires c.Obj?
  {
    Counts(1, if Get(c, SuccessKey) == Bool(true) then 1 else 0, if ExactCase(c) then 1 else 0)
  }

  /** The count below a node: a case (level 0), a block, a round, a candidate report or the report (level 4). */
  function Count(j: Json, level: nat, shape: Shape): Result<Counts, Fault>
    requires level <= 4
    decreases level, 1, 0
  {
    if level == 0 then (if j.Obj? then Ok(CaseCounts(j)) else Err(RuntimeFault))
    else if !j.Obj? then Err(OtherFault)
    else
      var children := Get(j, ChildrenKey(level));
      if !children.Arr? || |children.items| != shape.Width(level) then Err(RuntimeFault)
      else CountFirst(children.items, |children.items|, level - 1, shape)
  }

  /** The count below the first n of some nodes; the first fault ends it. */
  function CountFirst(items: seq<Json>, n: nat, level: nat, shape: Shape): Result<Counts, Fault>
    requires level <= 3 && n <= |items|
    decreases level, 2, n
  {
    if n == 0 then Ok(Counts(0, 0, 0))
    else
      var before := CountFirst(items, n - 1, level, shape);
      if before.Err? then before
      else
        var here := Count(items[n - 1], level, shape);
        if here.Err? then here else Ok(before.value.Plus(here.value))
  }

  // ----- What the count means -----

  /** Every level has the declared width, down to case objects. */
  predicate WellShaped(j: Json, level: nat, shape: Shape)
    requires level <= 4
    decreases level
  {
    && j.Obj?
    && (level > 0 ==>
          var children := Get(j, ChildrenKey(level));
          && children.Arr? && |children.items| == shape.Width(level)
          && forall i :: 0 <= i < |children.items| ==> WellShaped(children.items[i], level - 1, shape))
  }

  /** Every case below a node is an exact observation. */
  predicate AllExact(j: Json, level: nat, shape: Shape)
    requires level <= 4 && WellShaped(j, level, shape)
    decreases level
  {
    if level == 0 then ExactCase(j)
    else
      var children := Get(j, ChildrenKey(level));
      forall i :: 0 <= i < |children.items| ==> AllExact(children.items[i], level - 1, shape)
  }

  /** Counting succeeds exactly on well-shaped nodes, counts every case there is, and finds all of
      them exact exactly when they are. */
  lemma {:induction false} CountMeaning(j: Json, level: nat, shape: Shape)
    requires level <= 4
    ensures Count(j, level, shape).Ok? <==> WellShaped(j, level, shape)
    ensures Count(j, level, shape).Ok? ==>
              var c := Count(j, level, shape).value;
              && c.observations == shape.Volume(level)
              && c.exact <= c.successful <= c.observations
              && (c.exact == c.observations <==> AllExact(j, level, shape))
    decreases level, 1, 0
  {
    if level > 0 && j.Obj? {
      var children := Get(j, ChildrenKey(level));
      if children.Arr? && |children.items| == shape.Width(level) {
        CountFirstMeaning(children.items, |children.items|, level - 1, shape);
      }
    }
  }

  lemma {:induction false} CountFirstMeaning(items: seq<Json>, n: nat, level: nat, shape: Shape)
    requires level <= 3 && n <= |items|
    ensures CountFirst(items, n, level, shape).Ok? <==> forall i :: 0 <= i < n ==> WellShaped(items[i], level, shape)
    ensures CountFirst(items, n, level, shape).Ok? ==>
              var c := CountFirst(items, n, level, shape).value;
              && c.observations == n * shape.Volume(level)
              && c.exact <= c.successful <= c.observations
              && (c.exact == c.observations <==> forall i :: 0 <= i < n ==> AllExact(items[i], level, shape))
    decreases level, 2, n
  {
    hide Count, WellShaped, AllExact, Shape.Volume;
    if n > 0 {
      CountFirstMeaning(items, n - 1, level, shape);
      CountMeaning(items[n - 1], level, shape);
      OneMore(n, shape.Volume(level));
    }
  }

  lemma OneMore(n: nat, v: nat)
    requires n > 0
    ensures n * v == (n - 1) * v + v
  {
  }

  /** All case objects below a well-shaped node, in order. */
  function Leaves(j: Json, level: nat, shape: Shape): seq<Json>
    requires level <= 4 && WellShaped(j, level, shape)
    decreases level, 1, 0
  {
    if level == 0 then [j]
    else
      var items := Get(j, ChildrenKey(level)).items;
      LeavesOf(items, |items|, level - 1, shape)
  }

  function LeavesOf(items: seq<Json>, n: nat, level: nat, shape: Shape): seq<Json>
    requires level <= 3 && n <= |items| && forall i :: 0 <= i < n ==> WellShaped(items[i], level, shape)
    decreases level, 2, n
  {
    if n == 0 then [] else LeavesOf(items, n - 1, level, shape) + Leaves(items[n - 1], level, shape)
  }

  function Matching(cases: seq<Json>, p: Json -> bool): seq<Json> {
    if cases == [] then []
    else Matching(cases[..|cases| - 1], p) + (if p(cases[|cases| - 1]) then [cases[|cases| - 1]] else [])
  }

  predicate Succeeds(c: Json) {
    c.Obj? && Get(c, SuccessKey) == Bool(true)
  }

  /** A success that says that it equals the oracle, and generated as many tokens as it was asked for. */
  predicate EqualsOracle(c: Json) {
    && Succeeds(c) && Get(c, ExactOracleGreedy) == Bool(true) && Get(c, GeneratedIds).Arr?
    && Get(c, DecodeSteps).Int? && Get(c, DecodeSteps).i == |Get(c, GeneratedIds).items|
  }

  lemma {:induction false} MatchingAdds(a: seq<Json>, b: seq<Json>, p: Json -> bool)
    ensures |Matching(a + b, p)| == |Matching(a, p)| + |Matching(b, p)|
  {
    if b == [] {
      assert a + b == a;
    } else {
      MatchingAdds(a, b[..|b| - 1], p);
      assert (a + b)[..|a + b| - 1] == a + b[..|b| - 1];
    }
  }

  /** The counters are the numbers of cases, of successful ones, and of those equal to the oracle. */
  lemma {:induction false} CountIsOfLeaves(j: Json, level: nat, shape: Shape)
    requires level <= 4 && WellShaped(j, level, shape)
    ensures Count(j, level, shape)
            == Ok(Counts(|Leaves(j, level, shape)|, |Matching(Leaves(j, level, shape), Succeeds)|,
                         |Matching(Leaves(j, level, shape), EqualsOracle)|))
    decreases level, 1, 0
  {
    if level == 0 {
      OneLeaf(j);
    } else {
      var items := Get(j, ChildrenKey(level)).items;
      CountFirstIsOfLeaves(items, |items|, level - 1, shape);
    }
  }

  lemma OneLeaf(j: Json)
    requires j.Obj?
    ensures CaseCounts(j) == Counts(1, |Matching([j], Succeeds)|, |Matching([j], EqualsOracle)|)
  {
    assert [j][..0] == [];
    assert Matching([j], Succeeds) == Matching([], Succeeds) + (if Succeeds(j) then [j] else []);
    assert Matching([j], EqualsOracle) == Matching([], EqualsOracle) + (if EqualsOracle(j) then [j] else []);
  }

  lemma {:induction false} CountFirstIsOfLeaves(items: seq<Json>, n: nat, level: nat, shape: Shape)
    requires level <= 3 && n <= |items| && forall i :: 0 <= i < n ==> WellShaped(items[i], level, shape)
    ensures CountFirst(items, n, level, shape)
            == Ok(Counts(|LeavesOf(items, n, level, shape)|, |Matching(LeavesOf(items, n, level, shape), Succeeds)|,
                         |Matching(LeavesOf(items, n, level, shape), EqualsOracle)|))
    decreases level, 2, n
  {
    hide Count, WellShaped, Leaves, Succeeds, EqualsOracle;
    if n > 0 {
      CountFirstIsOfLeaves(items, n - 1, level, shape);
      CountIsOfLeaves(items[n - 1], level, shape);
      var before, here := LeavesOf(items, n - 1, level, shape), Leaves(items[n - 1], level, shape);
      MatchingAdds(before, here, Succeeds);
      MatchingAdds(before, here, EqualsOracle);
    }
  }

  /** Exactness of a node is that of every case below it. */
  lemma {:induction false} AllExactIsOfLeaves(j: Json, level: nat, shape: Shape)
    requires level <= 4 && WellShaped(j, level, shape)
    ensures AllExact(j, level, shape) <==> forall c :: c in Leaves(j, level, shape) ==> EqualsOracle(c)
    decreases level
  {
    if level > 0 {
      hide ExactCase, EqualsOracle;
      var items := Get(j, ChildrenKey(level)).items;
      forall i | 0 <= i < |items|
        ensures AllExact(items[i], level - 1, shape) <==>
                forall c :: c in Leaves(items[i], level - 1, shape) ==> EqualsOracle(c)
      {
        AllExactIsOfLeaves(items[i], level - 1, shape);
      }
      LeavesOfMember(items, |items|, level - 1, shape);
    } else {
      assert Leaves(j, level, shape) == [j] && j in [j];
      assert ExactCase(j) <==> EqualsOracle(j);
    }
  }

  lemma {:induction false} LeavesOfMember(items: seq<Json>, n: nat, level: nat, shape: Shape)
    requires level <= 3 && n <= |items| && forall i :: 0 <= i < n ==> WellShaped(items[i], level, shape)
    ensures forall c :: c in LeavesOf(items, n, level, shape) <==>
              exists i :: 0 <= i < n && c in Leaves(items[i], level, shape)
  {
    hide WellShaped, Leaves;
    if n > 0 {
      LeavesOfMember(items, n - 1, level, shape);
    }
  }

  // ----- The counting code -----

  /** Positive declared dimensions, none of them a boolean. */
  predicate DimensionsOk(report: Json)
    requires report.Obj?
  {
    && Get(report, Candidates).Arr? && Get(report, Candidates).items != []
    && IntAtLeast(Get(report, RoundsPerCandidate), 1) && IntAtLeast(Get(report, CaseCount), 1)
  }

  function ShapeOf(report: Json): Shape
    requires report.Obj? && DimensionsOk(report)
  {
    Shape(Get(report, CaseCount).i, Get(report, RoundsPerCandidate).i, |Get(report, Candidates).items|)
  }

  /** What one report contributes: its expected and actual counts. */
  function ReportCounts(report: Json): Result<(nat, Counts), Fault> {
    if !report.Obj? then Err(OtherFault)
    else if !DimensionsOk(report) then Err(RuntimeFault)
    else
      match Count(report, 4, ShapeOf(report))
      case Err(f) => Err(f)
      case Ok(c) => Ok((ShapeOf(report).candidates * ShapeOf(report).rounds * 4 * ShapeOf(report).cases, c))
  }

  function CampaignCounts(campaigns: seq<Json>, n: nat): Result<(nat, Counts), Fault>
    requires n <= |campaigns|
  {
    if n == 0 then Ok((0, Counts(0, 0, 0)))
    else
      var before := CampaignCounts(campaigns, n - 1);
      if before.Err? then before
      else
        var here := ReportCounts(campaigns[n - 1]);
        if here.Err? then here
        else Ok((before.value.0 + here.value.0, before.value.1.Plus(here.value.1)))
  }

  datatype SemanticCount = SemanticCount(expected: nat, observations: nat, successful: nat, exact: nat, allExact: bool)

  function SemanticOf(expected: nat, c: Counts): SemanticCount {
    SemanticCount(expected, c.observations, c.successful, c.exact,
             c.observations > 0 && c.observations == expected && c.successful == c.observations &&
                 c.exact == c.observations)
  }

  function CollectedSemantic(campaigns: seq<Json>): Result<SemanticCount, Fault> {
    match CampaignCounts(campaigns, |campaigns|)
    case Err(f) => Err(f)
    case Ok((expected, c)) => Ok(SemanticOf(expected, c))
  }

  /** `collect_semantic_validation`: counters over five nested loops. */
  method CollectSemanticValidation(campaigns: seq<Json>) returns (r: Result<SemanticCount, Fault>)
    ensures r == CollectedSemantic(campaigns)
  {
    var expected: nat, counts := 0, Counts(0, 0, 0);
    for k := 0 to |campaigns|
      invariant CampaignCounts(campaigns, k) == Ok((expected, counts))
    {
      var report := campaigns[k];
      FaultIsFinal(campaigns, k + 1);
      if !report.Obj? {
        return Err(OtherFault);
      }
      if !DimensionsOk(report) {
        return Err(RuntimeFault);
      }
      var shape := ShapeOf(report);
      expected := expected + shape.candidates * shape.rounds * 4 * shape.cases;
      var here := CountNode(report, 4, shape);
      if here.Err? {
        return Err(here.error);
      }
      counts := counts.Plus(here.value);
    }
    return Ok(SemanticOf(expected, counts));
  }

  lemma {:induction false} FaultIsFinal(campaigns: seq<Json>, k: nat)
    requires k <= |campaigns|
    ensures CampaignCounts(campaigns, k).Err? ==>
              CollectedSemantic(campaigns) == Err(CampaignCounts(campaigns, k).error)
    decreases |campaigns| - k
  {
    if k < |campaigns| {
      FaultIsFinal(campaigns, k + 1);
    }
  }

  /** The loops below a report: over candidate reports, rounds, blocks and cases. */
  method CountNode(j: Json, level: nat, shape: Shape) returns (r: Result<Counts, Fault>)
    requires level <= 4
    ensures r == Count(j, level, shape)
    decreases level
  {
    if level == 0 {
      return if j.Obj? then Ok(CaseCounts(j)) else Err(RuntimeFault);
    }
    if !j.Obj? {
      return Err(OtherFault);
    }
    var children := Get(j, ChildrenKey(level));
    if !children.Arr? || |children.items| != shape.Width(level) {
      return Err(RuntimeFault);
    }
    var counts := Counts(0, 0, 0);
    for i := 0 to |children.items|
      invariant CountFirst(children.items, i, level - 1, shape) == Ok(counts)
    {
      var here := CountNode(children.items[i], level - 1, shape);
      if here.Err? {
        ChildFaultIsFinal(children.items, i + 1, level - 1, shape);
        return Err(here.error);
      }
      counts := counts.Plus(here.value);
    }
    return Ok(counts);
  }

  lemma {:induction false} ChildFaultIsFinal(items: seq<Json>, n: nat, level: nat, shape: Shape)
    requires level <= 3 && n <= |items| && CountFirst(items, n, level, shape).Err?
    ensures CountFirst(items, |items|, level, shape) == CountFirst(items, n, level, shape)
    decreases |items| - n
  {
    if n < |items| {
      ChildFaultIsFinal(items, n + 1, level, shape);
    }
  }

  // ----- Version 2 -----

  predicate CompleteEvidence(e: Json) {
    e.Obj? && Get(e, CompleteKey) == Bool(true)
  }

  /** Every round's evidence covers every case and is complete. */
  predicate RoundEvidenceOk(round: Json, cases: nat)
    requires round.Obj?
  {
    var evidence := Get(round, CaseEvidence);
    && evidence.Arr? && |evidence.items| == cases
    && forall i :: 0 <= i < |evidence.items| ==> CompleteEvidence(evidence.items[i])
  }

  /** The same for every round of a candidate report. */
  predicate CandidateEvidenceOk(candidate: Json, shape: Shape)
    requires WellShaped(candidate, 3, shape)
  {
    var rounds := Get(candidate, RoundsKey).items;
    forall r :: 0 <= r < |rounds| ==> WellShaped(rounds[r], 2, shape) && RoundEvidenceOk(rounds[r], shape.cases)
  }

  predicate AllEvidenceOk(report: Json, shape: Shape)
    requires WellShaped(report, 4, shape)
  {
    var candidates := Get(report, CandidateReports).items;
    forall k :: 0 <= k < |candidates| ==>
      WellShaped(candidates[k], 3, shape) && CandidateEvidenceOk(candidates[k], shape)
  }

  /** `validate_complete_campaign` of version 2. */
  function ValidateCompleteCampaign(report: Json, head: string, expected: Option<Json>): Result<Json, Fault> {
    var context := ValidateCampaign(report, head, expected);
    if context.Err? then context
    else if Get(report, CampaignComplete) != Bool(true) then Err(RuntimeFault)
    else
      var semantic := CollectedSemantic([report]);
      if semantic.Err? then Err(semantic.error)
      else if !semantic.value.allExact then Err(RuntimeFault)
      else
        SingleReport(report);
        if !AllEvidenceOk(report, ShapeOf(report)) then Err(RuntimeFault)
        else context
  }

  /** The semantic verdict on one report: counted if well-shaped, all exact if every case is. */
  lemma SingleReport(report: Json)
    ensures CollectedSemantic([report]).Ok? <==>
              report.Obj? && DimensionsOk(report) && WellShaped(report, 4, ShapeOf(report))
    ensures CollectedSemantic([report]).Ok? ==>
              (CollectedSemantic([report]).value.allExact <==> AllExact(report, 4, ShapeOf(report)))
  {
    assert CampaignCounts([report], 0) == Ok((0, Counts(0, 0, 0)));
    assert CampaignCounts([report], 1) == ReportCounts(report);
    if report.Obj? && DimensionsOk(report) {
      CountMeaning(report, 4, ShapeOf(report));
      FullVolume(ShapeOf(report));
    }
  }

  lemma FullVolume(s: Shape)
    ensures s.Volume(4) == s.candidates * s.rounds * 4 * s.cases
    ensures s.candidates > 0 && s.rounds > 0 && s.cases > 0 ==> s.Volume(4) > 0
  {
    assert s.Volume(1) == s.cases * 1;
    assert s.Volume(2) == 4 * s.cases;
    assert s.Volume(3) == s.rounds * (4 * s.cases);
    assert s.candidates * (s.rounds * (4 * s.cases)) == s.candidates * s.rounds * 4 * s.cases;
  }

  /** An accepted report of version 2: identity, dimensions, shape, exactness and evidence. */
  ghost predicate FullyExact(report: Json) {
    && report.Obj? && Get(report, CampaignComplete) == Bool(true)
    && DimensionsOk(report) && WellShaped(report, 4, ShapeOf(report))
    && AllExact(report, 4, ShapeOf(report)) && AllEvidenceOk(report, ShapeOf(report))
  }

  /** Counters or not, version 2 accepts exactly the reports that are complete and exact in every case. */
  lemma CompleteCampaignMeaning(report: Json, head: string, expected: Option<Json>)
    ensures ValidateCompleteCampaign(report, head, expected).Ok? <==>
              ValidateCampaign(report, head, expected).Ok? && FullyExact(report)
    ensures ValidateCompleteCampaign(report, head, expected).Ok? ==>
              ValidateCompleteCampaign(report, head, expected) == ValidateCampaign(report, head, expected)
  {
    hide Count, AllExact, WellShaped, CollectedSemantic;
    SingleReport(report);
  }

  /** For fully exact campaigns the whole collection is counted, and exact as soon as there is one. */
  lemma {:induction false} ExactCampaigns(campaigns: seq<Json>, n: nat)
    requires n <= |campaigns|
    requires forall i :: 0 <= i < |campaigns| ==> FullyExact(campaigns[i])
    ensures CampaignCounts(campaigns, n).Ok?
    ensures var (expected, c) := CampaignCounts(campaigns, n).value;
            c.observations == expected == c.successful == c.exact && (n > 0 ==> expected > 0)
  {
    if n > 0 {
      ExactCampaigns(campaigns, n - 1);
      var report := campaigns[n - 1];
      assert FullyExact(report);
      CountMeaning(report, 4, ShapeOf(report));
      FullVolume(ShapeOf(report));
    }
  }
}
