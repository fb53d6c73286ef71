/**
 The observations behind the launcher's descriptive summaries: which lookups they make in a report,
 and when those, or the sorting of the cells, raise.
 */
module CaseObservations {
  import opened Json
  import opened Wrappers

  /** One case of one round: its cell, and the improvements that are finite numbers. */
  datatype Observation = Observation(candidate: Json, caseName: Json,
                                     gpu: Option<real>, wall: Option<real>, request: Option<real>)

  predicate IsString(j: Json) {
    j.Str? || j.Constant?
  }

  predicate IsNumber(j: Json) {
    j.Int? || j.Float? || j.Bool? || j.Infinite?
  }

  /** `finite_number`. */
  function FiniteNumber(j: Json): Option<real> {
    match j
    case Int(i) => Some(i as real)
    case Float(r) => Some(r)
    case Bool(b) => Some(if b then 1.0 else 0.0)
    case _ => None
  }

  predicate Hashable(j: Json) {
    !j.Arr? && !j.Obj?
  }

  /** The observation of one piece of evidence, unless a lookup raises. */
  function Observe(candidate: Json, evidence: Json): Option<Observation> {
    if !evidence.Obj? || CaseName !in evidence.fields then None
    else if !Hashable(candidate) || !Hashable(evidence.fields[CaseName]) then None
    else Some(Observation(candidate, evidence.fields[CaseName], FiniteNumber(Get(evidence, GpuImprovement)),
                          FiniteNumber(Get(evidence, WallImprovement)), FiniteNumber(Get(evidence,
                              RequestImprovement))))
  }

  /** What a loop over a value visits; a non-empty object or string yields strings, which are no evidence. */
  function Iterated(j: Json): Option<seq<Json>> {
    match j
    case Arr(items) => Some(items)
    case Obj(fields) => if fields == map[] then Some([]) else None
    case Str(s) => if s == "" then Some([]) else None
    case _ => None
  }

  function InEvidence(candidate: Json, items: seq<Json>): Option<seq<Observation>> {
    if items == [] then Some([])
    else
      var first, rest := Observe(candidate, items[0]), InEvidence(candidate, items[1..]);
      if first.None? || rest.None? then None else Some([first.value] + rest.value)
  }

  function InRound(candidate: Json, round: Json): Option<seq<Observation>> {
    if !round.Obj? || CaseEvidence !in round.fields then None
    else
      match Iterated(round.fields[CaseEvidence])
      case None => None
      case Some(items) => InEvidence(candidate, items)
  }

  function InRounds(candidate: Json, rounds: seq<Json>): Option<seq<Observation>> {
    if rounds == [] then Some([])
    else
      var first, rest := InRound(candidate, rounds[0]), InRounds(candidate, rounds[1..]);
      if first.None? || rest.None? then None else Some(first.value + rest.value)
  }

  function InCandidate(report: Json): Option<seq<Observation>> {
    if !report.Obj? || CandidateKey !in report.fields || !Get(report, RoundsKey).Arr? then None
    else InRounds(report.fields[CandidateKey], Get(report, RoundsKey).items)
  }

  function InCandidates(reports: seq<Json>): Option<seq<Observation>> {
    if reports == [] then Some([])
    else
      var first, rest := InCandidate(reports[0]), InCandidates(reports[1..]);
      if first.None? || rest.None? then None else Some(first.value + rest.value)
  }

  function InReport(report: Json): Option<seq<Observation>> {
    if !report.Obj? || !Get(report, CandidateReports).Arr? then None
    else InCandidates(Get(report, CandidateReports).items)
  }

  /** `collect_case_observations`, up to their grouping into cells. */
  function InCampaigns(campaigns: seq<Json>): Option<seq<Observation>> {
    if campaigns == [] then Some([])
    else
      var first, rest := InReport(campaigns[0]), InCampaigns(campaigns[1..]);
      if first.None? || rest.None? then None else Some(first.value + rest.value)
  }

  // ----- Sorting the cells -----

  /** Values that Python finds equal. */
  predicate SameValue(x: Json, y: Json) {
    x == y || (FiniteNumber(x).Some? && FiniteNumber(x) == FiniteNumber(y))
  }

  /** Distinct values have an order among numbers and among strings only. */
  predicate Comparable(x: Json, y: Json) {
    SameValue(x, y) || (IsNumber(x) && IsNumber(y)) || (IsString(x) && IsString(y))
  }

  /** Cells are ordered by candidate, and under one candidate by case name. */
  predicate Sortable(observations: seq<Observation>) {
    forall x, y :: x in observations && y in observations ==>
      && Comparable(x.candidate, y.candidate)
      && (SameValue(x.candidate, y.candidate) ==> Comparable(x.caseName, y.caseName))
  }

  // ----- What raises -----

  /** The kinds of values that Python can put in order. */
  datatype Class = NumberClass | StringClass | Unordered

  function ClassOf(x: Json): Class {
    match x
    case Bool(_) => NumberClass
    case Int(_) => NumberClass
    case Float(_) => NumberClass
    case Infinite => NumberClass
    case Str(_) => StringClass
    case Constant(_) => StringClass
    case Null => Unordered
    case Arr(_) => Unordered
    case Obj(_) => Unordered
  }

  /** Two values can be ordered exactly if they are both numbers, both strings, or the same. */
  lemma ComparableIff(x: Json, y: Json)
    ensures Comparable(x, y) <==> x == y || (ClassOf(x) == ClassOf(y) && ClassOf(x) != Unordered)
  {
  }

  /** True equals 1, false 0, and an integer the float of its value; nothing else is equal but the same. */
  lemma SameValueCases(x: Json, y: Json, i: int, r: real)
    ensures SameValue(Int(i), Float(r)) <==> i as real == r
    ensures SameValue(Float(r), Int(i)) <==> i as real == r
    ensures SameValue(Bool(true), Int(i)) <==> i == 1
    ensures SameValue(Bool(false), Int(i)) <==> i == 0
    ensures SameValue(Bool(true), Float(r)) <==> r == 1.0
    ensures SameValue(Bool(false), Float(r)) <==> r == 0.0
    ensures ClassOf(x) != NumberClass || ClassOf(y) != NumberClass ==> (SameValue(x, y) <==> x == y)
    ensures (x.Int? && y.Int?) || (x.Float? && y.Float?) || (x.Bool? && y.Bool?) || x.Infinite? || y.Infinite? ==>
              (SameValue(x, y) <==> x == y)
  {
  }

  /** One piece of evidence raises exactly if it is no object, lacks a case name, or has an unhashable cell. */
  lemma ObserveIff(candidate: Json, evidence: Json)
    ensures Observe(candidate, evidence).None? <==>
            || !evidence.Obj? || CaseName !in evidence.fields
            || candidate.Arr? || candidate.Obj?
            || evidence.fields[CaseName].Arr? || evidence.fields[CaseName].Obj?
    ensures Observe(candidate, evidence).Some? ==>
              var o := Observe(candidate, evidence).value;
              && o.candidate == candidate && o.caseName == evidence.fields[CaseName]
              && o.gpu == FiniteNumber(Get(evidence, GpuImprovement))
              && o.wall == FiniteNumber(Get(evidence, WallImprovement))
              && o.request == FiniteNumber(Get(evidence, RequestImprovement))
  {
  }

  /** A loop over a value raises later exactly if the value is not iterable, or yields something that is no evidence. */
  lemma IteratedIff(x: Json)
    ensures Iterated(x).Some? <==> x.Arr? || x == Obj(map[]) || x == Str("")
    ensures Iterated(x).Some? ==> Iterated(x).value == if x.Arr? then x.items else []
  {
  }

  /** Sorting raises exactly if two candidates, or two cases of equal candidates, cannot be ordered. */
  lemma SortableIff(observations: seq<Observation>)
    ensures !Sortable(observations) <==>
            exists x, y :: x in observations && y in observations
              && (!Comparable(x.candidate, y.candidate)
                  || (SameValue(x.candidate, y.candidate) && !Comparable(x.caseName, y.caseName)))
  {
    hide Comparable, SameValue;
  }

  /** The descriptive summaries of these campaigns do not raise. */
  predicate Describable(campaigns: seq<Json>) {
    InCampaigns(campaigns).Some? && Sortable(InCampaigns(campaigns).value)
  }

  // ----- Reports that are always describable -----

  /** Every observation of a report is named by strings. */
  predicate Named(observations: seq<Observation>) {
    forall x :: x in observations ==> IsString(x.candidate) && IsString(x.caseName)
  }

  predicate WellNamed(report: Json) {
    InReport(report).Some? && Named(InReport(report).value)
  }

  lemma {:induction false} WellNamedCampaigns(campaigns: seq<Json>)
    requires forall i :: 0 <= i < |campaigns| ==> WellNamed(campaigns[i])
    ensures InCampaigns(campaigns).Some? && Named(InCampaigns(campaigns).value)
    ensures Describable(campaigns)
  {
    hide InReport;
    if campaigns != [] {
      assert WellNamed(campaigns[0]);
      WellNamedCampaigns(campaigns[1..]);
    }
  }

  /** Some of the campaigns that can be described together can be described alone. */
  lemma {:induction false} DescribablePrefix(campaigns: seq<Json>, n: nat)
    requires n <= |campaigns| && Describable(campaigns)
    ensures Describable(campaigns[..n])
  {
    hide InCampaigns, Comparable, SameValue;
    PrefixObservations(campaigns, n);
    PrefixIsSortable(InCampaigns(campaigns[..n]).value, InCampaigns(campaigns).value);
  }

  lemma PrefixIsSortable(part: seq<Observation>, whole: seq<Observation>)
    requires part <= whole && Sortable(whole)
    ensures Sortable(part)
  {
    hide Comparable, SameValue;
    forall x | x in part
      ensures x in whole
    {
      var i :| 0 <= i < |part| && part[i] == x;
      assert whole[i] == x;
    }
  }

  lemma {:induction false} PrefixObservations(campaigns: seq<Json>, n: nat)
    requires n <= |campaigns| && InCampaigns(campaigns).Some?
    ensures InCampaigns(campaigns[..n]).Some?
    ensures InCampaigns(campaigns[..n]).value <= InCampaigns(campaigns).value
  {
    hide InReport;
    if n > 0 {
      PrefixObservations(campaigns[1..], n - 1);
      assert campaigns[..n][0] == campaigns[0] && campaigns[..n][1..] == campaigns[1..][..n - 1];
    }
  }
}
