/**
 The consensus verifier of the attention ABBA campaigns: six rounds of four slots each, the
 paired evidence of every round, and the eligibility rule built on its medians.
 */
module AbbaConsensus {
  import opened OrderStatistics
  import opened RealArithmetic
  import opened Wrappers

  const EXPECTED_REPORTS: nat := 24
  const EXPECTED_ROUNDS: nat := 6
  const MIN_REVIEW_EFFECT: real := 0.03

  datatype Slot = A1 | B1 | B2 | A2 | OtherSlot(name: string)
  datatype Mode = Reference | Candidate | OtherMode(name: string)
  datatype Metric = GenerationGpu | GenerationWall | RequestTotal

  /** A raw report that passed its own validation; environment and plan are compared as values. */
  datatype Report = Report(round: nat, slot: Slot, mode: Mode, environment: nat, plan: nat,
                           gpuMs: real, wallMs: real, requestMs: real) {
    function Value(metric: Metric): real {
      match metric
      case GenerationGpu => gpuMs
      case GenerationWall => wallMs
      case RequestTotal => requestMs
    }

    predicate TimingsPositive() {
      0.0 < gpuMs && 0.0 < wallMs && 0.0 < requestMs
    }
  }

  function Slots(): set<Slot> {
    {A1, B1, B2, A2}
  }

  function Rounds(): set<nat> {
    {1, 2, 3, 4, 5, 6}
  }

  lemma RoundsAre(k: nat)
    ensures k in Rounds() <==> 1 <= k <= EXPECTED_ROUNDS
  {
  }

  predicate ModeFits(slot: Slot, mode: Mode) {
    mode == (if slot == A1 || slot == A2 then Reference else Candidate)
  }

  datatype Round = Round(round: nat, a1: real, b1: real, b2: real, a2: real, paired: real, ab: real, ba: real)

  /** The evidence of one round, from its four timings. */
  function RoundOf(round: nat, a1: real, b1: real, b2: real, a2: real): Round
    requires 0.0 < a1 && 0.0 < a2
  {
    var reference, candidate := (a1 + a2) / 2.0, (b1 + b2) / 2.0;
    Round(round, a1, b1, b2, a2, (reference - candidate) / reference, (a1 - b1) / a1, (a2 - b2) / a2)
  }

  // ----- What an acceptable campaign is -----

  ghost predicate DistinctCells(reports: seq<Report>) {
    forall i, j :: 0 <= i < j < |reports| ==>
      !(reports[i].round == reports[j].round && reports[i].slot == reports[j].slot)
  }

  ghost predicate HasCell(reports: seq<Report>, round: nat, slot: Slot) {
    exists r :: r in reports && r.round == round && r.slot == slot
  }

  /** Every report sits in one of the 6 x 4 cells, and no cell is missing or doubled. */
  ghost predicate IsBijection(reports: seq<Report>) {
    && DistinctCells(reports)
    && (forall r :: r in reports ==> r.round in Rounds() && r.slot in Slots())
    && (forall round, slot :: round in Rounds() && slot in Slots() ==> HasCell(reports, round, slot))
  }

  ghost predicate ReportOk(r: Report) {
    ModeFits(r.slot, r.mode) && r.TimingsPositive()
  }

  /** Cells, modes and timings are right. */
  ghost predicate Regular(reports: seq<Report>) {
    IsBijection(reports) && forall r :: r in reports ==> ReportOk(r)
  }

  ghost predicate OneSetting(reports: seq<Report>) {
    forall i :: 0 <= i < |reports| ==>
      reports[i].environment == reports[0].environment && reports[i].plan == reports[0].plan
  }

  ghost predicate Acceptable(reports: seq<Report>) {
    |reports| == EXPECTED_REPORTS && OneSetting(reports) && Regular(reports)
  }

  /** The report of a cell. */
  ghost function Cell(reports: seq<Report>, round: nat, slot: Slot): (r: Report)
    requires HasCell(reports, round, slot)
    ensures r in reports && r.round == round && r.slot == slot
  {
    var r :| r in reports && r.round == round && r.slot == slot;
    r
  }

  ghost function RowOf(reports: seq<Report>, round: nat, metric: Metric): Round
    requires Regular(reports) && round in Rounds()
  {
    var a1, a2 := Cell(reports, round, A1), Cell(reports, round, A2);
    assert ReportOk(a1) && ReportOk(a2);
    RoundOf(round, a1.Value(metric), Cell(reports, round, B1).Value(metric),
            Cell(reports, round, B2).Value(metric), a2.Value(metric))
  }

  ghost function RowsOf(reports: seq<Report>, metric: Metric): seq<Round>
    requires Regular(reports)
  {
    seq(EXPECTED_ROUNDS, k requires 0 <= k < EXPECTED_ROUNDS => RowOf(reports, k + 1, metric))
  }

  lemma CellUnique(reports: seq<Report>, r: Report)
    requires DistinctCells(reports) && r in reports
    ensures HasCell(reports, r.round, r.slot) && Cell(reports, r.round, r.slot) == r
  {
    assert HasCell(reports, r.round, r.slot);
    var c := Cell(reports, r.round, r.slot);
    var i :| 0 <= i < |reports| && reports[i] == r;
    var j :| 0 <= j < |reports| && reports[j] == c;
  }

  lemma CellIgnoresOrder(reports: seq<Report>, others: seq<Report>, round: nat, slot: Slot)
    requires multiset(reports) == multiset(others) && IsBijection(reports) && IsBijection(others)
    requires round in Rounds() && slot in Slots()
    ensures HasCell(reports, round, slot) && HasCell(others, round, slot)
    ensures Cell(reports, round, slot) == Cell(others, round, slot)
  {
    hide Rounds, Slots;
    assert HasCell(reports, round, slot);
    var r := Cell(reports, round, slot);
    assert r in multiset(others);
    CellUnique(others, r);
  }

  lemma {:induction false} CountAtLeastTwo(s: seq<Report>, i: nat, j: nat)
    requires i < j < |s| && s[i] == s[j]
    ensures multiset(s)[s[i]] >= 2
  {
    assert s == s[..j] + [s[j]] + s[j + 1..];
    assert s[i] == s[..j][i];
    assert s[i] in multiset(s[..j]);
  }

  lemma {:induction false} TwoPlaces(s: seq<Report>, x: Report) returns (i: nat, j: nat)
    requires multiset(s)[x] >= 2
    ensures i < j < |s| && s[i] == s[j] == x
  {
    assert x in multiset(s);
    i :| 0 <= i < |s| && s[i] == x;
    assert s == s[..i] + [s[i]] + s[i + 1..];
    if x in multiset(s[..i]) {
      assert x in s[..i];
      var h :| 0 <= h < i && s[..i][h] == x;
      i, j := h, i;
    } else {
      assert x in multiset(s[i + 1..]);
      var h :| 0 <= h < |s| - i - 1 && s[i + 1..][h] == x;
      j := i + 1 + h;
    }
  }

  lemma DistinctCellsIgnoreOrder(reports: seq<Report>, others: seq<Report>)
    requires multiset(reports) == multiset(others) && DistinctCells(reports)
    ensures DistinctCells(others)
  {
    forall i, j | 0 <= i < j < |others|
      ensures !(others[i].round == others[j].round && others[i].slot == others[j].slot)
    {
      if others[i] == others[j] {
        CountAtLeastTwo(others, i, j);
        var g, h := TwoPlaces(reports, others[i]);
      } else {
        assert others[i] in multiset(reports) && others[j] in multiset(reports);
        var g :| 0 <= g < |reports| && reports[g] == others[i];
        var h :| 0 <= h < |reports| && reports[h] == others[j];
      }
    }
  }

  lemma RegularIgnoresOrder(reports: seq<Report>, others: seq<Report>)
    requires multiset(reports) == multiset(others) && Regular(reports)
    ensures Regular(others)
  {
    hide Rounds, Slots, DistinctCells, ReportOk;
    DistinctCellsIgnoreOrder(reports, others);
    forall r | r in others
      ensures r in reports
    {
      assert r in multiset(reports);
    }
    forall round, slot | round in Rounds() && slot in Slots()
      ensures HasCell(others, round, slot)
    {
      assert HasCell(reports, round, slot);
      var r :| r in reports && r.round == round && r.slot == slot;
      assert r in multiset(others);
    }
  }

  lemma OneSettingIgnoresOrder(reports: seq<Report>, others: seq<Report>)
    requires multiset(reports) == multiset(others) && OneSetting(reports)
    ensures OneSetting(others) && |others| == |reports|
  {
    assert |multiset(reports)| == |multiset(others)|;
    forall i | 0 <= i < |others|
      ensures others[i].environment == reports[0].environment && others[i].plan == reports[0].plan
    {
      assert others[i] in multiset(reports);
      var k :| 0 <= k < |reports| && reports[k] == others[i];
    }
  }

  lemma AcceptanceKept(reports: seq<Report>, others: seq<Report>)
    requires multiset(reports) == multiset(others) && Acceptable(reports)
    ensures Acceptable(others)
  {
    hide Regular, OneSetting;
    OneSettingIgnoresOrder(reports, others);
    RegularIgnoresOrder(reports, others);
  }

  /**
   Whether a campaign is accepted does not depend on the order in which the reports are listed, and nor
   does its evidence.
   */
  lemma EvidenceIgnoresOrder(reports: seq<Report>, others: seq<Report>, metric: Metric)
    requires multiset(reports) == multiset(others)
    ensures Acceptable(reports) <==> Acceptable(others)
    ensures Regular(reports) ==> Regular(others) && RowsOf(reports, metric) == RowsOf(others, metric)
  {
    hide Acceptable, Regular;
    if Acceptable(reports) {
      AcceptanceKept(reports, others);
    }
    if Acceptable(others) {
      AcceptanceKept(others, reports);
    }
    if Regular(reports) {
      RegularIgnoresOrder(reports, others);
      RowsIgnoreOrder(reports, others, metric);
    }
  }

  lemma RowsIgnoreOrder(reports: seq<Report>, others: seq<Report>, metric: Metric)
    requires multiset(reports) == multiset(others) && Regular(reports) && Regular(others)
    ensures RowsOf(reports, metric) == RowsOf(others, metric)
  {
    forall k: nat | 1 <= k <= EXPECTED_ROUNDS
      ensures k in Rounds() && RowOf(reports, k, metric) == RowOf(others, k, metric)
    {
      CellIgnoresOrder(reports, others, k, A1);
      CellIgnoresOrder(reports, others, k, B1);
      CellIgnoresOrder(reports, others, k, B2);
      CellIgnoresOrder(reports, others, k, A2);
      hide Cell, Regular, Rounds;
      RoundsAre(k);
    }
  }

  // ----- The verifier -----

  type RoundMap = map<nat, map<Slot, Report>>

  /** Every one of the first n reports is in the map. */
  ghost predicate Filed(byRound: RoundMap, reports: seq<Report>, n: nat)
    requires n <= |reports|
  {
    forall i :: 0 <= i < n ==>
      && reports[i].round in byRound && reports[i].slot in byRound[reports[i].round]
      && byRound[reports[i].round][reports[i].slot] == reports[i]
  }

  /** Every entry of the map is one of the first n reports. */
  ghost predicate Backed(byRound: RoundMap, reports: seq<Report>, n: nat)
    requires n <= |reports|
  {
    && (forall round, slot :: round in byRound && slot in byRound[round] ==>
          byRound[round][slot] in reports[..n] && byRound[round][slot].round == round &&
              byRound[round][slot].slot == slot)
    && (forall round :: round in byRound ==> byRound[round] != map[])
  }

  /** The map holds exactly the first n reports, by round and slot. */
  ghost predicate Holds(byRound: RoundMap, reports: seq<Report>, n: nat)
    requires n <= |reports|
  {
    DistinctCells(reports[..n]) && Filed(byRound, reports, n) && Backed(byRound, reports, n)
  }

  /** Reports by round and slot, unless a cell is filled twice. */
  method CollectRounds(reports: seq<Report>) returns (r: Option<RoundMap>)
    ensures r.Some? <==> DistinctCells(reports)
    ensures r.Some? ==> Holds(r.value, reports, |reports|)
  {
    hide Holds;
    var byRound: RoundMap := map[];
    HoldsNothing(reports);
    for i := 0 to |reports|
      invariant Holds(byRound, reports, i)
    {
      var report := reports[i];
      var slots := if report.round in byRound then byRound[report.round] else map[];
      HoldsStep(byRound, reports, i, slots);
      if report.slot in slots {
        return None;
      }
      byRound := byRound[report.round := slots[report.slot := report]];
    }
    AllDistinct(byRound, reports);
    return Some(byRound);
  }

  lemma HoldsNothing(reports: seq<Report>)
    ensures Holds(map[], reports, 0)
  {
  }

  lemma AllDistinct(byRound: RoundMap, reports: seq<Report>)
    requires Holds(byRound, reports, |reports|)
    ensures DistinctCells(reports)
  {
    assert reports[..|reports|] == reports;
  }

  /** Filing one more report: a filled cell means a duplicate, an empty one keeps the map right. */
  lemma HoldsStep(byRound: RoundMap, reports: seq<Report>, i: nat, slots: map<Slot, Report>)
    requires i < |reports| && Holds(byRound, reports, i)
    requires slots == if reports[i].round in byRound then byRound[reports[i].round] else map[]
    ensures reports[i].slot in slots ==> !DistinctCells(reports)
    ensures reports[i].slot !in slots ==>
              Holds(byRound[reports[i].round := slots[reports[i].slot := reports[i]]], reports, i + 1)
  {
    var report := reports[i];
    if report.slot in slots {
      var k :| 0 <= k < i && reports[..i][k] == slots[report.slot];
      assert reports[k] == slots[report.slot];
    } else {
      hide DistinctCells, Filed, Backed;
      FreshCell(byRound, reports, i);
      FiledStep(byRound, reports, i, slots);
      BackedStep(byRound, reports, i, slots);
    }
  }

  lemma FiledStep(byRound: RoundMap, reports: seq<Report>, i: nat, slots: map<Slot, Report>)
    requires i < |reports| && Filed(byRound, reports, i)
    requires slots == if reports[i].round in byRound then byRound[reports[i].round] else map[]
    requires reports[i].slot !in slots
    ensures Filed(byRound[reports[i].round := slots[reports[i].slot := reports[i]]], reports, i + 1)
  {
  }

  lemma BackedStep(byRound: RoundMap, reports: seq<Report>, i: nat, slots: map<Slot, Report>)
    requires i < |reports| && Backed(byRound, reports, i)
    requires slots == if reports[i].round in byRound then byRound[reports[i].round] else map[]
    ensures Backed(byRound[reports[i].round := slots[reports[i].slot := reports[i]]], reports, i + 1)
  {
    assert reports[..i + 1] == reports[..i] + [reports[i]];
    var filled := slots[reports[i].slot := reports[i]];
    assert reports[i].slot in filled;
  }

  lemma FreshCell(byRound: RoundMap, reports: seq<Report>, i: nat)
    requires i < |reports| && DistinctCells(reports[..i]) && Filed(byRound, reports, i)
    requires reports[i].round !in byRound || reports[i].slot !in byRound[reports[i].round]
    ensures DistinctCells(reports[..i + 1])
  {
    assert DistinctCells(reports[..i]);
    forall j, k | 0 <= j < k < i + 1
      ensures !(reports[j].round == reports[k].round && reports[j].slot == reports[k].slot)
    {
      assert k < i ==> reports[..i][j] == reports[j] && reports[..i][k] == reports[k];
    }
  }

  /** One row per round, each computed from its slots. */
  ghost predicate RowsFrom(rows: seq<Round>, byRound: RoundMap, metric: Metric) {
    && |rows| == EXPECTED_ROUNDS
    && forall k: nat :: 1 <= k <= EXPECTED_ROUNDS ==>
         k in byRound && RoundAcceptable(byRound[k], metric) && rows[k - 1] == RoundFrom(k, byRound[k], metric)
  }

  /** The rows of one metric, or nothing if a round lacks a slot, has a wrong mode or a bad timing. */
  method RoundEvidence(byRound: RoundMap, metric: Metric) returns (r: Option<seq<Round>>)
    requires byRound.Keys == Rounds()
    ensures r.Some? <==> AllRounds(byRound, metric)
    ensures r.Some? ==> RowsFrom(r.value, byRound, metric)
  {
    hide Rounds, RoundAcceptable, RoundFrom;
    var rows: seq<Round> := [];
    for k := 1 to EXPECTED_ROUNDS + 1
      invariant |rows| == k - 1
      invariant forall j: nat :: 1 <= j < k ==>
                  j in byRound && RoundAcceptable(byRound[j], metric)
                  && rows[j - 1] == RoundFrom(j, byRound[j], metric)
    {
      RoundsAre(k);
      var slots := byRound[k];
      if !RoundAcceptable(slots, metric) {
        return None;
      }
      rows := rows + [RoundFrom(k, slots, metric)];
    }
    forall k | k in Rounds()
      ensures 1 <= k <= EXPECTED_ROUNDS
    {
      RoundsAre(k);
    }
    return Some(rows);
  }

  predicate RoundAcceptable(slots: map<Slot, Report>, metric: Metric) {
    && slots.Keys == Slots()
    && slots[A1].mode == slots[A2].mode == Reference
    && slots[B1].mode == slots[B2].mode == Candidate
    && 0.0 < slots[A1].Value(metric) && 0.0 < slots[B1].Value(metric)
    && 0.0 < slots[B2].Value(metric) && 0.0 < slots[A2].Value(metric)
  }

  function RoundFrom(round: nat, slots: map<Slot, Report>, metric: Metric): Round
    requires RoundAcceptable(slots, metric)
  {
    RoundOf(round, slots[A1].Value(metric), slots[B1].Value(metric), slots[B2].Value(metric), slots[A2].Value(metric))
  }

  datatype Evidence = Evidence(gpu: seq<Round>, wall: seq<Round>, request: seq<Round>)

  ghost predicate AllRounds(byRound: RoundMap, metric: Metric) {
    forall k: nat :: k in byRound ==> RoundAcceptable(byRound[k], metric)
  }

  /** In an acceptable campaign, the map holds a good report at every cell. */
  lemma CellFilled(byRound: RoundMap, reports: seq<Report>, k: nat, slot: Slot)
    requires Holds(byRound, reports, |reports|) && Regular(reports) && k in Rounds() && slot in Slots()
    ensures k in byRound && slot in byRound[k] && ReportOk(byRound[k][slot]) && byRound[k][slot].slot == slot
  {
    hide Rounds, Slots, ReportOk;
    assert HasCell(reports, k, slot);
    var r := Cell(reports, k, slot);
    var i :| 0 <= i < |reports| && reports[i] == r;
  }

  lemma OnlyCells(byRound: RoundMap, reports: seq<Report>, k: nat, slot: Slot)
    requires Holds(byRound, reports, |reports|) && Regular(reports) && k in byRound && slot in byRound[k]
    ensures k in Rounds() && slot in Slots()
  {
    hide Rounds, Slots, ReportOk;
    assert reports[..|reports|] == reports;
    assert byRound[k][slot] in reports;
  }

  lemma RoundFilled(byRound: RoundMap, reports: seq<Report>, k: nat, metric: Metric)
    requires Holds(byRound, reports, |reports|) && Regular(reports) && k in Rounds()
    ensures k in byRound && RoundAcceptable(byRound[k], metric)
  {
    hide Rounds, Holds, Regular;
    CellFilled(byRound, reports, k, A1);
    CellFilled(byRound, reports, k, B1);
    CellFilled(byRound, reports, k, B2);
    CellFilled(byRound, reports, k, A2);
    forall slot | slot in byRound[k]
      ensures slot in Slots()
    {
      OnlyCells(byRound, reports, k, slot);
    }
    assert byRound[k].Keys == Slots();
  }

  /** An acceptable campaign fills every cell of the map. */
  lemma RegularFills(byRound: RoundMap, reports: seq<Report>, metric: Metric)
    requires Holds(byRound, reports, |reports|) && Regular(reports)
    ensures byRound.Keys == Rounds() && AllRounds(byRound, metric)
  {
    hide Rounds, Slots, Regular, RoundAcceptable;
    forall k | k in byRound
      ensures k in Rounds()
    {
      var slot :| slot in byRound[k];
      OnlyCells(byRound, reports, k, slot);
    }
    forall k | k in Rounds()
      ensures k in byRound && RoundAcceptable(byRound[k], metric)
    {
      RoundFilled(byRound, reports, k, metric);
    }
  }

  /** A map whose rounds are all in order for every metric came from a regular campaign. */
  lemma FilledIsRegular(byRound: RoundMap, reports: seq<Report>)
    requires Holds(byRound, reports, |reports|) && byRound.Keys == Rounds()
    requires AllRounds(byRound, GenerationGpu) && AllRounds(byRound, GenerationWall) && AllRounds(byRound, RequestTotal)
    ensures Regular(reports)
  {
    hide Rounds, RoundAcceptable, ReportOk;
    assert reports[..|reports|] == reports;
    forall r | r in reports
      ensures r.round in Rounds() && r.slot in Slots() && ReportOk(r)
    {
      var i :| 0 <= i < |reports| && reports[i] == r;
      GoodRound(byRound[r.round], r);
    }
    forall round, slot | round in Rounds() && slot in Slots()
      ensures HasCell(reports, round, slot)
    {
      AcceptableKeys(byRound[round]);
      assert byRound[round][slot] in reports;
    }
  }

  lemma GoodRound(slots: map<Slot, Report>, r: Report)
    requires RoundAcceptable(slots, GenerationGpu) && RoundAcceptable(slots, GenerationWall)
    requires RoundAcceptable(slots, RequestTotal) && r.slot in slots && slots[r.slot] == r
    ensures r.slot in Slots() && ReportOk(r)
  {
    assert r.Value(GenerationGpu) == r.gpuMs && r.Value(GenerationWall) == r.wallMs &&
        r.Value(RequestTotal) == r.requestMs;
  }

  lemma AcceptableKeys(slots: map<Slot, Report>)
    requires RoundAcceptable(slots, GenerationGpu)
    ensures slots.Keys == Slots()
  {
  }

  lemma RowMatches(byRound: RoundMap, reports: seq<Report>, k: nat, metric: Metric)
    requires Holds(byRound, reports, |reports|)
    requires Regular(reports) && k in Rounds() && k in byRound && RoundAcceptable(byRound[k], metric)
    ensures RoundFrom(k, byRound[k], metric) == RowOf(reports, k, metric)
  {
    forall slot | slot in Slots()
      ensures HasCell(reports, k, slot) && byRound[k][slot] == Cell(reports, k, slot)
    {
      hide Rounds, Regular;
      assert reports[..|reports|] == reports;
      assert byRound[k][slot] in reports;
      CellUnique(reports, byRound[k][slot]);
    }
  }

  lemma RowsMatch(byRound: RoundMap, reports: seq<Report>, metric: Metric, rows: seq<Round>)
    requires Holds(byRound, reports, |reports|) && Regular(reports) && RowsFrom(rows, byRound, metric)
    ensures rows == RowsOf(reports, metric)
  {
    hide Rounds, Regular, Holds, RoundAcceptable, RoundFrom, RowOf;
    forall i | 0 <= i < EXPECTED_ROUNDS
      ensures i + 1 in Rounds() && rows[i] == RowOf(reports, i + 1, metric)
    {
      var k := i + 1;
      assert rows[k - 1] == RoundFrom(k, byRound[k], metric);
      RoundsAre(k);
      RowMatches(byRound, reports, k, metric);
    }
  }

  /**
   The campaign check.  It accepts exactly the bijections onto six rounds of four slots with
   the right modes, positive timings, one environment and one plan, and its rows are those of
   the cells.
   */
  method ValidateCampaign(reports: seq<Report>) returns (r: Option<Evidence>)
    ensures r.Some? <==> Acceptable(reports)
    ensures r.Some? ==> r.value == Evidence(RowsOf(reports, GenerationGpu), RowsOf(reports, GenerationWall),
                                            RowsOf(reports, RequestTotal))
  {
    hide Regular, Holds, RowsOf, RoundFrom, RoundAcceptable;
    if |reports| != EXPECTED_REPORTS {
      return None;
    }
    for i := 0 to |reports|
      invariant forall k :: 0 <= k < i ==>
                  reports[k].environment == reports[0].environment && reports[k].plan == reports[0].plan
    {
      if reports[i].environment != reports[0].environment || reports[i].plan != reports[0].plan {
        return None;
      }
    }
    var collected := CollectRounds(reports);
    if collected.None? {
      RegularIsDistinct(reports);
      return None;
    }
    r := CampaignRows(collected.value, reports);
  }

  lemma RegularIsDistinct(reports: seq<Report>)
    ensures Regular(reports) ==> DistinctCells(reports)
  {
  }

  method CampaignRows(byRound: RoundMap, reports: seq<Report>) returns (r: Option<Evidence>)
    requires Holds(byRound, reports, |reports|)
    ensures r.Some? <==> Regular(reports)
    ensures r.Some? ==> r.value == Evidence(RowsOf(reports, GenerationGpu), RowsOf(reports, GenerationWall),
                                            RowsOf(reports, RequestTotal))
  {
    hide Regular, Holds, RowsOf, RoundFrom, RoundAcceptable, AllRounds;
    assert reports[..|reports|] == reports;
    if Regular(reports) {
      RegularFills(byRound, reports, GenerationGpu);
      RegularFills(byRound, reports, GenerationWall);
      RegularFills(byRound, reports, RequestTotal);
    }
    if byRound.Keys != Rounds() {
      return None;
    }
    var gpu := RoundEvidence(byRound, GenerationGpu);
    var wall := RoundEvidence(byRound, GenerationWall);
    var request := RoundEvidence(byRound, RequestTotal);
    if gpu.None? || wall.None? || request.None? {
      return None;
    }
    FilledIsRegular(byRound, reports);
    RowsMatch(byRound, reports, GenerationGpu, gpu.value);
    RowsMatch(byRound, reports, GenerationWall, wall.value);
    RowsMatch(byRound, reports, RequestTotal, request.value);
    return Some(Evidence(gpu.value, wall.value, request.value));
  }

  // ----- The evidence and the eligibility rule -----

  /** A round's paired improvement is the mean of its two order-wise improvements, weighted by reference time. */
  lemma PairedIsWeightedMean(round: nat, a1: real, b1: real, b2: real, a2: real)
    requires 0.0 < a1 && 0.0 < a2
    ensures var r := RoundOf(round, a1, b1, b2, a2);
            r.paired == (a1 * r.ab + a2 * r.ba) / (a1 + a2)
  {
    var r := RoundOf(round, a1, b1, b2, a2);
    var half := (a1 + a2) / 2.0;
    assert r.ab * a1 == a1 - b1 && r.ba * a2 == a2 - b2;
    QuotientScales(half - (b1 + b2) / 2.0, half, 2.0);
  }

  datatype MetricSummary = MetricSummary(wins: nat, losses: nat, ties: nat, atOrAboveFloor: nat,
                                         medianPaired: real, medianAb: real, medianBa: real)

  function Count(s: seq<real>, p: real -> bool): (n: nat)
    ensures n <= |s|
  {
    if s == [] then 0 else (if p(s[0]) then 1 else 0) + Count(s[1..], p)
  }

  lemma {:induction false} CountExtremes(s: seq<real>, p: real -> bool)
    ensures Count(s, p) == |s| <==> forall i :: 0 <= i < |s| ==> p(s[i])
    ensures Count(s, p) == 0 <==> forall i :: 0 <= i < |s| ==> !p(s[i])
  {
    if s != [] {
      CountExtremes(s[1..], p);
      assert forall i :: 1 <= i < |s| ==> s[i] == s[1..][i - 1];
      assert forall i :: 0 <= i < |s| - 1 ==> s[1..][i] == s[i + 1];
    }
  }

  function Paired(rows: seq<Round>): seq<real> {
    seq(|rows|, i requires 0 <= i < |rows| => rows[i].paired)
  }

  function ForwardOrder(rows: seq<Round>): seq<real> {
    seq(|rows|, i requires 0 <= i < |rows| => rows[i].ab)
  }

  function ReverseOrder(rows: seq<Round>): seq<real> {
    seq(|rows|, i requires 0 <= i < |rows| => rows[i].ba)
  }

  function SummarizeRounds(rows: seq<Round>): MetricSummary
    requires rows != []
  {
    var paired := Paired(rows);
    MetricSummary(Count(paired, x => x > 0.0), Count(paired, x => x < 0.0), Count(paired, x => x == 0.0),
                  Count(paired, x => x >= MIN_REVIEW_EFFECT), Median(paired),
                  Median(ForwardOrder(rows)), Median(ReverseOrder(rows)))
  }

  predicate ReviewEligible(s: MetricSummary) {
    && s.wins == EXPECTED_ROUNDS && s.losses == 0 && s.ties == 0
    && s.atOrAboveFloor == EXPECTED_ROUNDS
    && s.medianPaired >= MIN_REVIEW_EFFECT
    && s.medianAb > 0.0 && s.medianBa > 0.0
  }

  /**
   Seven conditions say three things: every one of the six paired improvements reaches the floor,
   and the medians of both orders are positive.
   */
  lemma ReviewEligibleMeaning(rows: seq<Round>)
    requires |rows| == EXPECTED_ROUNDS
    ensures ReviewEligible(SummarizeRounds(rows)) <==>
            && (forall i :: 0 <= i < |rows| ==> rows[i].paired >= MIN_REVIEW_EFFECT)
            && Median(ForwardOrder(rows)) > 0.0 && Median(ReverseOrder(rows)) > 0.0
  {
    var paired := Paired(rows);
    CountExtremes(paired, x => x > 0.0);
    CountExtremes(paired, x => x < 0.0);
    CountExtremes(paired, x => x == 0.0);
    CountExtremes(paired, x => x >= MIN_REVIEW_EFFECT);
    hide Median, Count;
    assert forall i :: 0 <= i < |rows| ==> paired[i] == rows[i].paired;
    if forall i :: 0 <= i < |rows| ==> rows[i].paired >= MIN_REVIEW_EFFECT {
      MedianInRange(paired, MIN_REVIEW_EFFECT);
    }
  }

  // ----- What rows and summaries hold -----

  /** The time of a report that a metric is about. */
  lemma RowSays(reports: seq<Report>, round: nat, metric: Metric, r: Report)
    requires Regular(reports) && round in Rounds() && r in reports && r.round == round
    ensures var row := RowOf(reports, round, metric);
            var t := if metric == GenerationGpu then r.gpuMs
                     else if metric == GenerationWall then r.wallMs else r.requestMs;
            && row.round == round
            && (r.slot == A1 ==> row.a1 == t) && (r.slot == B1 ==> row.b1 == t)
            && (r.slot == B2 ==> row.b2 == t) && (r.slot == A2 ==> row.a2 == t)
  {
    hide Rounds, Slots, ReportOk;
    CellUnique(reports, r);
    assert r.slot in Slots();
    assert HasCell(reports, round, A1) && HasCell(reports, round, B1) by { SlotsAre(); }
    assert HasCell(reports, round, B2) && HasCell(reports, round, A2) by { SlotsAre(); }
  }

  lemma SlotsAre()
    ensures A1 in Slots() && B1 in Slots() && B2 in Slots() && A2 in Slots()
  {
  }

  /** The three improvements of a round: over both reference times, over the first, and over the last. */
  lemma RoundSays(round: nat, a1: real, b1: real, b2: real, a2: real)
    requires 0.0 < a1 && 0.0 < a2
    ensures var r := RoundOf(round, a1, b1, b2, a2);
            && r.a1 == a1 && r.b1 == b1 && r.b2 == b2 && r.a2 == a2
            && r.paired * (a1 + a2) == (a1 + a2) - (b1 + b2)
            && r.ab * a1 == a1 - b1 && r.ba * a2 == a2 - b2
  {
    var reference, candidate := (a1 + a2) / 2.0, (b1 + b2) / 2.0;
    var q := (reference - candidate) / reference;
    assert q * reference == reference - candidate;
    assert q * (2.0 * reference) == 2.0 * (q * reference);
  }

  lemma {:induction false} CountSnoc(s: seq<real>, x: real, p: real -> bool)
    ensures Count(s + [x], p) == Count(s, p) + (if p(x) then 1 else 0)
  {
    if s == [] {
      assert ([] + [x])[1..] == [];
    } else {
      CountSnoc(s[1..], x, p);
      assert (s + [x])[1..] == s[1..] + [x];
    }
  }

  function Where(s: seq<real>, p: real -> bool, n: nat): set<nat>
    requires n <= |s|
  {
    set i: nat | i < n && p(s[i])
  }

  lemma {:induction false} CountIsNumber(s: seq<real>, p: real -> bool, n: nat)
    requires n <= |s|
    ensures Count(s[..n], p) == |Where(s, p, n)|
  {
    if n > 0 {
      CountIsNumber(s, p, n - 1);
      CountSnoc(s[..n - 1], s[n - 1], p);
      assert s[..n] == s[..n - 1] + [s[n - 1]];
      assert Where(s, p, n) == Where(s, p, n - 1) + (if p(s[n - 1]) then {n - 1} else {});
    }
  }

  /**
   The summary of some rounds: how many paired improvements are above, below and at zero, and how many
   reach the floor; and the medians of the paired, the first and the second improvements.
   */
  lemma SummarySays(rows: seq<Round>, paired: seq<real>, first: seq<real>, second: seq<real>)
    requires rows != [] && |paired| == |first| == |second| == |rows|
    requires forall i :: 0 <= i < |rows| ==>
               paired[i] == rows[i].paired && first[i] == rows[i].ab && second[i] == rows[i].ba
    ensures var s := SummarizeRounds(rows);
            && s.wins == |set i: nat | i < |rows| && rows[i].paired > 0.0|
            && s.losses == |set i: nat | i < |rows| && rows[i].paired < 0.0|
            && s.ties == |set i: nat | i < |rows| && rows[i].paired == 0.0|
            && s.atOrAboveFloor == |set i: nat | i < |rows| && rows[i].paired >= 0.03|
            && s.medianPaired == Median(paired) && s.medianAb == Median(first) && s.medianBa == Median(second)
  {
    hide Median, Count;
    assert Paired(rows) == paired && ForwardOrder(rows) == first && ReverseOrder(rows) == second;
    assert paired[..|paired|] == paired;
    CountIsNumber(paired, x => x > 0.0, |paired|);
    CountIsNumber(paired, x => x < 0.0, |paired|);
    CountIsNumber(paired, x => x == 0.0, |paired|);
    CountIsNumber(paired, x => x >= MIN_REVIEW_EFFECT, |paired|);
    assert Where(paired, x => x > 0.0, |paired|) == set i: nat | i < |rows| && rows[i].paired > 0.0;
    assert Where(paired, x => x < 0.0, |paired|) == set i: nat | i < |rows| && rows[i].paired < 0.0;
    assert Where(paired, x => x == 0.0, |paired|) == set i: nat | i < |rows| && rows[i].paired == 0.0;
    assert Where(paired, x => x >= MIN_REVIEW_EFFECT, |paired|)
        == set i: nat | i < |rows| && rows[i].paired >= 0.03;
  }
}
