/**
 The rounds and the report of the massive ABBA harness, and when a campaign is complete.
 */
module MassiveCampaign {
  import opened MassiveHarness
  import opened Wrappers
  import Suite = ReferenceSuite

  datatype RoundReport = RoundReport(round: nat, reverse: bool, blocks: seq<BlockReport>, evidence: seq<PairedEvidence>)

  datatype CandidateReport = CandidateReport(candidate: Plan, rounds: seq<RoundReport>)

  datatype Report = Report(caseCount: nat, roundsPerCandidate: nat, candidates: seq<Plan>,
                           reports: seq<CandidateReport>, complete: bool)

  const SLOTS: seq<Slot> := [A1, B1, B2, A2]

  /** The reference runs first and last, the candidate twice in between. */
  function PlanAt(s: nat, candidate: Plan): Plan {
    if s == 1 || s == 2 then candidate else Reference
  }

  /** The devices of a run: by candidate, round and slot. */
  type Devices = (nat, nat, nat) -> Device

  predicate RoundComplete(r: RoundReport) {
    && (forall s :: 0 <= s < |r.blocks| ==> r.blocks[s].success)
    && forall i :: 0 <= i < |r.evidence| ==> r.evidence[i].complete
  }

  ghost predicate RoundOf(r: RoundReport, devices: Devices, c: nat, n: nat, k: Campaign)
    requires Decodes(k.cases) && c < |k.candidates|
  {
    && r.round == n && r.reverse == (n % 2 == 1)
    && |r.blocks| == 4
    && (forall s :: 0 <= s < 4 ==>
          BlockOf(r.blocks[s], devices(c, n, s), PlanAt(s, k.candidates[c]), SLOTS[s], n % 2 == 1, k))
    && r.evidence == SummarizeRound(k.candidates[c], r.blocks, k.cases)
  }

  ghost predicate CandidateOf(r: CandidateReport, devices: Devices, c: nat, k: Campaign)
    requires Decodes(k.cases) && c < |k.candidates|
  {
    && r.candidate == k.candidates[c] && |r.rounds| == k.rounds
    && forall n :: 0 <= n < |r.rounds| ==> RoundOf(r.rounds[n], devices, c, n, k)
  }

  predicate CandidateComplete(r: CandidateReport) {
    forall n :: 0 <= n < |r.rounds| ==> RoundComplete(r.rounds[n])
  }

  ghost predicate ReportOf(r: Report, devices: Devices, k: Campaign)
    requires Decodes(k.cases)
  {
    && r.caseCount == |k.cases| && r.roundsPerCandidate == k.rounds && r.candidates == k.candidates
    && |r.reports| == |k.candidates|
    && (forall c :: 0 <= c < |r.reports| ==> CandidateOf(r.reports[c], devices, c, k))
    && (r.complete <==> forall c :: 0 <= c < |r.reports| ==> CandidateComplete(r.reports[c]))
  }

  /** One ABBA round: four blocks over the cases in one order, and their paired evidence. */
  method RunRound(devices: Devices, c: nat, n: nat, k: Campaign) returns (r: RoundReport)
    requires Decodes(k.cases) && c < |k.candidates|
    ensures RoundOf(r, devices, c, n, k)
    ensures r.round == n && (r.reverse <==> n % 2 == 1) && |r.blocks| == 4
    ensures r.blocks[0].plan == r.blocks[3].plan == Reference
    ensures r.blocks[1].plan == r.blocks[2].plan == k.candidates[c]
    ensures r.blocks[0].slot == A1 && r.blocks[1].slot == B1 && r.blocks[2].slot == B2 && r.blocks[3].slot == A2
  {
    hide Outcome;
    var reverse := n % 2 == 1;
    var candidate := k.candidates[c];
    var a1 := RunBlock(devices(c, n, 0), Reference, A1, reverse, k);
    var b1 := RunBlock(devices(c, n, 1), candidate, B1, reverse, k);
    var b2 := RunBlock(devices(c, n, 2), candidate, B2, reverse, k);
    var a2 := RunBlock(devices(c, n, 3), Reference, A2, reverse, k);
    var blocks := [a1, b1, b2, a2];
    return RoundReport(n, reverse, blocks, SummarizeRound(candidate, blocks, k.cases));
  }

  /** The rounds of one candidate, and whether each of them is complete. */
  method RunCandidate(devices: Devices, c: nat, k: Campaign) returns (r: CandidateReport, complete: bool)
    requires Decodes(k.cases) && c < |k.candidates|
    ensures CandidateOf(r, devices, c, k)
    ensures complete <==> CandidateComplete(r)
  {
    hide RoundOf, RoundComplete;
    var rounds: seq<RoundReport> := [];
    complete := true;
    for n := 0 to k.rounds
      invariant |rounds| == n
      invariant forall m :: 0 <= m < n ==> RoundOf(rounds[m], devices, c, m, k)
      invariant complete <==> forall m :: 0 <= m < n ==> RoundComplete(rounds[m])
    {
      var round := RunRound(devices, c, n, k);
      if !RoundComplete(round) {
        complete := false;
      }
      ghost var before := rounds;
      rounds := rounds + [round];
      assert rounds[n] == round && forall m :: 0 <= m < n ==> before[m] == rounds[m];
    }
    r := CandidateReport(k.candidates[c], rounds);
  }

  /** `run` from the loop on: every candidate and every round reports, and completeness is theirs. */
  method Run(devices: Devices, k: Campaign) returns (r: Report)
    requires Decodes(k.cases)
    ensures ReportOf(r, devices, k)
  {
    hide CandidateOf, CandidateComplete;
    var reports: seq<CandidateReport> := [];
    var complete := true;
    for c := 0 to |k.candidates|
      invariant |reports| == c
      invariant forall d :: 0 <= d < c ==> CandidateOf(reports[d], devices, d, k)
      invariant complete <==> forall d :: 0 <= d < c ==> CandidateComplete(reports[d])
    {
      var report, allComplete := RunCandidate(devices, c, k);
      complete := complete && allComplete;
      ghost var before := reports;
      reports := reports + [report];
      assert reports[c] == report && forall d :: 0 <= d < c ==> before[d] == reports[d];
    }
    return Report(|k.cases|, k.rounds, k.candidates, reports, complete);
  }

  // ----- When a round is complete -----

  ghost predicate AllBlocksSucceed(devices: Devices, c: nat, n: nat, k: Campaign)
    requires Decodes(k.cases) && c < |k.candidates|
  {
    forall s: nat :: s < 4 ==> BlockSucceeds(devices(c, n, s), PlanAt(s, k.candidates[c]), k)
  }

  ghost predicate Series4(devices: Devices, c: nat, n: nat, j: nat, m: Metric, k: Campaign) {
    forall s: nat :: s < 4 ==> Usable(Series(devices(c, n, s).sessions(j), k.warmups, k.iterations, m))
  }

  /** The pair of a case: reference and candidate medians over the slots of each, if both are positive. */
  ghost function OwnPair(devices: Devices, c: nat, n: nat, j: nat, m: Metric, k: Campaign): Option<Pair>
    requires Series4(devices, c, n, j, m, k)
  {
    PairOf(OwnMedian(devices(c, n, 0), j, m, k), OwnMedian(devices(c, n, 1), j, m, k),
           OwnMedian(devices(c, n, 2), j, m, k), OwnMedian(devices(c, n, 3), j, m, k))
  }

  /** Whatever the case order, each block contributes the case's own median, and the GPU pair always exists. */
  lemma PairsAreOwn(r: RoundReport, devices: Devices, c: nat, n: nat, k: Campaign, j: nat, m: Metric)
    requires Decodes(k.cases) && Suite.DistinctNames(k.cases) && c < |k.candidates| && j < |k.cases|
    requires RoundOf(r, devices, c, n, k) && AllBlocksSucceed(devices, c, n, k)
    ensures Series4(devices, c, n, j, m, k)
    ensures PairedMetric(r.blocks, k.cases[j].name, m) == OwnPair(devices, c, n, j, m, k)
    ensures m == Gpu ==> OwnPair(devices, c, n, j, m, k).Some?
  {
    hide BlockOf, BlockSucceeds, LookUp, OwnMedian, Usable;
    forall s: nat | s < 4
      ensures Usable(Series(devices(c, n, s).sessions(j), k.warmups, k.iterations, m))
      ensures LookUp(r.blocks[s], k.cases[j].name, m) == Some(OwnMedian(devices(c, n, s), j, m, k))
      ensures m == Gpu ==> OwnMedian(devices(c, n, s), j, m, k) > 0.0
    {
      LookUpIsOwnMedian(r.blocks[s], devices(c, n, s), PlanAt(s, k.candidates[c]), SLOTS[s], n % 2 == 1, k, j, m);
    }
  }

  /** The medians of one metric of one case over the four blocks of a round. */
  datatype Four = Four(a1: real, b1: real, b2: real, a2: real)

  ghost function Medians(devices: Devices, c: nat, n: nat, j: nat, m: Metric, k: Campaign): (q: Four)
    requires Series4(devices, c, n, j, m, k)
    ensures q.a1 == OwnMedian(devices(c, n, 0), j, m, k) && q.b1 == OwnMedian(devices(c, n, 1), j, m, k)
    ensures q.b2 == OwnMedian(devices(c, n, 2), j, m, k) && q.a2 == OwnMedian(devices(c, n, 3), j, m, k)
  {
    Four(OwnMedian(devices(c, n, 0), j, m, k), OwnMedian(devices(c, n, 1), j, m, k),
         OwnMedian(devices(c, n, 2), j, m, k), OwnMedian(devices(c, n, 3), j, m, k))
  }

  /** A pair of four medians: the means of the outer two and of the inner two, if both are positive. */
  ghost predicate PairsMedians(pair: Option<Pair>, q: Four) {
    && (pair.Some? <==> q.a1 + q.a2 > 0.0 && q.b1 + q.b2 > 0.0)
    && (pair.Some? ==>
          && 2.0 * pair.value.reference == q.a1 + q.a2 && 2.0 * pair.value.candidate == q.b1 + q.b2
          && pair.value.improvement * (q.a1 + q.a2) == (q.a1 + q.a2) - (q.b1 + q.b2))
  }

  lemma PairOfMedians(q: Four)
    ensures PairsMedians(PairOf(q.a1, q.b1, q.b2, q.a2), q)
  {
    var reference, candidate := (q.a1 + q.a2) / 2.0, (q.b1 + q.b2) / 2.0;
    if reference > 0.0 {
      var x := (reference - candidate) / reference;
      assert x * reference == reference - candidate;
      assert x * (2.0 * reference) == 2.0 * (x * reference);
    }
  }

  /**
   In a round whose blocks all succeed, the evidence of a case is its own: under its name and the
   candidate's, each metric pairs the medians of that metric of that case over the four blocks.
   */
  lemma EvidenceIsOwn(r: RoundReport, devices: Devices, c: nat, n: nat, k: Campaign, j: nat)
    requires Decodes(k.cases) && Suite.DistinctNames(k.cases) && c < |k.candidates| && j < |k.cases|
    requires RoundOf(r, devices, c, n, k) && AllBlocksSucceed(devices, c, n, k)
    ensures |r.evidence| == |k.cases|
    ensures forall m :: Series4(devices, c, n, j, m, k)
    ensures var e := r.evidence[j];
            && e.caseName == k.cases[j].name && e.candidate == k.candidates[c]
            && PairsMedians(e.gpu, Medians(devices, c, n, j, Gpu, k))
            && PairsMedians(e.wall, Medians(devices, c, n, j, Wall, k))
            && PairsMedians(e.request, Medians(devices, c, n, j, Request, k))
            && e.gpu.Some? && (e.complete <==> e.wall.Some? && e.request.Some?)
  {
    hide AllBlocksSucceed, PairedMetric, RoundOf, OwnMedian, PairOf, PairsMedians, Usable, Decodes, Medians;
    EvidenceCoversCases(r, devices, c, n, k);
    forall m
      ensures Series4(devices, c, n, j, m, k)
      ensures PairedMetric(r.blocks, k.cases[j].name, m) == OwnPair(devices, c, n, j, m, k)
      ensures m == Gpu ==> OwnPair(devices, c, n, j, m, k).Some?
      ensures PairsMedians(OwnPair(devices, c, n, j, m, k), Medians(devices, c, n, j, m, k))
    {
      PairsAreOwn(r, devices, c, n, k, j, m);
      PairOfMedians(Medians(devices, c, n, j, m, k));
    }
  }

  ghost predicate WallPairs(devices: Devices, c: nat, n: nat, k: Campaign) {
    forall j: nat, m :: j < |k.cases| && (m == Wall || m == Request) ==>
      Series4(devices, c, n, j, m, k) && OwnPair(devices, c, n, j, m, k).Some?
  }

  /**
   A round is complete exactly when all four blocks start, every case of the suite reproduces its
   oracle on each of them, and the wall and request medians are positive on either side.
   */
  lemma RoundCompleteIff(r: RoundReport, devices: Devices, c: nat, n: nat, k: Campaign)
    requires Decodes(k.cases) && Suite.DistinctNames(k.cases) && c < |k.candidates|
    requires RoundOf(r, devices, c, n, k)
    ensures RoundComplete(r) <==> AllBlocksSucceed(devices, c, n, k) && WallPairs(devices, c, n, k)
  {
    hide AllBlocksSucceed, OwnPair, Series4, RoundOf;
    BlocksSucceedIff(r, devices, c, n, k);
    EvidenceCoversCases(r, devices, c, n, k);
    if AllBlocksSucceed(devices, c, n, k) {
      forall j: nat | j < |k.cases|
        ensures Series4(devices, c, n, j, Wall, k) && Series4(devices, c, n, j, Request, k)
        ensures r.evidence[j].complete <==>
                  OwnPair(devices, c, n, j, Wall, k).Some? && OwnPair(devices, c, n, j, Request, k).Some?
      {
        EvidenceIff(r, devices, c, n, k, j);
      }
    }
  }

  lemma EvidenceCoversCases(r: RoundReport, devices: Devices, c: nat, n: nat, k: Campaign)
    requires Decodes(k.cases) && c < |k.candidates| && RoundOf(r, devices, c, n, k)
    ensures |r.evidence| == |k.cases|
    ensures forall j :: 0 <= j < |k.cases| ==> r.evidence[j] == EvidenceOf(k.candidates[c], r.blocks, k.cases[j].name)
  {
    hide BlockOf, EvidenceOf;
  }

  lemma EvidenceIff(r: RoundReport, devices: Devices, c: nat, n: nat, k: Campaign, j: nat)
    requires Decodes(k.cases) && Suite.DistinctNames(k.cases) && c < |k.candidates| && j < |k.cases|
    requires RoundOf(r, devices, c, n, k) && AllBlocksSucceed(devices, c, n, k)
    ensures |r.evidence| == |k.cases|
    ensures Series4(devices, c, n, j, Wall, k) && Series4(devices, c, n, j, Request, k)
    ensures r.evidence[j].complete <==>
              OwnPair(devices, c, n, j, Wall, k).Some? && OwnPair(devices, c, n, j, Request, k).Some?
  {
    hide AllBlocksSucceed, OwnPair, PairedMetric, Series4, RoundOf;
    EvidenceCoversCases(r, devices, c, n, k);
    PairsAreOwn(r, devices, c, n, k, j, Gpu);
    PairsAreOwn(r, devices, c, n, k, j, Wall);
    PairsAreOwn(r, devices, c, n, k, j, Request);
  }

  lemma BlocksSucceedIff(r: RoundReport, devices: Devices, c: nat, n: nat, k: Campaign)
    requires Decodes(k.cases) && c < |k.candidates| && RoundOf(r, devices, c, n, k)
    ensures AllBlocksSucceed(devices, c, n, k) <==> forall s :: 0 <= s < |r.blocks| ==> r.blocks[s].success
  {
    hide BlockOf, BlockSucceeds;
    forall s: nat | s < 4
      ensures r.blocks[s].success <==> BlockSucceeds(devices(c, n, s), PlanAt(s, k.candidates[c]), k)
    {
      BlockSuccessIff(r.blocks[s], devices(c, n, s), PlanAt(s, k.candidates[c]), SLOTS[s], n % 2 == 1, k);
    }
  }

  ghost predicate EveryRoundWorks(devices: Devices, k: Campaign)
    requires Decodes(k.cases)
  {
    forall c: nat, n: nat :: c < |k.candidates| && n < k.rounds ==>
      AllBlocksSucceed(devices, c, n, k) && WallPairs(devices, c, n, k)
  }

  /** The campaign is complete exactly when every round of every candidate is. */
  lemma CampaignCompleteIff(r: Report, devices: Devices, k: Campaign)
    requires Decodes(k.cases) && Suite.DistinctNames(k.cases) && ReportOf(r, devices, k)
    ensures r.complete <==> EveryRoundWorks(devices, k)
  {
    hide AllBlocksSucceed, WallPairs, RoundOf, RoundComplete;
    forall c: nat, n: nat | c < |k.candidates| && n < k.rounds
      ensures RoundComplete(r.reports[c].rounds[n]) <==>
                AllBlocksSucceed(devices, c, n, k) && WallPairs(devices, c, n, k)
    {
      RoundCompleteIff(r.reports[c].rounds[n], devices, c, n, k);
    }
    if r.complete {
      forall c: nat, n: nat | c < |k.candidates| && n < k.rounds
        ensures AllBlocksSucceed(devices, c, n, k) && WallPairs(devices, c, n, k)
      {
        assert CandidateComplete(r.reports[c]);
        assert RoundComplete(r.reports[c].rounds[n]);
      }
    }
  }
}
