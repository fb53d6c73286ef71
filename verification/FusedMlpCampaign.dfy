/**
 The fused-MLP gate: raw reports named by round and plan, recomputed into paired improvements,
 and the consensus of two independent runs.
 */
module FusedMlpCampaign {
  import opened OrderStatistics
  import opened RealArithmetic
  import opened Wrappers

  const MIN_PAIRED_IMPROVEMENT: real := 0.03

  datatype Plan = Fused | FusedMlp

  type Key = (nat, Plan)

  /** A raw report; `valid` stands for its own field-by-field validation. */
  datatype RawReport = RawReport(valid: bool, medianMs: real, environment: nat, commit: string, runContext: string,
                                 warmups: nat, iterations: nat)

  /** A directory entry: its round and plan if the name matches the report pattern, and its contents. */
  datatype Entry = Entry(key: Option<Key>, report: RawReport)

  ghost predicate KeysDistinct(entries: seq<Entry>) {
    forall i, j :: 0 <= i < j < |entries| && entries[i].key.Some? ==> entries[i].key != entries[j].key
  }

  ghost predicate Listed(entries: seq<Entry>, k: Key) {
    exists i :: 0 <= i < |entries| && entries[i].key == Some(k)
  }

  /** The matching entries are exactly one per round below n and plan. */
  ghost predicate CoversRounds(entries: seq<Entry>, n: nat) {
    && n > 0 && KeysDistinct(entries)
    && forall k: Key :: Listed(entries, k) <==> k.0 < n
  }

  ghost predicate FilesOf(files: map<Key, RawReport>, entries: seq<Entry>) {
    && (forall i :: 0 <= i < |entries| && entries[i].key.Some? ==>
          entries[i].key.value in files && files[entries[i].key.value] == entries[i].report)
    && (forall k :: k in files ==> Listed(entries, k))
  }

  /** The number of leading rounds for which both reports exist. */
  method ContiguousRounds(files: map<Key, RawReport>) returns (n: nat)
    ensures forall r: nat, plan :: r < n ==> (r, plan) in files
    ensures (n, Fused) !in files || (n, FusedMlp) !in files
  {
    n := 0;
    ghost var rest := files.Keys;
    while (n, Fused) in files && (n, FusedMlp) in files
      invariant forall r: nat, plan :: r < n ==> (r, plan) in files
      invariant forall k :: k in files && k.0 >= n ==> k in rest
      decreases rest
    {
      rest := rest - {(n, Fused)};
      forall r: nat, plan: Plan | r < n + 1
        ensures (r, plan) in files
      {
        assert plan == Fused || plan == FusedMlp;
      }
      n := n + 1;
    }
  }

  /**
   `report_files`: duplicates, gaps, a missing plan or an empty directory are refused; what is
   accepted is exactly a bijection onto rounds 0 to n-1 and both plans.
   */
  method ReportFiles(entries: seq<Entry>) returns (r: Option<(map<Key, RawReport>, nat)>)
    ensures r.Some? ==> CoversRounds(entries, r.value.1) && FilesOf(r.value.0, entries)
    ensures r.None? ==> forall n :: !CoversRounds(entries, n)
  {
    var files: map<Key, RawReport> := map[];
    for i := 0 to |entries|
      invariant forall j :: 0 <= j < i && entries[j].key.Some? ==>
                  entries[j].key.value in files && files[entries[j].key.value] == entries[j].report
      invariant forall k :: k in files ==> exists j :: 0 <= j < i && entries[j].key == Some(k)
      invariant forall j, l :: 0 <= j < l < i && entries[j].key.Some? ==> entries[j].key != entries[l].key
    {
      var entry := entries[i];
      if entry.key.Some? {
        if entry.key.value in files {
          return None;
        }
        files := files[entry.key.value := entry.report];
      }
    }
    assert FilesOf(files, entries);
    var n := ContiguousRounds(files);
    forall k: Key
      ensures Listed(entries, k) <==> k in files
    {
    }
    if n == 0 || exists k :: k in files && k.0 >= n {
      forall m
        ensures !CoversRounds(entries, m)
      {
        if CoversRounds(entries, m) {
          CountIsContiguous(entries, files, n, m);
        }
      }
      return None;
    }
    return Some((files, n));
  }

  /** If the entries cover m rounds, the leading complete rounds are exactly those m, and nothing is beyond. */
  lemma CountIsContiguous(entries: seq<Entry>, files: map<Key, RawReport>, n: nat, m: nat)
    requires forall k: Key :: Listed(entries, k) <==> k in files
    requires forall r: nat, plan :: r < n ==> (r, plan) in files
    requires (n, Fused) !in files || (n, FusedMlp) !in files
    requires CoversRounds(entries, m)
    ensures n == m && n > 0 && forall k :: k in files ==> k.0 < n
  {
    assert Listed(entries, (n, Fused)) <==> n < m;
    assert Listed(entries, (n, FusedMlp)) <==> n < m;
    if n > 0 {
      var last: nat := n - 1;
      assert Listed(entries, (last, Fused)) <==> last < m;
      assert (last, Fused) in files;
    }
    forall k | k in files
      ensures k.0 < n
    {
      assert Listed(entries, k);
    }
  }

  // ----- The recorded execution order -----

  /** A pair as a summary records it: its round, and which plan ran first if the order is one of the two. */
  datatype RecordedPair = RecordedPair(round: int, candidateFirst: Option<bool>)

  /** An existing summary: none or one without pairs, one that cannot be used, or its pairs. */
  datatype Recorded = NoPairs | Unusable | Pairs(pairs: seq<RecordedPair>)

  /** The candidate runs first in the odd rounds. */
  predicate OrderedPair(p: RecordedPair, round: nat) {
    p.round == round && p.candidateFirst == Some(round % 2 == 1)
  }

  predicate OrderOk(recorded: Recorded, rounds: nat) {
    match recorded
    case NoPairs => true
    case Unusable => false
    case Pairs(pairs) => |pairs| == rounds && forall i :: 0 <= i < |pairs| ==> OrderedPair(pairs[i], i)
  }

  /** `validate_recorded_order`. */
  method ValidateRecordedOrder(recorded: Recorded, rounds: nat) returns (ok: bool)
    ensures ok <==> OrderOk(recorded, rounds)
    ensures recorded.NoPairs? ==> ok
    ensures recorded.Unusable? ==> !ok
    ensures recorded.Pairs? ==>
              (ok <==> |recorded.pairs| == rounds && forall i :: 0 <= i < rounds ==>
                 && recorded.pairs[i].round == i
                 && recorded.pairs[i].candidateFirst == if i % 2 == 0 then Some(false) else Some(true))
  {
    match recorded {
      case NoPairs => return true;
      case Unusable => return false;
      case Pairs(pairs) =>
        if |pairs| != rounds {
          return false;
        }
        for i := 0 to |pairs|
          invariant forall j :: 0 <= j < i ==> OrderedPair(pairs[j], j)
        {
          if !OrderedPair(pairs[i], i) {
            return false;
          }
        }
        return true;
    }
  }

  // ----- Pairs and their summary -----

  datatype Pair = Pair(round: nat, parentMs: real, candidateMs: real, improvement: real)

  datatype CampaignSummary = CampaignSummary(commit: string, runContext: string, environment: nat,
                                             rounds: nat, warmups: nat, iterations: nat, comparison: Comparison)

  datatype Comparison = Comparison(wins: nat, losses: nat, ties: nat, medianParent: real, medianCandidate: real,
                                   medianImprovement: real, meanImprovement: real,
                                   minImprovement: real, maxImprovement: real,
                                   medianParentFirst: real, medianCandidateFirst: real,
                                   speedup: real, savedMs: real, allPositive: bool, passesFloor: bool)

  function PairOf(round: nat, parent: real, candidate: real): Pair
    requires 0.0 < parent
  {
    Pair(round, parent, candidate, (parent - candidate) / parent)
  }

  /** Every report is valid with a positive median, and commit, environment, run context and counts never change. */
  ghost predicate Uniform(files: map<Key, RawReport>, n: nat) {
    forall r: nat, plan :: r < n ==>
      && (r, plan) in files && (0, Fused) in files
      && files[(r, plan)].valid && 0.0 < files[(r, plan)].medianMs
      && files[(r, plan)].commit == files[(0, Fused)].commit
      && files[(r, plan)].environment == files[(0, Fused)].environment
      && files[(r, plan)].runContext == files[(0, Fused)].runContext
      && files[(r, plan)].warmups == files[(0, Fused)].warmups
      && files[(r, plan)].iterations == files[(0, Fused)].iterations
  }

  ghost function PairsOf(files: map<Key, RawReport>, n: nat): seq<Pair>
    requires Uniform(files, n)
  {
    seq(n, r requires 0 <= r < n =>
      assert (r, Fused) in files && (r, FusedMlp) in files;
      PairOf(r, files[(r, Fused)].medianMs, files[(r, FusedMlp)].medianMs))
  }

  function Improvements(pairs: seq<Pair>): seq<real> {
    seq(|pairs|, i requires 0 <= i < |pairs| => pairs[i].improvement)
  }

  function Parents(pairs: seq<Pair>): seq<real> {
    seq(|pairs|, i requires 0 <= i < |pairs| => pairs[i].parentMs)
  }

  function Candidates(pairs: seq<Pair>): seq<real> {
    seq(|pairs|, i requires 0 <= i < |pairs| => pairs[i].candidateMs)
  }

  /**
   The improvements of the even rounds, which ran the parent first, or of the odd ones, which ran the
   candidate first.
   */
  function ByOrder(pairs: seq<Pair>, candidateFirst: bool): seq<real> {
    if pairs == [] then []
    else
      var last := pairs[|pairs| - 1];
      ByOrder(pairs[..|pairs| - 1], candidateFirst)
      + (if (last.round % 2 == 1) == candidateFirst then [last.improvement] else [])
  }

  predicate Faster(p: Pair) {
    p.candidateMs < p.parentMs
  }

  function CountFaster(pairs: seq<Pair>): (n: nat)
    ensures n <= |pairs|
    ensures n == |pairs| <==> forall i :: 0 <= i < |pairs| ==> Faster(pairs[i])
  {
    if pairs == [] then 0
    else CountFaster(pairs[..|pairs| - 1]) + (if Faster(pairs[|pairs| - 1]) then 1 else 0)
  }

  predicate AllPositive(pairs: seq<Pair>) {
    forall i :: 0 <= i < |pairs| ==> pairs[i].improvement > 0.0
  }

  /** The paired reports of all rounds, or nothing if one is invalid or drifted. */
  method CollectPairs(files: map<Key, RawReport>, n: nat) returns (r: Option<seq<Pair>>)
    requires n > 0 && forall i: nat, plan :: i < n ==> (i, plan) in files
    ensures r.Some? <==> Uniform(files, n)
    ensures r.Some? ==> r.value == PairsOf(files, n)
  {
    var first := files[(0, Fused)];
    var pairs: seq<Pair> := [];
    for i := 0 to n
      invariant Uniform(files, i)
      invariant pairs == PairsOf(files, i)
    {
      var parent, candidate := files[(i, Fused)], files[(i, FusedMlp)];
      if !Conforms(parent, first) || !Conforms(candidate, first) {
        return None;
      }
      forall r: nat, plan: Plan | r < i + 1
        ensures (r, plan) in files && Conforms(files[(r, plan)], first)
      {
        assert plan == Fused || plan == FusedMlp;
      }
      pairs := pairs + [PairOf(i, parent.medianMs, candidate.medianMs)];
    }
    return Some(pairs);
  }

  predicate Conforms(r: RawReport, first: RawReport) {
    && r.valid && 0.0 < r.medianMs && r.commit == first.commit
    && r.environment == first.environment && r.runContext == first.runContext
    && r.warmups == first.warmups && r.iterations == first.iterations
  }

  /** One report per round and plan, a recorded order that fits if there is one, one setting, and two rounds. */
  ghost predicate Recomputable(entries: seq<Entry>, recorded: Recorded, files: map<Key, RawReport>, n: nat) {
    && CoversRounds(entries, n) && FilesOf(files, entries) && OrderOk(recorded, n)
    && Uniform(files, n) && n >= 2
  }

  /**
   `recompute_campaign`.  The median of the candidate-first rounds raises when there is none, so
   a single-round campaign never yields a summary, however good its reports.
   */
  method RecomputeCampaign(entries: seq<Entry>, recorded: Recorded) returns (s: Option<CampaignSummary>)
    ensures s.Some? <==> exists files, n :: Recomputable(entries, recorded, files, n)
    ensures s.Some? ==> exists files, n ::
              Recomputable(entries, recorded, files, n) && Summarizes(s.value, PairsOf(files, n))
  {
    hide CoversRounds, FilesOf, OrderOk, Median;
    var found := ReportFiles(entries);
    if found.None? {
      return None;
    }
    var (files, n) := found.value;
    CoveredRounds(entries, files, n);
    OnlyFiles(entries, files, n);
    var ordered := ValidateRecordedOrder(recorded, n);
    if !ordered {
      return None;
    }
    var collected := CollectPairs(files, n);
    if collected.None? {
      return None;
    }
    var pairs := collected.value;
    BothOrdersRun(pairs);
    if ByOrder(pairs, true) == [] {
      return None;
    }
    PositiveMedian(Candidates(pairs));
    var first := files[(0, Fused)];
    s := Some(CampaignSummary(first.commit, first.runContext, first.environment, n, first.warmups, first.iterations,
                              Compare(pairs)));
    assert Recomputable(entries, recorded, files, n) && Summarizes(s.value, PairsOf(files, n));
  }

  function CountSlower(pairs: seq<Pair>): nat {
    if pairs == [] then 0
    else
      var last := pairs[|pairs| - 1];
      CountSlower(pairs[..|pairs| - 1]) + (if last.candidateMs > last.parentMs then 1 else 0)
  }

  /** Pairs with a statistic for everything: both orders ran, and the candidates' median divides. */
  predicate Summarizable(pairs: seq<Pair>) {
    && pairs != [] && ByOrder(pairs, false) != [] && ByOrder(pairs, true) != []
    && Median(Candidates(pairs)) != 0.0
  }

  lemma CountsCover(pairs: seq<Pair>)
    ensures CountFaster(pairs) + CountSlower(pairs) <= |pairs|
  {
  }

  /** The comparison of a recomputed campaign. */
  function Compare(pairs: seq<Pair>): Comparison
    requires Summarizable(pairs)
  {
    CountsCover(pairs);
    var wins, losses, improvements := CountFaster(pairs), CountSlower(pairs), Improvements(pairs);
    var medianParent, medianCandidate := Median(Parents(pairs)), Median(Candidates(pairs));
    Comparison(wins, losses, |pairs| - wins - losses, medianParent, medianCandidate,
               Median(improvements), Mean(improvements),
               Sorted(improvements)[0], Sorted(improvements)[|improvements| - 1],
               Median(ByOrder(pairs, false)), Median(ByOrder(pairs, true)),
               medianParent / medianCandidate, medianParent - medianCandidate,
               AllPositive(pairs), Median(improvements) >= MIN_PAIRED_IMPROVEMENT && AllPositive(pairs))
  }

  ghost predicate Summarizes(s: CampaignSummary, pairs: seq<Pair>) {
    Summarizable(pairs) && s.rounds == |pairs| && s.comparison == Compare(pairs)
  }

  lemma CoveredRounds(entries: seq<Entry>, files: map<Key, RawReport>, n: nat)
    requires CoversRounds(entries, n) && FilesOf(files, entries)
    ensures n > 0 && forall r: nat, plan :: r < n ==> (r, plan) in files
  {
    forall r: nat, plan | r < n
      ensures (r, plan) in files
    {
      assert Listed(entries, (r, plan));
    }
  }

  /** Any two file maps and round counts of the same directory agree. */
  lemma OnlyFiles(entries: seq<Entry>, files: map<Key, RawReport>, n: nat)
    requires CoversRounds(entries, n) && FilesOf(files, entries)
    ensures forall m :: CoversRounds(entries, m) ==> m == n
    ensures forall others :: FilesOf(others, entries) ==> others == files
  {
    forall m: nat | CoversRounds(entries, m)
      ensures m == n
    {
      var i: nat, j: nat := n - 1, m - 1;
      assert Listed(entries, (i, Fused)) && Listed(entries, (j, Fused));
    }
    forall others | FilesOf(others, entries)
      ensures others == files
    {
      forall k | k in files || k in others
        ensures k in files && k in others && files[k] == others[k]
      {
        assert Listed(entries, k);
        var i :| 0 <= i < |entries| && entries[i].key == Some(k);
      }
    }
  }

  /** The parent-first rounds have samples in any campaign, the candidate-first ones as soon as there are two rounds. */
  lemma {:induction false} BothOrdersRun(pairs: seq<Pair>)
    requires pairs != [] && forall i :: 0 <= i < |pairs| ==> pairs[i].round == i
    ensures ByOrder(pairs, false) != []
    ensures ByOrder(pairs, true) == [] <==> |pairs| == 1
  {
    if |pairs| > 1 {
      BothOrdersRun(pairs[..|pairs| - 1]);
    } else {
      assert pairs[..0] == [];
    }
  }

  ghost predicate FromTimings(pairs: seq<Pair>) {
    forall i :: 0 <= i < |pairs| ==>
      && 0.0 < pairs[i].parentMs && 0.0 < pairs[i].candidateMs
      && pairs[i] == PairOf(pairs[i].round, pairs[i].parentMs, pairs[i].candidateMs)
  }

  /** Recomputed pairs are all made from positive timings. */
  lemma PairsAreFromTimings(files: map<Key, RawReport>, n: nat)
    requires Uniform(files, n)
    ensures FromTimings(PairsOf(files, n))
  {
  }

  /** The gate's two flags in terms of the raw timings: the candidate beat its parent in every round. */
  lemma FlagsMeanAllWins(s: CampaignSummary, pairs: seq<Pair>)
    requires Summarizes(s, pairs) && FromTimings(pairs)
    ensures s.comparison.allPositive <==> s.comparison.wins == s.rounds
    ensures s.comparison.passesFloor <==>
              s.comparison.wins == s.rounds && s.comparison.medianImprovement >= MIN_PAIRED_IMPROVEMENT
    ensures s.comparison.allPositive ==> s.comparison.losses == 0
  {
    hide Median, Mean, Sorted, ByOrder;
    forall i | 0 <= i < |pairs|
      ensures pairs[i].improvement > 0.0 <==> Faster(pairs[i])
    {
      ImprovementSign(pairs[i].parentMs, pairs[i].candidateMs);
    }
    if AllPositive(pairs) {
      NoneSlower(pairs);
    }
  }

  /** The statistics of a comparison are ordered, and its two ways of comparing medians agree. */
  lemma ComparisonIsOrdered(pairs: seq<Pair>)
    requires Summarizable(pairs) && FromTimings(pairs)
    ensures var c := Compare(pairs);
            && c.wins + c.losses + c.ties == |pairs|
            && c.minImprovement <= c.medianImprovement <= c.maxImprovement < 1.0
            && c.minImprovement <= c.meanImprovement <= c.maxImprovement
            && (c.savedMs > 0.0 <==> c.speedup > 1.0)
  {
    var v := Improvements(pairs);
    hide Median, Mean, ByOrder, Sorted, CountFaster, CountSlower, AllPositive;
    ImprovementsOrdered(v);
    PositiveMedian(Candidates(pairs));
    QuotientAboveOne(Median(Parents(pairs)), Median(Candidates(pairs)));
    CountsCover(pairs);
    LargestBelowOne(pairs);
  }

  lemma LargestBelowOne(pairs: seq<Pair>)
    requires pairs != [] && FromTimings(pairs)
    ensures Sorted(Improvements(pairs))[|pairs| - 1] < 1.0
  {
    hide Sorted;
    var v := Improvements(pairs);
    var max := Sorted(v)[|v| - 1];
    assert max in multiset(Sorted(v));
    assert max in multiset(v);
    var i :| 0 <= i < |v| && v[i] == max;
    ImprovementBelowOne(pairs[i].parentMs, pairs[i].candidateMs);
  }

  lemma ImprovementsOrdered(v: seq<real>)
    requires v != []
    ensures Sorted(v)[0] <= Median(v) <= Sorted(v)[|v| - 1]
    ensures Sorted(v)[0] <= Mean(v) <= Sorted(v)[|v| - 1]
  {
    var w := Sorted(v);
    SortedIsSorted(v);
    MedianIsPercentile(v);
    PercentileEnds(w);
    PercentileMonotone(w, 0.0, 0.5);
    PercentileMonotone(w, 0.5, 1.0);
    hide Sorted, Percentile, Mean, Median;
    forall i | 0 <= i < |v|
      ensures w[0] <= v[i] <= w[|w| - 1]
    {
      assert v[i] in multiset(w);
    }
    MeanBetween(v, w[0], w[|w| - 1]);
  }

  lemma QuotientAboveOne(x: real, y: real)
    requires 0.0 < y
    ensures x / y > 1.0 <==> x - y > 0.0
  {
    var q := x / y;
    assert q * y == x;
    if q > 1.0 {
      StrictMul(1.0, q, y);
    } else {
      MulMonotone(q, 1.0, y);
    }
  }

  lemma ImprovementBelowOne(parent: real, candidate: real)
    requires 0.0 < parent && 0.0 < candidate
    ensures (parent - candidate) / parent < 1.0
  {
    var q := (parent - candidate) / parent;
    assert q * parent == parent - candidate;
    if q >= 1.0 {
      MulMonotone(1.0, q, parent);
    }
  }

  lemma ImprovementSign(parent: real, candidate: real)
    requires 0.0 < parent
    ensures (parent - candidate) / parent > 0.0 <==> candidate < parent
  {
    var q := (parent - candidate) / parent;
    assert q * parent == parent - candidate;
    if q > 0.0 {
      StrictMul(0.0, q, parent);
    } else {
      MulMonotone(q, 0.0, parent);
    }
  }

  lemma {:induction false} NoneSlower(pairs: seq<Pair>)
    requires forall i :: 0 <= i < |pairs| ==> Faster(pairs[i])
    ensures CountSlower(pairs) == 0
  {
    if pairs != [] {
      NoneSlower(pairs[..|pairs| - 1]);
    }
  }

  // ----- Two runs -----

  datatype ConsensusResult = ConsensusResult(medianAcross: real, minimumMedian: real)

  /** `consensus` of two recomputed campaigns. */
  function Consensus(left: CampaignSummary, right: CampaignSummary): Option<ConsensusResult> {
    if left.runContext == right.runContext || left.commit != right.commit then None
    else if left.rounds != right.rounds || left.warmups != right.warmups ||
        left.iterations != right.iterations then None
    else if left.environment != right.environment then None
    else if !left.comparison.allPositive || !left.comparison.passesFloor then None
    else if !right.comparison.allPositive || !right.comparison.passesFloor then None
    else
      var l, r := left.comparison.medianImprovement, right.comparison.medianImprovement;
      Some(ConsensusResult(Median([l, r]), if r < l then r else l))
  }

  ghost predicate Comparable(left: CampaignSummary, right: CampaignSummary) {
    && left.runContext != right.runContext && left.commit == right.commit && left.environment == right.environment
    && left.rounds == right.rounds && left.warmups == right.warmups && left.iterations == right.iterations
  }

  ghost predicate ClearWin(pairs: seq<Pair>) {
    && pairs != [] && (forall i :: 0 <= i < |pairs| ==> Faster(pairs[i]))
    && Median(Improvements(pairs)) >= MIN_PAIRED_IMPROVEMENT
  }

  /**
   Two runs reach consensus exactly if they are independent runs of one setting, the candidate was
   faster in every round of both, and the median improvement of each reaches the floor, which the
   reported minimum and median then reach as well.
   */
  lemma ConsensusIff(left: CampaignSummary, leftPairs: seq<Pair>, right: CampaignSummary, rightPairs: seq<Pair>)
    requires Summarizes(left, leftPairs) && FromTimings(leftPairs)
    requires Summarizes(right, rightPairs) && FromTimings(rightPairs)
    ensures Consensus(left, right).Some? <==>
              Comparable(left, right) && ClearWin(leftPairs) && ClearWin(rightPairs)
    ensures Consensus(left, right).Some? ==>
              var c, l, r := Consensus(left, right).value, Median(Improvements(leftPairs)),
                             Median(Improvements(rightPairs));
              && (c.minimumMedian == l || c.minimumMedian == r) && 2.0 * c.medianAcross == l + r
              && 0.03 <= c.minimumMedian <= l && c.minimumMedian <= r && c.minimumMedian <= c.medianAcross
  {
    hide Median, Improvements, Summarizes, FromTimings, Faster;
    RunPasses(left, leftPairs);
    RunPasses(right, rightPairs);
    var l, r := left.comparison.medianImprovement, right.comparison.medianImprovement;
    MedianOfTwo(l, r);
  }

  lemma RunPasses(s: CampaignSummary, pairs: seq<Pair>)
    requires Summarizes(s, pairs) && FromTimings(pairs)
    ensures s.comparison.allPositive && s.comparison.passesFloor <==> ClearWin(pairs)
    ensures pairs != [] && s.comparison.medianImprovement == Median(Improvements(pairs))
    ensures ClearWin(pairs) ==> s.comparison.medianImprovement >= MIN_PAIRED_IMPROVEMENT
  {
    hide Median, Compare;
    FlagsMeanAllWins(s, pairs);
    WinsAreCounted(s, pairs);
  }

  lemma WinsAreCounted(s: CampaignSummary, pairs: seq<Pair>)
    requires Summarizes(s, pairs)
    ensures s.comparison.wins == s.rounds <==> forall i :: 0 <= i < |pairs| ==> Faster(pairs[i])
    ensures s.comparison.medianImprovement == Median(Improvements(pairs))
  {
    hide Median, Mean, Sorted, ByOrder;
  }
}
