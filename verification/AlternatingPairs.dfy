/**
 What linear drift does to a campaign of single pairs in alternating order: when its flag is right,
 when its median relative improvement is, and how far off that median is for equal variants.
 */
module AlternatingPairs {
  import opened OrderStatistics
  import opened RealArithmetic
  import Fused = FusedMlpCampaign
  import Schedules

  /** The time of variant i of two in round r: a base cost, and drift up to that execution. */
  function Timed(base: real, slope: real, i: nat, r: nat): real
    requires i < 2
  {
    base + slope * Schedules.Position(i, 2, r) as real
  }

  ghost predicate ParentsPositive(a: real, slope: real, rounds: nat) {
    forall r: nat :: r < rounds ==> Timed(a, slope, 0, r) > 0.0
  }

  /** The pairs of a campaign whose parent costs a, whose candidate costs b, and whose drift is linear. */
  ghost function PairsUnderDrift(a: real, b: real, slope: real, rounds: nat): (pairs: seq<Fused.Pair>)
    requires ParentsPositive(a, slope, rounds)
    ensures |pairs| == rounds
  {
    seq(rounds, r requires 0 <= r < rounds =>
      Fused.PairOf(r, Timed(a, slope, 0, r), Timed(b, slope, 1, r)))
  }

  ghost function DriftImprovements(a: real, b: real, slope: real, rounds: nat): seq<real>
    requires ParentsPositive(a, slope, rounds)
  {
    Fused.Improvements(PairsUnderDrift(a, b, slope, rounds))
  }

  /** The parent runs first in even rounds, so the drift of one execution counts for it there, and against it else. */
  function Lead(a: real, b: real, slope: real, r: nat): real {
    if r % 2 == 0 then a - b - slope else a - b + slope
  }

  lemma LeadOfRound(a: real, b: real, slope: real, r: nat)
    ensures Timed(a, slope, 0, r) - Timed(b, slope, 1, r) == Lead(a, b, slope, r)
  {
    var p, c := Schedules.Position(0, 2, r) as real, Schedules.Position(1, 2, r) as real;
    assert p - c == if r % 2 == 0 then -1.0 else 1.0;
    Distribute(slope, c, p - c);
  }

  lemma ImprovementOfRound(a: real, b: real, slope: real, rounds: nat, r: nat)
    requires ParentsPositive(a, slope, rounds) && r < rounds
    ensures |DriftImprovements(a, b, slope, rounds)| == rounds
    ensures DriftImprovements(a, b, slope, rounds)[r] == Lead(a, b, slope, r) / Timed(a, slope, 0, r)
  {
    hide Timed, Lead;
    LeadOfRound(a, b, slope, r);
  }

  lemma PairAt(a: real, b: real, slope: real, rounds: nat, r: nat)
    requires ParentsPositive(a, slope, rounds) && r < rounds
    ensures var p := PairsUnderDrift(a, b, slope, rounds)[r];
            p.parentMs == Timed(a, slope, 0, r) && p.candidateMs == Timed(b, slope, 1, r)
  {
    hide Timed;
  }

  /** The timings of the two variants are the drifting series of the schedule with two blocks. */
  lemma SidesAreDrifting(a: real, b: real, slope: real, rounds: nat)
    requires ParentsPositive(a, slope, rounds)
    ensures Fused.Parents(PairsUnderDrift(a, b, slope, rounds)) == Schedules.Drifting(a, slope, 0, 2, rounds)
    ensures Fused.Candidates(PairsUnderDrift(a, b, slope, rounds)) == Schedules.Drifting(b, slope, 1, 2, rounds)
  {
    hide Schedules.Position, PairsUnderDrift;
    var pairs := PairsUnderDrift(a, b, slope, rounds);
    forall r: nat | r < rounds
      ensures pairs[r].parentMs == Schedules.Drifting(a, slope, 0, 2, rounds)[r]
      ensures pairs[r].candidateMs == Schedules.Drifting(b, slope, 1, 2, rounds)[r]
    {
      PairAt(a, b, slope, rounds, r);
    }
  }

  // ----- The flag -----

  /** Every pair is positive exactly if the candidate's advantage exceeds the drift of one execution, either way. */
  lemma AllPositiveIff(a: real, b: real, slope: real, rounds: nat)
    requires rounds >= 2 && ParentsPositive(a, slope, rounds)
    ensures Fused.AllPositive(PairsUnderDrift(a, b, slope, rounds)) <==> a - b > slope && a - b > -slope
  {
    hide Timed;
    var pairs, x := PairsUnderDrift(a, b, slope, rounds), DriftImprovements(a, b, slope, rounds);
    forall r: nat | r < rounds
      ensures pairs[r].improvement > 0.0 <==> Lead(a, b, slope, r) > 0.0
    {
      ImprovementOfRound(a, b, slope, rounds, r);
      assert x[r] == pairs[r].improvement;
      QuotientSign(Lead(a, b, slope, r), Timed(a, slope, 0, r));
    }
    assert Lead(a, b, slope, 0) == a - b - slope && Lead(a, b, slope, 1) == a - b + slope;
  }

  /** The same for a recomputed campaign whose reports drift. */
  lemma CampaignFlagUnderDrift(s: Fused.CampaignSummary, files: map<Fused.Key, Fused.RawReport>, rounds: nat,
                               a: real, b: real, slope: real)
    requires rounds >= 2 && Fused.Uniform(files, rounds) && Fused.Summarizes(s, Fused.PairsOf(files, rounds))
    requires forall r: nat :: r < rounds ==>
               && files[(r, Fused.Fused)].medianMs == Timed(a, slope, 0, r)
               && files[(r, Fused.FusedMlp)].medianMs == Timed(b, slope, 1, r)
    ensures s.comparison.allPositive <==> a - b > slope && a - b > -slope
  {
    hide Timed, ParentsPositive, PairsUnderDrift, Fused.Uniform, Fused.PairsOf, Fused.Summarizes, Fused.AllPositive;
    RecomputedPairsDrift(files, rounds, a, b, slope);
    AllPositiveIff(a, b, slope, rounds);
    AllPositiveOf(s, Fused.PairsOf(files, rounds));
  }

  lemma RecomputedPairsDrift(files: map<Fused.Key, Fused.RawReport>, rounds: nat, a: real, b: real, slope: real)
    requires Fused.Uniform(files, rounds)
    requires forall r: nat :: r < rounds ==>
               && files[(r, Fused.Fused)].medianMs == Timed(a, slope, 0, r)
               && files[(r, Fused.FusedMlp)].medianMs == Timed(b, slope, 1, r)
    ensures ParentsPositive(a, slope, rounds)
    ensures Fused.PairsOf(files, rounds) == PairsUnderDrift(a, b, slope, rounds)
  {
    hide Timed;
    forall r: nat | r < rounds
      ensures (r, Fused.Fused) in files && (r, Fused.FusedMlp) in files && Timed(a, slope, 0, r) > 0.0
    {
    }
    assert ParentsPositive(a, slope, rounds);
  }

  lemma AllPositiveOf(s: Fused.CampaignSummary, pairs: seq<Fused.Pair>)
    requires Fused.Summarizes(s, pairs)
    ensures s.comparison.allPositive == Fused.AllPositive(pairs)
  {
    hide Median, Mean, Sorted, Fused.ByOrder, Fused.AllPositive;
  }

  // ----- The median of two rounds -----

  /** Two rounds measure the improvement of the base costs exactly if nothing drifts or b exceeds a by one drift. */
  lemma TwoRoundsUnbiasedIff(a: real, b: real, slope: real)
    requires ParentsPositive(a, slope, 2)
    ensures a > 0.0
    ensures Median(DriftImprovements(a, b, slope, 2)) == (a - b) / a <==> slope == 0.0 || b - a == slope
  {
    hide DriftImprovements, Timed, Median;
    var x := DriftImprovements(a, b, slope, 2);
    FirstRounds(a, b, slope);
    MedianOfTwo(x[0], x[1]);
    QuotientsAdd(a - b - slope, a - b + slope, a);
    SameQuotientIff(a - b + slope, a, a + 3.0 * slope);
  }

  lemma FirstRounds(a: real, b: real, slope: real)
    requires ParentsPositive(a, slope, 2)
    ensures a > 0.0 && a + 3.0 * slope > 0.0
    ensures DriftImprovements(a, b, slope, 2) == [(a - b - slope) / a, (a - b + slope) / (a + 3.0 * slope)]
  {
    FirstParents(a, slope);
    ImprovementOfRound(a, b, slope, 2, 0);
    ImprovementOfRound(a, b, slope, 2, 1);
    hide DriftImprovements, Timed, ParentsPositive;
  }

  lemma FirstParents(a: real, slope: real)
    requires ParentsPositive(a, slope, 2)
    ensures Timed(a, slope, 0, 0) == a > 0.0
    ensures Timed(a, slope, 0, 1) == a + 3.0 * slope > 0.0
  {
    assert Timed(a, slope, 0, 0) > 0.0 && Timed(a, slope, 0, 1) > 0.0;
  }

  lemma QuotientsAdd(x: real, y: real, z: real)
    requires z > 0.0
    ensures x / z + y / z == (x + y) / z
  {
    var p, q := x / z, y / z;
    assert p * z == x && q * z == y;
    Distribute(z, p, q);
    QuotientIsUnique(p + q, x + y, z);
  }

  // ----- The median of any even number of rounds -----

  /** The elements at the even positions. */
  function EveryOther(s: seq<real>): (t: seq<real>)
    ensures |t| == (|s| + 1) / 2
  {
    if |s| < 2 then s else [s[0]] + EveryOther(s[2..])
  }

  lemma {:induction false} EveryOtherAt(s: seq<real>, i: nat)
    requires 2 * i < |s|
    ensures EveryOther(s)[i] == s[2 * i]
  {
    if i > 0 {
      EveryOtherAt(s[2..], i - 1);
    }
  }

  lemma {:induction false} TwoHalves(s: seq<real>)
    requires s != []
    ensures multiset(s) == multiset(EveryOther(s)) + multiset(EveryOther(s[1..]))
  {
    assert s == [s[0]] + s[1..];
    if |s| > 1 {
      TwoHalves(s[1..]);
      assert s[1..][1..] == s[2..];
    }
  }

  /** If the samples fall into two halves of one size, one below the other, the median is between the two. */
  lemma MedianOfHalves(s: seq<real>, low: seq<real>, high: seq<real>, i: nat, j: nat)
    requires multiset(s) == multiset(low) + multiset(high) && i < |low| == |high| && j < |high|
    requires (forall k :: 0 <= k < |low| ==> low[k] <= low[i]) && (forall k :: 0 <= k < |high| ==> high[j] <= high[k])
    requires low[i] <= high[j]
    ensures s != [] && Median(s) == (low[i] + high[j]) / 2.0
  {
    hide Sorted;
    var v, w := Sorted(low), Sorted(high);
    SortedIsSorted(s);
    SortedEnds(low, i);
    SortedEnds(high, j);
    SortedUnique(Sorted(s), v + w);
    assert |multiset(s)| == |low| + |high|;
  }

  /** The greatest sample is sorted to the end, the least one to the start. */
  lemma SortedEnds(s: seq<real>, i: nat)
    requires i < |s|
    ensures IsSorted(Sorted(s))
    ensures (forall k :: 0 <= k < |s| ==> s[k] <= s[i]) ==>
              Sorted(s)[|s| - 1] == s[i] && forall k :: 0 <= k < |s| ==> Sorted(s)[k] <= s[i]
    ensures (forall k :: 0 <= k < |s| ==> s[i] <= s[k]) ==>
              Sorted(s)[0] == s[i] && forall k :: 0 <= k < |s| ==> s[i] <= Sorted(s)[k]
  {
    hide Sorted;
    var v := Sorted(s);
    SortedIsSorted(s);
    assert s[i] in multiset(v);
    var m :| 0 <= m < |v| && v[m] == s[i];
    forall k | 0 <= k < |v|
      ensures exists l :: 0 <= l < |s| && s[l] == v[k]
    {
      assert v[k] in multiset(s);
    }
  }

  /** A larger divisor moves a quotient towards zero. */
  lemma QuotientShrinks(x: real, y: real, z: real)
    requires 0.0 < y <= z
    ensures x >= 0.0 ==> 0.0 <= x / z <= x / y
    ensures x <= 0.0 ==> x / y <= x / z <= 0.0
  {
    var q := x / y;
    assert q * y == x;
    if x >= 0.0 {
      QuotientAtLeast(x, y, 0.0);
      QuotientAtLeast(x, z, 0.0);
      MulMonotone(y, z, q);
      QuotientAtMost(x, z, q);
    }
    if x <= 0.0 {
      QuotientAtMost(x, y, 0.0);
      QuotientAtMost(x, z, 0.0);
      MulMonotone(y, z, -q);
      QuotientAtLeast(x, z, q);
    }
  }

  /** Parents of later rounds have drifted further. */
  lemma ParentsDrift(a: real, slope: real, r: nat, q: nat)
    requires r <= q
    ensures slope >= 0.0 ==> Timed(a, slope, 0, r) <= Timed(a, slope, 0, q)
    ensures slope <= 0.0 ==> Timed(a, slope, 0, q) <= Timed(a, slope, 0, r)
  {
    hide Schedules.Position;
    Schedules.PositionsRise(0, 2, r, q);
    Schedules.ScaleOrder(slope, Schedules.Position(0, 2, r) as real, Schedules.Position(0, 2, q) as real);
  }

  /** The parent-first round that decides the median: the last if times rise, the first if they fall. */
  function Deciding(slope: real, half: nat): (k: nat)
    requires half > 0
    ensures k % 2 == 0 && k + 1 < 2 * half
  {
    if slope >= 0.0 then 2 * half - 2 else 0
  }

  /** Two rounds of one parity, the second of which has the extreme parent of its parity. */
  lemma RoundOrder(a: real, b: real, slope: real, rounds: nat, r: nat, k: nat)
    requires ParentsPositive(a, slope, rounds) && Abs(a - b) <= Abs(slope)
    requires r < rounds && k < rounds && r % 2 == k % 2
    requires slope >= 0.0 ==> r <= k
    requires slope < 0.0 ==> k <= r
    ensures |DriftImprovements(a, b, slope, rounds)| == rounds
    ensures var x, loses := DriftImprovements(a, b, slope, rounds), (r % 2 == 0) == (slope >= 0.0);
            if loses then x[r] <= x[k] <= 0.0 else 0.0 <= x[k] <= x[r]
  {
    ImprovementOfRound(a, b, slope, rounds, r);
    ImprovementOfRound(a, b, slope, rounds, k);
    if slope >= 0.0 {
      ParentsDrift(a, slope, r, k);
    } else {
      ParentsDrift(a, slope, k, r);
    }
    hide DriftImprovements, Timed;
    QuotientShrinks(Lead(a, b, slope, r), Timed(a, slope, 0, r), Timed(a, slope, 0, k));
  }

  /** The rounds of both orders, against the deciding ones. */
  lemma RoundsOrder(a: real, b: real, slope: real, half: nat, i: nat)
    requires ParentsPositive(a, slope, 2 * half) && Abs(a - b) <= Abs(slope) && i < half
    ensures |DriftImprovements(a, b, slope, 2 * half)| == 2 * half
    ensures var x, k := DriftImprovements(a, b, slope, 2 * half), Deciding(slope, half);
            && (slope >= 0.0 ==> x[2 * i] <= x[k] <= 0.0 <= x[k + 1] <= x[2 * i + 1])
            && (slope < 0.0 ==> x[2 * i + 1] <= x[k + 1] <= 0.0 <= x[k] <= x[2 * i])
  {
    hide DriftImprovements, Timed;
    var k := Deciding(slope, half);
    RoundOrder(a, b, slope, 2 * half, 2 * i, k);
    RoundOrder(a, b, slope, 2 * half, 2 * i + 1, k + 1);
  }

  /**
   As long as the costs differ by no more than the drift of one execution, the rounds of one order all
   lose and those of the other all win, so the median is the mean of two neighbouring rounds: the last
   two if times rise, the first two if they fall.
   */
  lemma MedianWithinDrift(a: real, b: real, slope: real, half: nat)
    requires half > 0 && ParentsPositive(a, slope, 2 * half) && Abs(a - b) <= Abs(slope)
    ensures var x, k := DriftImprovements(a, b, slope, 2 * half), Deciding(slope, half);
            |x| == 2 * half && Median(x) == (x[k] + x[k + 1]) / 2.0
  {
    hide DriftImprovements, Median, EveryOther, Timed, Deciding;
    var x, k := DriftImprovements(a, b, slope, 2 * half), Deciding(slope, half);
    ImprovementOfRound(a, b, slope, 2 * half, k);
    TwoHalves(x);
    var even, odd := EveryOther(x), EveryOther(x[1..]);
    forall i: nat | i < half
      ensures even[i] == x[2 * i] && odd[i] == x[2 * i + 1]
    {
      EveryOtherAt(x, i);
      EveryOtherAt(x[1..], i);
    }
    assert k == 2 * (k / 2);
    if slope >= 0.0 {
      forall i: nat | i < half
        ensures x[2 * i] <= x[k] <= 0.0 <= x[k + 1] <= x[2 * i + 1]
      {
        RoundsOrder(a, b, slope, half, i);
      }
      MedianOfHalves(x, even, odd, k / 2, k / 2);
    } else {
      forall i: nat | i < half
        ensures x[2 * i + 1] <= x[k + 1] <= 0.0 <= x[k] <= x[2 * i]
      {
        RoundsOrder(a, b, slope, half, i);
      }
      MedianOfHalves(x, odd, even, k / 2, k / 2);
    }
  }

  /**
   Equal variants: over every even number of rounds the medians of both sides agree, while the median
   relative improvement is below zero for every drift but none.
   */
  lemma EqualVariantsUnderDrift(a: real, slope: real, half: nat)
    requires half > 0 && ParentsPositive(a, slope, 2 * half)
    ensures var pairs, m := PairsUnderDrift(a, a, slope, 2 * half), Timed(a, slope, 0, Deciding(slope, half));
            && m > 0.0 && m + 3.0 * slope > 0.0
            && Median(Fused.Improvements(pairs)) == (slope / (m + 3.0 * slope) - slope / m) / 2.0 <= 0.0
            && (Median(Fused.Improvements(pairs)) == 0.0 <==> slope == 0.0)
            && Median(Fused.Parents(pairs)) == Median(Fused.Candidates(pairs))
  {
    hide Median, Timed, Fused.Parents, Fused.Candidates, Deciding;
    var k := Deciding(slope, half);
    var m := Timed(a, slope, 0, k);
    MedianWithinDrift(a, a, slope, half);
    ImprovementOfRound(a, a, slope, 2 * half, k);
    ImprovementOfRound(a, a, slope, 2 * half, k + 1);
    NextParent(a, slope, k);
    SidesAgree(a, slope, half);
    Opposite(slope, m);
    ShrinksStrictly(slope, m);
  }

  lemma NextParent(a: real, slope: real, k: nat)
    requires k % 2 == 0
    ensures Timed(a, slope, 0, k + 1) == Timed(a, slope, 0, k) + 3.0 * slope
  {
    var p := Schedules.Position(0, 2, k) as real;
    assert Schedules.Position(0, 2, k + 1) as real == p + 3.0;
    Distribute(slope, p, 3.0);
  }

  lemma SidesAgree(a: real, slope: real, half: nat)
    requires half > 0 && ParentsPositive(a, slope, 2 * half)
    ensures Fused.Parents(PairsUnderDrift(a, a, slope, 2 * half)) != []
    ensures Fused.Candidates(PairsUnderDrift(a, a, slope, 2 * half)) != []
    ensures Median(Fused.Parents(PairsUnderDrift(a, a, slope, 2 * half)))
            == Median(Fused.Candidates(PairsUnderDrift(a, a, slope, 2 * half)))
  {
    hide Median, Timed, Fused.Parents, Fused.Candidates, PairsUnderDrift, Schedules.Position, ParentsPositive;
    SidesAreDrifting(a, a, slope, 2 * half);
    Schedules.MedianUnderDrift(a, slope, 0, 2, 2 * half);
    Schedules.MedianUnderDrift(a, slope, 1, 2, 2 * half);
  }

  lemma Opposite(x: real, y: real)
    requires y > 0.0
    ensures -x / y == -(x / y)
  {
    QuotientIsUnique(-(x / y), -x, y);
  }

  lemma ShrinksStrictly(slope: real, m: real)
    requires m > 0.0 && m + 3.0 * slope > 0.0
    ensures slope / (m + 3.0 * slope) <= slope / m
    ensures slope / (m + 3.0 * slope) == slope / m <==> slope == 0.0
  {
    SameQuotientIff(slope, m, m + 3.0 * slope);
    if slope >= 0.0 {
      QuotientShrinks(slope, m, m + 3.0 * slope);
    } else {
      QuotientShrinks(slope, m + 3.0 * slope, m);
    }
  }

  // ----- The comparison of a campaign -----

  function FasterRounds(pairs: seq<Fused.Pair>): set<nat> {
    set i: nat | i < |pairs| && pairs[i].candidateMs < pairs[i].parentMs
  }

  function SlowerRounds(pairs: seq<Fused.Pair>): set<nat> {
    set i: nat | i < |pairs| && pairs[i].candidateMs > pairs[i].parentMs
  }

  lemma {:induction false} CountsAreNumbers(pairs: seq<Fused.Pair>)
    ensures Fused.CountFaster(pairs) == |FasterRounds(pairs)|
    ensures Fused.CountSlower(pairs) == |SlowerRounds(pairs)|
  {
    if pairs != [] {
      hide FasterRounds, SlowerRounds;
      CountsAreNumbers(pairs[..|pairs| - 1]);
      LastFaster(pairs);
      LastSlower(pairs);
    }
  }

  lemma LastFaster(pairs: seq<Fused.Pair>)
    requires pairs != []
    ensures var n: nat := |pairs| - 1;
            |FasterRounds(pairs)| == |FasterRounds(pairs[..n])| + (if Fused.Faster(pairs[n]) then 1 else 0)
  {
    var n: nat := |pairs| - 1;
    assert n !in FasterRounds(pairs[..n]);
    assert FasterRounds(pairs) == FasterRounds(pairs[..n]) + (if Fused.Faster(pairs[n]) then {n} else {});
  }

  lemma LastSlower(pairs: seq<Fused.Pair>)
    requires pairs != []
    ensures var n: nat := |pairs| - 1;
            |SlowerRounds(pairs)|
            == |SlowerRounds(pairs[..n])| + (if pairs[n].candidateMs > pairs[n].parentMs then 1 else 0)
  {
    var n: nat := |pairs| - 1;
    assert n !in SlowerRounds(pairs[..n]);
    assert SlowerRounds(pairs) ==
        SlowerRounds(pairs[..n]) + (if pairs[n].candidateMs > pairs[n].parentMs then {n} else {});
  }

  lemma {:induction false} EveryOtherSnoc(s: seq<real>, x: real)
    ensures EveryOther(s + [x]) == if |s| % 2 == 0 then EveryOther(s) + [x] else EveryOther(s)
  {
    if |s| >= 2 {
      EveryOtherSnoc(s[2..], x);
      assert (s + [x])[2..] == s[2..] + [x];
    }
  }

  /** The improvements by order are those of the even and of the odd rounds. */
  lemma {:induction false} OrdersAreHalves(pairs: seq<Fused.Pair>, x: seq<real>)
    requires |x| == |pairs| > 0
    requires forall i :: 0 <= i < |pairs| ==> pairs[i].round == i && x[i] == pairs[i].improvement
    ensures Fused.ByOrder(pairs, false) == EveryOther(x) && Fused.ByOrder(pairs, true) == EveryOther(x[1..])
  {
    hide *;
    var n: nat := |pairs| - 1;
    if n == 0 {
      FirstOrder(pairs, x);
    } else {
      OrdersAreHalves(pairs[..n], x[..n]);
      OrdersGrow(pairs, n, x[..n], x[n]);
      assert x == x[..n] + [x[n]];
    }
  }

  lemma OrdersGrow(pairs: seq<Fused.Pair>, n: nat, y: seq<real>, z: real)
    requires |pairs| == n + 1 && |y| == n > 0 && pairs[n].round == n && pairs[n].improvement == z
    requires Fused.ByOrder(pairs[..n], false) == EveryOther(y) && Fused.ByOrder(pairs[..n], true) == EveryOther(y[1..])
    ensures Fused.ByOrder(pairs, false) == EveryOther(y + [z])
    ensures Fused.ByOrder(pairs, true) == EveryOther((y + [z])[1..])
  {
    hide *;
    OrderStep(pairs, false);
    OrderStep(pairs, true);
    HalvesStep(y, y[1..], z);
    assert (y + [z])[1..] == y[1..] + [z];
  }

  /** Every other element of y, and of what is left without the first, when one more is added. */
  lemma HalvesStep(y: seq<real>, rest: seq<real>, z: real)
    requires |y| == |rest| + 1
    ensures EveryOther(y + [z]) == if |y| % 2 == 0 then EveryOther(y) + [z] else EveryOther(y)
    ensures EveryOther(rest + [z]) == if |y| % 2 == 0 then EveryOther(rest) else EveryOther(rest) + [z]
  {
    hide EveryOther;
    EveryOtherSnoc(y, z);
    EveryOtherSnoc(rest, z);
    Parity(|rest|);
  }

  lemma Parity(n: nat)
    ensures (n + 1) % 2 == 0 <==> n % 2 != 0
  {
  }

  lemma FirstOrder(pairs: seq<Fused.Pair>, x: seq<real>)
    requires |x| == |pairs| == 1 && pairs[0].round == 0 && x[0] == pairs[0].improvement
    ensures Fused.ByOrder(pairs, false) == EveryOther(x) && Fused.ByOrder(pairs, true) == EveryOther(x[1..])
  {
    assert pairs[..0] == [] && x[1..] == [];
  }

  lemma OrderStep(pairs: seq<Fused.Pair>, candidateFirst: bool)
    requires pairs != []
    ensures var n: nat := |pairs| - 1;
            Fused.ByOrder(pairs, candidateFirst) ==
            if (pairs[n].round % 2 == 1) == candidateFirst
            then Fused.ByOrder(pairs[..n], candidateFirst) + [pairs[n].improvement]
            else Fused.ByOrder(pairs[..n], candidateFirst)
  {
  }

  /**
   What the comparison of a recomputed campaign holds: how often either side was faster, the statistics
   of the improvements over all rounds, over the even and over the odd ones, and those of the times.
   */
  lemma ComparisonMeaning(pairs: seq<Fused.Pair>, x: seq<real>, parents: seq<real>, candidates: seq<real>)
    requires Fused.Summarizable(pairs) && |x| == |parents| == |candidates| == |pairs|
    requires forall i :: 0 <= i < |pairs| ==>
               && pairs[i].round == i && x[i] == pairs[i].improvement
               && parents[i] == pairs[i].parentMs && candidates[i] == pairs[i].candidateMs
    ensures var c := Fused.Compare(pairs);
            && c.wins == |FasterRounds(pairs)| && c.losses == |SlowerRounds(pairs)|
            && c.wins + c.losses + c.ties == |pairs|
            && c.medianParent == Median(parents) && c.medianCandidate == Median(candidates) != 0.0
            && c.medianImprovement == Median(x) && c.meanImprovement == Sum(x) / |x| as real
            && c.minImprovement in x && c.maxImprovement in x
            && (forall i :: 0 <= i < |x| ==> c.minImprovement <= x[i] <= c.maxImprovement)
            && EveryOther(x) != [] && c.medianParentFirst == Median(EveryOther(x))
            && EveryOther(x[1..]) != [] && c.medianCandidateFirst == Median(EveryOther(x[1..]))
            && c.savedMs == c.medianParent - c.medianCandidate
            && c.speedup == c.medianParent / c.medianCandidate
            && (c.allPositive <==> forall i :: 0 <= i < |x| ==> x[i] > 0.0)
            && (c.passesFloor <==> c.allPositive && c.medianImprovement >= 0.03)
  {
    hide *;
    SidesOf(pairs, x, parents, candidates);
    ComparisonFields(pairs);
    CountsAreNumbers(pairs);
    OrdersAreHalves(pairs, x);
    ExtremesOfSorted(x);
  }

  lemma SidesOf(pairs: seq<Fused.Pair>, x: seq<real>, parents: seq<real>, candidates: seq<real>)
    requires Fused.Summarizable(pairs) && |x| == |parents| == |candidates| == |pairs|
    requires forall i :: 0 <= i < |pairs| ==>
               x[i] == pairs[i].improvement && parents[i] == pairs[i].parentMs && candidates[i] == pairs[i].candidateMs
    ensures Fused.Improvements(pairs) == x && Fused.Parents(pairs) == parents && Fused.Candidates(pairs) == candidates
    ensures pairs != [] && Median(candidates) != 0.0
    ensures Fused.AllPositive(pairs) <==> forall i :: 0 <= i < |x| ==> x[i] > 0.0
  {
    hide Median, Fused.ByOrder;
    assert Fused.Improvements(pairs) == x && Fused.Parents(pairs) == parents;
    assert Fused.Candidates(pairs) == candidates;
  }

  lemma ComparisonFields(pairs: seq<Fused.Pair>)
    requires Fused.Summarizable(pairs)
    ensures pairs != [] && Fused.ByOrder(pairs, false) != [] && Fused.ByOrder(pairs, true) != []
    ensures Median(Fused.Candidates(pairs)) != 0.0
    ensures var c, x := Fused.Compare(pairs), Fused.Improvements(pairs);
            && |x| == |pairs| && |Sorted(x)| == |x|
            && c.wins == Fused.CountFaster(pairs) && c.losses == Fused.CountSlower(pairs)
            && c.wins + c.losses + c.ties == |pairs|
            && c.medianParent == Median(Fused.Parents(pairs)) && c.medianCandidate == Median(Fused.Candidates(pairs))
            && c.medianImprovement == Median(x) && c.meanImprovement == Sum(x) / |x| as real
            && c.minImprovement == Sorted(x)[0] && c.maxImprovement == Sorted(x)[|x| - 1]
            && c.medianParentFirst == Median(Fused.ByOrder(pairs, false))
            && c.medianCandidateFirst == Median(Fused.ByOrder(pairs, true))
            && c.savedMs == c.medianParent - c.medianCandidate && c.speedup == c.medianParent / c.medianCandidate
            && (c.allPositive <==> Fused.AllPositive(pairs))
            && (c.passesFloor <==> c.allPositive && c.medianImprovement >= 0.03)
  {
    hide Median, Sorted, Sum, Fused.ByOrder, Fused.CountFaster, Fused.CountSlower, Fused.AllPositive;
    Fused.CountsCover(pairs);
  }
}
