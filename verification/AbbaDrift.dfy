/**
 What linear drift does to the statistics of the gates.  In an ABBA round it cancels from the
 difference of the means and from the sign of the improvement; the relative improvement itself
 still divides by a drifting reference.
 */
module AbbaDrift {
  import opened MassiveHarness
  import opened OrderStatistics
  import opened RealArithmetic
  import opened Wrappers
  import Attention = AbbaConsensus
  import Rounds = MassiveCampaign

  /** The time of the slot-th execution of a round: a base cost, and drift up to the middle of that execution. */
  function Measured(base: real, slope: real, start: real, length: real, slot: nat): real {
    base + slope * (start + slot as real * length)
  }

  /** The drift in the middle of the round. */
  function MidDrift(slope: real, start: real, length: real): real {
    slope * (start + 1.5 * length)
  }

  function AbbaPair(a: real, b: real, slope: real, start: real, length: real): Option<Pair> {
    PairOf(Measured(a, slope, start, length, 0), Measured(b, slope, start, length, 1),
           Measured(b, slope, start, length, 2), Measured(a, slope, start, length, 3))
  }

  lemma MeansOfSlots(base: real, slope: real, start: real, length: real)
    ensures (Measured(base, slope, start, length, 0) + Measured(base, slope, start, length, 3)) / 2.0
            == base + MidDrift(slope, start, length)
    ensures (Measured(base, slope, start, length, 1) + Measured(base, slope, start, length, 2)) / 2.0
            == base + MidDrift(slope, start, length)
  {
    Distribute(slope, start, 3.0 * length);
    Distribute(slope, start, length);
    Distribute(slope, start, 2.0 * length);
    Distribute(slope, start, 1.5 * length);
    MulAssociates(slope, 3.0, length);
    MulAssociates(slope, 2.0, length);
    MulAssociates(slope, 1.5, length);
  }

  /** Both means drift alike, so their difference is that of the base costs, and so is the improvement's sign. */
  lemma PairUnderDrift(a: real, b: real, slope: real, start: real, length: real)
    ensures var mid, pair := MidDrift(slope, start, length), AbbaPair(a, b, slope, start, length);
            && (pair.Some? <==> a + mid > 0.0 && b + mid > 0.0)
            && (pair.Some? ==>
                  && pair.value == Pair(a + mid, b + mid, (a - b) / (a + mid))
                  && pair.value.reference - pair.value.candidate == a - b
                  && (pair.value.improvement > 0.0 <==> a > b) && (pair.value.improvement < 0.0 <==> a < b))
  {
    hide Measured, MidDrift;
    MeansOfSlots(a, slope, start, length);
    MeansOfSlots(b, slope, start, length);
    var mid := MidDrift(slope, start, length);
    if a + mid > 0.0 {
      QuotientSign(a - b, a + mid);
    }
  }

  /** The improvement's value is that of the base costs exactly if nothing drifts at the middle, or nothing differs. */
  lemma PairUnbiasedIff(a: real, b: real, slope: real, start: real, length: real)
    requires a > 0.0 && AbbaPair(a, b, slope, start, length).Some?
    ensures AbbaPair(a, b, slope, start, length).value.improvement == (a - b) / a
            <==> MidDrift(slope, start, length) == 0.0 || a == b
  {
    PairUnderDrift(a, b, slope, start, length);
    hide MidDrift, AbbaPair;
    SameQuotientIff(a - b, a, a + MidDrift(slope, start, length));
  }

  /** The base cost of a slot: the reference runs first and last. */
  function Base(a: real, b: real, slot: nat): real {
    if slot == 0 || slot == 3 then a else b
  }

  /** For measured medians: what holds of a case's own pair if its four blocks drift linearly. */
  lemma OwnPairUnderDrift(devices: Rounds.Devices, c: nat, n: nat, j: nat, m: Metric, k: Campaign,
                          a: real, b: real, slope: real, start: real, length: real)
    requires a > 0.0 && Rounds.Series4(devices, c, n, j, m, k)
    requires forall s: nat :: s < 4 ==>
               OwnMedian(devices(c, n, s), j, m, k) == Measured(Base(a, b, s), slope, start, length, s)
    ensures var mid, pair := MidDrift(slope, start, length), Rounds.OwnPair(devices, c, n, j, m, k);
            && (pair.Some? <==> a + mid > 0.0 && b + mid > 0.0)
            && (pair.Some? ==>
                  && pair.value.reference - pair.value.candidate == a - b
                  && (pair.value.improvement > 0.0 <==> a > b) && (pair.value.improvement < 0.0 <==> a < b)
                  && (pair.value.improvement == (a - b) / a <==> mid == 0.0 || a == b))
  {
    OwnPairIsAbbaPair(devices, c, n, j, m, k, a, b, slope, start, length);
    PairUnderDrift(a, b, slope, start, length);
    hide Rounds.OwnPair, AbbaPair, MidDrift;
    if AbbaPair(a, b, slope, start, length).Some? {
      PairUnbiasedIff(a, b, slope, start, length);
    }
  }

  lemma OwnPairIsAbbaPair(devices: Rounds.Devices, c: nat, n: nat, j: nat, m: Metric, k: Campaign,
                          a: real, b: real, slope: real, start: real, length: real)
    requires Rounds.Series4(devices, c, n, j, m, k)
    requires forall s: nat :: s < 4 ==>
               OwnMedian(devices(c, n, s), j, m, k) == Measured(Base(a, b, s), slope, start, length, s)
    ensures Rounds.OwnPair(devices, c, n, j, m, k) == AbbaPair(a, b, slope, start, length)
  {
    hide Measured, OwnMedian, PairOf;
  }

  // ----- The attention campaign -----

  /** The four times of a round, when they and the pair's means are positive. */
  predicate RoundMeasurable(a: real, b: real, slope: real, start: real, length: real) {
    && Measured(a, slope, start, length, 0) > 0.0 && Measured(a, slope, start, length, 3) > 0.0
    && Measured(b, slope, start, length, 1) > 0.0 && Measured(b, slope, start, length, 2) > 0.0
  }

  function DriftingRound(round: nat, a: real, b: real, slope: real, start: real, length: real): Attention.Round
    requires RoundMeasurable(a, b, slope, start, length)
  {
    Attention.RoundOf(round, Measured(a, slope, start, length, 0), Measured(b, slope, start, length, 1),
                      Measured(b, slope, start, length, 2), Measured(a, slope, start, length, 3))
  }

  /**
   The attention campaign pairs its slots the same way; its two single-order improvements shift in
   opposite directions.
   */
  lemma AttentionRoundUnderDrift(round: nat, a: real, b: real, slope: real, start: real, length: real)
    requires RoundMeasurable(a, b, slope, start, length)
    ensures var r, mid := DriftingRound(round, a, b, slope, start, length), MidDrift(slope, start, length);
            && a + mid > 0.0 && r.paired == (a - b) / (a + mid)
            && (r.paired > 0.0 <==> a > b)
            && (r.ab > 0.0 <==> a - b > slope * length) && (r.ba > 0.0 <==> a - b > -(slope * length))
  {
    var a1, b1, b2, a2 := Measured(a, slope, start, length, 0), Measured(b, slope, start, length, 1),
                          Measured(b, slope, start, length, 2), Measured(a, slope, start, length, 3);
    MeansOfSlots(a, slope, start, length);
    MeansOfSlots(b, slope, start, length);
    OrderShifts(a, b, slope, start, length);
    hide Measured, MidDrift;
    QuotientSign(a - b, a + MidDrift(slope, start, length));
    QuotientSign(a1 - b1, a1);
    QuotientSign(a2 - b2, a2);
  }

  lemma OrderShifts(a: real, b: real, slope: real, start: real, length: real)
    ensures Measured(a, slope, start, length, 0) - Measured(b, slope, start, length, 1) == a - b - slope * length
    ensures Measured(a, slope, start, length, 3) - Measured(b, slope, start, length, 2) == a - b + slope * length
  {
    Distribute(slope, start, length);
    Distribute(slope, start, 2.0 * length);
    Distribute(slope, start, 3.0 * length);
    MulAssociates(slope, 3.0, length);
    MulAssociates(slope, 2.0, length);
  }

  /** Round i is that of two variants under one linear drift, measured from its own start. */
  predicate RowsDrift(rows: seq<Attention.Round>, starts: seq<real>, a: real, b: real, slope: real, length: real) {
    && |rows| == |starts|
    && forall i :: 0 <= i < |rows| ==>
         && RoundMeasurable(a, b, slope, starts[i], length)
         && rows[i] == DriftingRound(rows[i].round, a, b, slope, starts[i], length)
  }

  /**
   A campaign under linear drift is eligible for review exactly if the candidate's advantage reaches
   the floor over every round's drifting reference and exceeds the drift of one execution, either way.
   */
  lemma ReviewEligibleUnderDrift(rows: seq<Attention.Round>, starts: seq<real>,
                                 a: real, b: real, slope: real, length: real)
    requires |rows| == Attention.EXPECTED_ROUNDS && RowsDrift(rows, starts, a, b, slope, length)
    ensures Attention.ReviewEligible(Attention.SummarizeRounds(rows)) <==>
            && a - b > slope * length && a - b > -(slope * length)
            && forall i :: 0 <= i < |rows| ==>
                 a - b >= Attention.MIN_REVIEW_EFFECT * (a + MidDrift(slope, starts[i], length))
    ensures Attention.ReviewEligible(Attention.SummarizeRounds(rows)) ==> a > b
  {
    hide DriftingRound, RoundMeasurable, MidDrift, Median, Attention.ReviewEligible, Attention.SummarizeRounds;
    Attention.ReviewEligibleMeaning(rows);
    forall i | 0 <= i < |rows|
      ensures rows[i].ab > 0.0 <==> a - b > slope * length
      ensures rows[i].ba > 0.0 <==> a - b > -(slope * length)
      ensures rows[i].paired >= Attention.MIN_REVIEW_EFFECT <==>
              a - b >= Attention.MIN_REVIEW_EFFECT * (a + MidDrift(slope, starts[i], length))
    {
      AttentionRoundUnderDrift(rows[i].round, a, b, slope, starts[i], length);
      QuotientReaches(a - b, a + MidDrift(slope, starts[i], length), Attention.MIN_REVIEW_EFFECT);
    }
    SignOfMedian(Attention.ForwardOrder(rows), a - b > slope * length);
    SignOfMedian(Attention.ReverseOrder(rows), a - b > -(slope * length));
  }

  lemma QuotientReaches(x: real, y: real, c: real)
    requires y > 0.0
    ensures x / y >= c <==> x >= c * y
  {
    if x >= c * y {
      QuotientAtLeast(x, y, c);
    } else if x / y >= c {
      MulMonotone(c, x / y, y);
      assert false;
    }
  }

  /** Samples that all have one sign have a median of that sign. */
  lemma SignOfMedian(s: seq<real>, positive: bool)
    requires s != [] && forall i :: 0 <= i < |s| ==> (s[i] > 0.0 <==> positive)
    ensures Median(s) > 0.0 <==> positive
  {
    hide Median;
    if positive {
      PositiveMedian(s);
    } else {
      MedianAtMost(s, 0.0);
    }
  }
}
