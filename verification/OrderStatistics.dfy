/**
 Order statistics of timing samples, in exact reals: sorting, the interpolated percentile, the
 odd/even median, and the summary built from them.
 */
module OrderStatistics {
  import opened RealArithmetic
  import opened Wrappers

  ghost predicate IsSorted(v: seq<real>) {
    forall i, j :: 0 <= i <= j < |v| ==> v[i] <= v[j]
  }

  function InsertSorted(x: real, v: seq<real>): (r: seq<real>)
    ensures |r| == |v| + 1
    ensures multiset(r) == multiset(v) + multiset{x}
  {
    if v == [] || x <= v[0] then [x] + v
    else
      assert v == [v[0]] + v[1..];
      [v[0]] + InsertSorted(x, v[1..])
  }

  function Sorted(s: seq<real>): (r: seq<real>)
    ensures |r| == |s|
    ensures multiset(r) == multiset(s)
  {
    if s == [] then []
    else
      assert s == [s[0]] + s[1..];
      InsertSorted(s[0], Sorted(s[1..]))
  }

  lemma {:induction false} InsertKeepsSorted(x: real, v: seq<real>)
    requires IsSorted(v)
    ensures IsSorted(InsertSorted(x, v))
    ensures InsertSorted(x, v)[0] == if v == [] || x <= v[0] then x else v[0]
  {
    if v != [] && x > v[0] {
      InsertKeepsSorted(x, v[1..]);
      var r := InsertSorted(x, v[1..]);
      assert forall i :: 0 <= i < |r| ==> r[0] <= r[i];
    }
  }

  lemma {:induction false} SortedIsSorted(s: seq<real>)
    ensures IsSorted(Sorted(s))
  {
    if s != [] {
      SortedIsSorted(s[1..]);
      InsertKeepsSorted(s[0], Sorted(s[1..]));
    }
  }

  /** Two sorted arrangements of the same samples are the same sequence. */
  lemma {:induction false} SortedUnique(v: seq<real>, w: seq<real>)
    requires IsSorted(v) && IsSorted(w) && multiset(v) == multiset(w)
    ensures v == w
    decreases |v|
  {
    SameLength(v, w);
    if v != [] {
      assert v[0] in multiset(w);
      assert w[0] in multiset(v);
      SameHead(v, w);
      TailMultiset(v);
      TailMultiset(w);
      SortedUnique(v[1..], w[1..]);
    }
  }

  lemma SameLength(v: seq<real>, w: seq<real>)
    requires multiset(v) == multiset(w)
    ensures |v| == |w|
  {
    assert |multiset(v)| == |multiset(w)|;
  }

  lemma TailMultiset(v: seq<real>)
    requires v != []
    ensures multiset(v[1..]) == multiset(v) - multiset{v[0]}
  {
    assert v == [v[0]] + v[1..];
  }

  lemma SameHead(v: seq<real>, w: seq<real>)
    requires IsSorted(v) && IsSorted(w) && v != [] && w != []
    requires v[0] in multiset(w) && w[0] in multiset(v)
    ensures v[0] == w[0]
  {
    var i :| 0 <= i < |w| && w[i] == v[0];
    var j :| 0 <= j < |v| && v[j] == w[0];
  }

  /** Every statistic of the sorted samples is independent of the order they were taken in. */
  lemma SortedIgnoresOrder(s: seq<real>, t: seq<real>)
    requires multiset(s) == multiset(t)
    ensures Sorted(s) == Sorted(t)
  {
    SortedIsSorted(s);
    SortedIsSorted(t);
    SortedUnique(Sorted(s), Sorted(t));
  }

  function Ceil(x: real): int {
    if x == x.Floor as real then x.Floor else x.Floor + 1
  }

  function Mix(a: real, b: real, f: real): real {
    a + (b - a) * f
  }

  /** Linear interpolation between the two samples around a fractional position. */
  function At(v: seq<real>, position: real): real
    requires 0.0 <= position <= (|v| - 1) as real
  {
    var lower, upper := position.Floor, Ceil(position);
    if lower == upper then v[lower]
    else Mix(v[lower], v[upper], position - lower as real)
  }

  /** Where a quantile falls among n sorted samples. */
  function Position(n: nat, quantile: real): real
    requires n > 0
  {
    (n - 1) as real * quantile
  }

  function Percentile(v: seq<real>, quantile: real): real
    requires v != [] && 0.0 <= quantile <= 1.0
  {
    PositionInRange(|v|, quantile, 1.0);
    At(v, Position(|v|, quantile))
  }

  lemma PositionInRange(n: nat, p: real, q: real)
    requires n > 0 && 0.0 <= p <= q <= 1.0
    ensures 0.0 <= Position(n, p) <= Position(n, q) <= (n - 1) as real
  {
    var k := (n - 1) as real;
    assert 0.0 <= k;
    MulMonotone(0.0, p, k);
    MulMonotone(p, q, k);
    MulMonotone(q, 1.0, k);
  }

  lemma MixBetween(a: real, b: real, f: real)
    requires a <= b && 0.0 <= f <= 1.0
    ensures a <= Mix(a, b, f) <= b
  {
    MulMonotone(0.0, f, b - a);
    MulMonotone(f, 1.0, b - a);
  }

  lemma MixMonotone(a: real, b: real, f: real, g: real)
    requires a <= b && f <= g
    ensures Mix(a, b, f) <= Mix(a, b, g)
  {
    MulMonotone(f, g, b - a);
  }

  lemma AtBetween(v: seq<real>, x: real)
    requires IsSorted(v) && 0.0 <= x <= (|v| - 1) as real
    ensures v[x.Floor] <= At(v, x) <= v[Ceil(x)]
  {
    hide Mix;
    var l, u := x.Floor, Ceil(x);
    if l != u {
      MixBetween(v[l], v[u], x - l as real);
    }
  }

  lemma AtMonotone(v: seq<real>, x: real, y: real)
    requires IsSorted(v) && 0.0 <= x <= y <= (|v| - 1) as real
    ensures At(v, x) <= At(v, y)
  {
    hide Mix;
    var l := x.Floor;
    AtBetween(v, x);
    AtBetween(v, y);
    if y.Floor == l {
      if x != l as real {
        assert Ceil(x) == Ceil(y) == l + 1;
        MixMonotone(v[l], v[l + 1], x - l as real, y - l as real);
      }
    } else {
      assert Ceil(x) <= y.Floor;
    }
  }

  /** A higher quantile never gives a smaller percentile. */
  lemma PercentileMonotone(v: seq<real>, p: real, q: real)
    requires IsSorted(v) && v != [] && 0.0 <= p <= q <= 1.0
    ensures Percentile(v, p) <= Percentile(v, q)
  {
    hide At, Position;
    PositionInRange(|v|, p, q);
    AtMonotone(v, Position(|v|, p), Position(|v|, q));
  }

  /** Samples that are larger position by position have larger percentiles. */
  lemma PercentileDominates(v: seq<real>, w: seq<real>, q: real)
    requires v != [] && |v| == |w| && 0.0 <= q <= 1.0
    requires forall i :: 0 <= i < |v| ==> v[i] <= w[i]
    ensures Percentile(v, q) <= Percentile(w, q)
  {
    PositionInRange(|v|, q, 1.0);
    hide At, Position;
    AtDominates(v, w, Position(|v|, q));
  }

  lemma AtDominates(v: seq<real>, w: seq<real>, x: real)
    requires |v| == |w| && 0.0 <= x <= (|v| - 1) as real
    requires forall i :: 0 <= i < |v| ==> v[i] <= w[i]
    ensures At(v, x) <= At(w, x)
  {
    hide Mix;
    var l, u := x.Floor, Ceil(x);
    if l != u {
      BlendMonotone(v[l], v[u], w[l], w[u], x - l as real);
    }
  }

  lemma BlendMonotone(a: real, b: real, c: real, d: real, f: real)
    requires a <= c && b <= d && 0.0 <= f <= 1.0
    ensures Mix(a, b, f) <= Mix(c, d, f)
  {
    hide Mix;
    Blend(a, b, f);
    Blend(c, d, f);
    MulMonotone(a, c, 1.0 - f);
    MulMonotone(b, d, f);
    AddInequalities(a * (1.0 - f), b * f, c * (1.0 - f), d * f);
  }

  lemma Blend(a: real, b: real, f: real)
    ensures Mix(a, b, f) == a * (1.0 - f) + b * f
  {
  }

  lemma AddInequalities(a: real, b: real, c: real, d: real)
    requires a <= c && b <= d
    ensures a + b <= c + d
  {
  }

  /** Between two neighbouring positions a percentile is on the line through the two samples there. */
  lemma PercentileMeaning(v: seq<real>, q: real, k: nat)
    requires 0.0 <= q <= 1.0 && k + 1 < |v| && k as real <= (|v| - 1) as real * q <= (k + 1) as real
    ensures Percentile(v, q) == v[k] + (v[k + 1] - v[k]) * ((|v| - 1) as real * q - k as real)
  {
    var h := (|v| - 1) as real * q;
    if h == (k + 1) as real {
      assert h.Floor == k + 1 && h - k as real == 1.0;
    } else {
      assert h.Floor == k;
      if h == k as real {
        assert (v[k + 1] - v[k]) * 0.0 == 0.0;
      }
    }
  }

  lemma PercentileEnds(v: seq<real>)
    requires v != []
    ensures Percentile(v, 0.0) == v[0] && Percentile(v, 1.0) == v[|v| - 1]
  {
    assert Position(|v|, 0.0) == 0.0 && Position(|v|, 1.0) == (|v| - 1) as real;
  }

  /** The median as the consensus verifier takes it: the middle sample, or the mean of the middle two. */
  function Median(s: seq<real>): real
    requires s != []
  {
    var v := Sorted(s);
    var middle := |v| / 2;
    if |v| % 2 == 0 then (v[middle - 1] + v[middle]) / 2.0 else v[middle]
  }

  /** The interpolated percentile at one half is the odd/even median. */
  lemma MedianIsPercentile(s: seq<real>)
    requires s != []
    ensures Percentile(Sorted(s), 0.5) == Median(s)
  {
    var v := Sorted(s);
    hide Sorted;
    var x := Position(|v|, 0.5);
    var m := |v| / 2;
    if |v| % 2 == 0 {
      assert |v| == 2 * m;
      assert x == (m - 1) as real + 0.5;
      assert x.Floor == m - 1;
    } else {
      assert |v| == 2 * m + 1;
      assert x == m as real;
    }
  }

  lemma MedianOfTwo(x: real, y: real)
    ensures Median([x, y]) == (x + y) / 2.0
  {
    assert Sorted([x, y]) == InsertSorted(x, Sorted([y]));
    assert Sorted([y]) == InsertSorted(y, []) == [y];
  }

  /** A median of samples in a range stays in the range. */
  lemma MedianInRange(s: seq<real>, lo: real)
    requires s != [] && forall i :: 0 <= i < |s| ==> lo <= s[i]
    ensures lo <= Median(s)
  {
    var v := Sorted(s);
    forall i | 0 <= i < |v|
      ensures lo <= v[i]
    {
      assert v[i] in multiset(s);
      var j :| 0 <= j < |s| && s[j] == v[i];
    }
  }

  lemma PositiveMedian(s: seq<real>)
    requires s != [] && forall i :: 0 <= i < |s| ==> 0.0 < s[i]
    ensures 0.0 < Median(s)
  {
    var v := Sorted(s);
    hide Sorted;
    SortedIsSorted(s);
    assert v[0] in multiset(s);
    forall i | 0 <= i < |s|
      ensures v[0] <= s[i]
    {
      assert s[i] in multiset(v);
    }
    MedianInRange(s, v[0]);
  }

  lemma MedianAtMost(s: seq<real>, hi: real)
    requires s != [] && forall i :: 0 <= i < |s| ==> s[i] <= hi
    ensures Median(s) <= hi
  {
    hide Sorted;
    var v := Sorted(s);
    forall i | 0 <= i < |v|
      ensures v[i] <= hi
    {
      assert v[i] in multiset(s);
    }
  }

  // ----- The summary -----

  function Mean(s: seq<real>): real
    requires s != []
  {
    Sum(s) / |s| as real
  }

  function Square(x: real): real {
    x * x
  }

  function SquaredDeviations(s: seq<real>, mean: real): real {
    if s == [] then 0.0 else Square(s[0] - mean) + SquaredDeviations(s[1..], mean)
  }

  datatype Summary = Summary(min: real, median: real, mean: real, p95: real, p99: real, max: real, variance: real)

  predicate Negative(x: real) {
    x < 0.0
  }

  /** Empty or negative samples are rejected; the rest are summarised in sorted order. */
  function Summarize(samples: seq<real>): Option<Summary> {
    if samples == [] || exists i :: 0 <= i < |samples| && Negative(samples[i]) then None
    else
      var ordered := Sorted(samples);
      var mean := Mean(ordered);
      Some(Summary(ordered[0], Percentile(ordered, 0.5), mean, Percentile(ordered, 0.95), Percentile(ordered, 0.99),
                   ordered[|ordered| - 1], SquaredDeviations(ordered, mean) / |ordered| as real))
  }

  lemma {:induction false} SumBetween(s: seq<real>, lo: real, hi: real)
    requires forall i :: 0 <= i < |s| ==> lo <= s[i] <= hi
    ensures lo * |s| as real <= Sum(s) <= hi * |s| as real
  {
    if s != [] {
      SumBetween(s[1..], lo, hi);
      var n := |s[1..]| as real;
      assert |s| as real == n + 1.0;
      Distribute(lo, n, 1.0);
      Distribute(hi, n, 1.0);
    }
  }

  lemma MeanBetween(s: seq<real>, lo: real, hi: real)
    requires s != [] && forall i :: 0 <= i < |s| ==> lo <= s[i] <= hi
    ensures lo <= Mean(s) <= hi
  {
    SumBetween(s, lo, hi);
    QuotientAtLeast(Sum(s), |s| as real, lo);
    QuotientAtMost(Sum(s), |s| as real, hi);
  }

  /** The product of the mean's distances to both ends. */
  function Spread(mean: real, lo: real, hi: real): real {
    (hi - mean) * (mean - lo)
  }

  function Tilt(mean: real, lo: real, hi: real): real {
    hi + lo - 2.0 * mean
  }

  /** One sample's deviation, against the spread. */
  lemma OneDeviation(x: real, mean: real, lo: real, hi: real)
    requires lo <= x <= hi
    ensures 0.0 <= Square(x - mean) <= Spread(mean, lo, hi) + (x - mean) * Tilt(mean, lo, hi)
  {
    MulMonotone(0.0, hi - x, x - lo);
    assert (x - mean) * (x - mean)
        == (hi - mean) * (mean - lo) + (x - mean) * (hi + lo - 2.0 * mean) - (hi - x) * (x - lo);
  }

  /** The sum of squared deviations, with the slack of a sum that is off the mean. */
  function DeviationCap(sum: real, n: real, mean: real, k: real, l: real): real {
    k * n + (sum - mean * n) * l
  }

  lemma {:induction false} DeviationsBounded(s: seq<real>, mean: real, lo: real, hi: real)
    requires forall i :: 0 <= i < |s| ==> lo <= s[i] <= hi
    ensures 0.0 <= SquaredDeviations(s, mean)
            <= DeviationCap(Sum(s), |s| as real, mean, Spread(mean, lo, hi), Tilt(mean, lo, hi))
  {
    hide DeviationCap, Spread, Tilt, Square;
    if s == [] {
      EmptyCap(mean, Spread(mean, lo, hi), Tilt(mean, lo, hi));
    } else {
      DeviationsBounded(s[1..], mean, lo, hi);
      AddOneSample(s[0], Sum(s[1..]), |s[1..]| as real, mean, lo, hi);
      assert |s| as real == |s[1..]| as real + 1.0;
    }
  }

  lemma EmptyCap(mean: real, k: real, l: real)
    ensures DeviationCap(0.0, 0.0, mean, k, l) == 0.0
  {
  }

  lemma AddOneSample(x: real, rest: real, n: real, mean: real, lo: real, hi: real)
    requires lo <= x <= hi
    ensures 0.0 <= Square(x - mean)
    ensures Square(x - mean) + DeviationCap(rest, n, mean, Spread(mean, lo, hi), Tilt(mean, lo, hi))
            <= DeviationCap(x + rest, n + 1.0, mean, Spread(mean, lo, hi), Tilt(mean, lo, hi))
  {
    hide Square, Spread, Tilt, DeviationCap;
    OneDeviation(x, mean, lo, hi);
    CapStep(x, rest, n, mean, Spread(mean, lo, hi), Tilt(mean, lo, hi));
  }

  lemma CapStep(x: real, rest: real, n: real, mean: real, k: real, l: real)
    ensures DeviationCap(x + rest, n + 1.0, mean, k, l) == DeviationCap(rest, n, mean, k, l) + k + (x - mean) * l
  {
    Distribute(k, n, 1.0);
    Distribute(mean, n, 1.0);
    var y := rest - mean * n;
    assert x + rest - mean * (n + 1.0) == y + (x - mean);
    assert (y + (x - mean)) * l == y * l + (x - mean) * l;
  }

  /** The variance is at most the product of the mean's distances to the extremes. */
  lemma VarianceBound(s: seq<real>, lo: real, hi: real)
    requires s != [] && forall i :: 0 <= i < |s| ==> lo <= s[i] <= hi
    ensures 0.0 <= SquaredDeviations(s, Mean(s)) / |s| as real <= Spread(Mean(s), lo, hi)
  {
    hide SquaredDeviations, DeviationCap, Sum, Mean, Spread, Tilt;
    DeviationsBounded(s, Mean(s), lo, hi);
    CapAtMean(s, Spread(Mean(s), lo, hi), Tilt(Mean(s), lo, hi));
    QuotientBetween(SquaredDeviations(s, Mean(s)), |s| as real, Spread(Mean(s), lo, hi));
  }

  lemma CapAtMean(s: seq<real>, k: real, l: real)
    requires s != []
    ensures DeviationCap(Sum(s), |s| as real, Mean(s), k, l) == k * |s| as real
  {
    hide Sum;
    var n := |s| as real;
    assert Mean(s) * n == Sum(s);
    assert (Sum(s) - Mean(s) * n) * l == 0.0;
  }

  lemma QuotientBetween(d: real, n: real, k: real)
    requires 0.0 < n && 0.0 <= d <= k * n
    ensures 0.0 <= d / n <= k
  {
    QuotientAtMost(d, n, k);
    QuotientAtLeast(d, n, 0.0);
  }

  /** Every accepted summary is ordered, its mean lies between the extremes, its variance is bounded. */
  lemma SummaryIsOrdered(samples: seq<real>)
    requires Summarize(samples).Some?
    ensures var s := Summarize(samples).value;
            && 0.0 <= s.min <= s.median <= s.p95 <= s.p99 <= s.max
            && s.min <= s.mean <= s.max
            && 0.0 <= s.variance <= Spread(s.mean, s.min, s.max)
            && s.median == Median(samples)
  {
    var v := Sorted(samples);
    SortedIsSorted(samples);
    hide Sorted, SquaredDeviations, Mean, At, Spread;
    PercentileEnds(v);
    PercentileMonotone(v, 0.0, 0.5);
    PercentileMonotone(v, 0.5, 0.95);
    PercentileMonotone(v, 0.95, 0.99);
    PercentileMonotone(v, 0.99, 1.0);
    MeanBetween(v, v[0], v[|v| - 1]);
    VarianceBound(v, v[0], v[|v| - 1]);
    MedianIsPercentile(samples);
    assert v[0] in multiset(samples);
    var j :| 0 <= j < |samples| && samples[j] == v[0];
    assert !Negative(samples[j]);
  }

  // ----- What the summary comes to -----

  lemma {:induction false} SumsOfInsert(x: real, v: seq<real>, m: real)
    ensures Sum(InsertSorted(x, v)) == x + Sum(v)
    ensures SquaredDeviations(InsertSorted(x, v), m) == Square(x - m) + SquaredDeviations(v, m)
  {
    hide Square;
    if v == [] || x <= v[0] {
      assert ([x] + v)[1..] == v;
    } else {
      SumsOfInsert(x, v[1..], m);
      var r := InsertSorted(x, v[1..]);
      assert ([v[0]] + r)[1..] == r;
    }
  }

  lemma {:induction false} SumsOfSorted(s: seq<real>, m: real)
    ensures Sum(Sorted(s)) == Sum(s)
    ensures SquaredDeviations(Sorted(s), m) == SquaredDeviations(s, m)
  {
    hide Square, InsertSorted;
    if s != [] {
      SumsOfSorted(s[1..], m);
      SumsOfInsert(s[0], Sorted(s[1..]), m);
    }
  }

  /** The squared deviations of n samples from m, by the sum of their squares and their sum. */
  function Expansion(squares: real, sum: real, n: real, m: real): real {
    squares - 2.0 * (m * sum) + n * (m * m)
  }

  lemma {:induction false} DeviationsExpand(s: seq<real>, squares: seq<real>, m: real)
    requires |squares| == |s| && forall i :: 0 <= i < |s| ==> squares[i] == Square(s[i])
    ensures SquaredDeviations(s, m) == Expansion(Sum(squares), Sum(s), |s| as real, m)
  {
    hide Expansion, Square;
    if s == [] {
      NothingToExpand(m);
    } else {
      DeviationsExpand(s[1..], squares[1..], m);
      ExpandOne(s[0], m, Sum(squares[1..]), Sum(s[1..]), |s[1..]| as real);
      assert |s| as real == |s[1..]| as real + 1.0;
    }
  }

  lemma NothingToExpand(m: real)
    ensures Expansion(0.0, 0.0, 0.0, m) == 0.0
  {
  }

  lemma ExpandOne(x: real, m: real, squares: real, rest: real, n: real)
    ensures Square(x - m) + Expansion(squares, rest, n, m) == Expansion(Square(x) + squares, x + rest, n + 1.0, m)
  {
    assert (x - m) * (x - m) == x * x - 2.0 * (m * x) + m * m;
    Distribute(m, x, rest);
    assert (n + 1.0) * (m * m) == n * (m * m) + m * m;
  }

  lemma ExpansionAtMean(mean: real, n: real, squares: real, sum: real)
    requires mean * n == sum
    ensures Expansion(squares, sum, n, mean) == squares - Times(n, Square(mean))
  {
    assert mean * sum == mean * (mean * n);
    assert mean * (mean * n) == n * (mean * mean);
  }

  /**
   The summary of samples in any order: their extremes, the three percentiles of them in sorted order,
   the mean of their sum, and the mean of their squares less the square of that.
   */
  lemma SummaryMeaning(samples: seq<real>, squares: seq<real>)
    requires Summarize(samples).Some?
    requires |squares| == |samples| && forall i :: 0 <= i < |samples| ==> squares[i] == Square(samples[i])
    ensures var s, n := Summarize(samples).value, |samples| as real;
            && samples != [] && s.min in samples && s.max in samples
            && (forall i :: 0 <= i < |samples| ==> s.min <= samples[i] <= s.max)
            && s.median == Percentile(Sorted(samples), 0.5)
            && s.p95 == Percentile(Sorted(samples), 0.95) && s.p99 == Percentile(Sorted(samples), 0.99)
            && s.mean == Sum(samples) / n && s.variance == (Sum(squares) - Times(n, Square(s.mean))) / n
  {
    hide *;
    SummaryFields(samples);
    ExtremesOfSorted(samples);
    Moments(samples, squares);
  }

  lemma SummaryFields(samples: seq<real>)
    requires Summarize(samples).Some?
    ensures samples != []
    ensures var s, v := Summarize(samples).value, Sorted(samples);
            && s.min == v[0] && s.max == v[|v| - 1] && s.mean == Mean(v)
            && s.median == Percentile(v, 0.5) && s.p95 == Percentile(v, 0.95) && s.p99 == Percentile(v, 0.99)
            && s.variance == SquaredDeviations(v, Mean(v)) / |samples| as real
  {
    hide Sorted, Percentile, SquaredDeviations, Mean;
  }

  lemma ExtremesOfSorted(samples: seq<real>)
    requires samples != []
    ensures var v := Sorted(samples);
            && v[0] in samples && v[|v| - 1] in samples
            && forall i :: 0 <= i < |samples| ==> v[0] <= samples[i] <= v[|v| - 1]
  {
    hide Sorted;
    var v := Sorted(samples);
    SortedIsSorted(samples);
    assert v[0] in multiset(samples) && v[|v| - 1] in multiset(samples);
    forall i | 0 <= i < |samples|
      ensures v[0] <= samples[i] <= v[|v| - 1]
    {
      assert samples[i] in multiset(v);
    }
  }

  lemma Moments(samples: seq<real>, squares: seq<real>)
    requires samples != []
    requires |squares| == |samples| && forall i :: 0 <= i < |samples| ==> squares[i] == Square(samples[i])
    ensures var v, n := Sorted(samples), |samples| as real;
            && Mean(v) == Sum(samples) / n
            && SquaredDeviations(v, Mean(v)) == Sum(squares) - Times(n, Square(Mean(v)))
  {
    hide Sorted, SquaredDeviations, Sum, Square, Times, Expansion;
    var v, n := Sorted(samples), |samples| as real;
    SumsOfSorted(samples, Mean(v));
    DeviationsExpand(samples, squares, Mean(v));
    QuotientTimes(Sum(samples), n);
    ExpansionAtMean(Mean(v), n, Sum(squares), Sum(samples));
  }

  lemma QuotientTimes(a: real, b: real)
    requires b != 0.0
    ensures a / b * b == a
  {
  }

  /** Exactly empty samples and negative ones are rejected. */
  lemma SummarizeIff(samples: seq<real>)
    ensures Summarize(samples).Some? <==> samples != [] && forall i :: 0 <= i < |samples| ==> samples[i] >= 0.0
  {
    hide Sorted, Percentile, SquaredDeviations, Mean;
    if i :| 0 <= i < |samples| && samples[i] < 0.0 {
      assert Negative(samples[i]);
    }
  }
}
