/**
 The softmax attention reference against which both GPU paths are validated: one row of
 scores, weights relative to the row maximum, and a weighted mean of a value column.  The
 fused path makes one pass over chunks of keys with a running maximum; the two agree.
 */
module Attention {
  import opened PassStructure
  import opened RealArithmetic

  ghost predicate ExpLaw(exp: real -> real, x: real, y: real) {
    exp(x + y) == Times(exp(x), exp(y))
  }

  /** All that is used of the exponential: it is positive and turns sums into products. */
  ghost predicate IsExp(exp: real -> real) {
    && (forall x :: 0.0 < exp(x))
    && (forall x, y :: ExpLaw(exp, x, y))
  }

  lemma ExpPositive(exp: real -> real, x: real)
    requires IsExp(exp)
    ensures 0.0 < exp(x)
  {
  }

  lemma ExpShift(exp: real -> real, s: real, from: real, to: real)
    requires IsExp(exp)
    ensures exp(s - to) == Times(exp(from - to), exp(s - from))
  {
    assert ExpLaw(exp, from - to, s - from);
    assert (from - to) + (s - from) == s - to;
  }

  function MaxOf(s: seq<real>): (m: real)
    requires s != []
    ensures m in s
    ensures forall i :: 0 <= i < |s| ==> s[i] <= m
  {
    if |s| == 1 then s[0]
    else
      var m' := MaxOf(s[1..]);
      assert forall i :: 1 <= i < |s| ==> s[i] == s[1..][i - 1];
      Max(s[0], m')
  }

  /** The softmax denominator of a row of scores, relative to m. */
  function Total(exp: real -> real, s: seq<real>, m: real): real {
    if s == [] then 0.0 else exp(s[0] - m) + Total(exp, s[1..], m)
  }

  /** The softmax numerator for one value column. */
  function Weighted(exp: real -> real, s: seq<real>, v: seq<real>, m: real): real
    requires |s| == |v|
  {
    if s == [] then 0.0 else Times(exp(s[0] - m), v[0]) + Weighted(exp, s[1..], v[1..], m)
  }

  lemma {:induction false} TotalPositive(exp: real -> real, s: seq<real>, m: real)
    requires IsExp(exp)
    ensures 0.0 <= Total(exp, s, m)
    ensures s != [] ==> 0.0 < Total(exp, s, m)
  {
    if s != [] {
      TotalPositive(exp, s[1..], m);
    }
  }

  /** Softmax of the scores, taken relative to m, applied to a value column. */
  function SoftmaxAt(exp: real -> real, s: seq<real>, v: seq<real>, m: real): real
    requires |s| == |v| && s != [] && Total(exp, s, m) != 0.0
  {
    Weighted(exp, s, v, m) / Total(exp, s, m)
  }

  /** What the reference computes for a row and a column with at least one key. */
  ghost function Expected(exp: real -> real, s: seq<real>, v: seq<real>): real
    requires IsExp(exp) && |s| == |v| && s != []
  {
    TotalPositive(exp, s, MaxOf(s));
    SoftmaxAt(exp, s, v, MaxOf(s))
  }

  /** Moving the reference point of a row scales both sums by the same factor. */
  lemma {:induction false} Rescale(exp: real -> real, s: seq<real>, v: seq<real>, from: real, to: real)
    requires IsExp(exp) && |s| == |v|
    ensures Total(exp, s, to) == Times(exp(from - to), Total(exp, s, from))
    ensures Weighted(exp, s, v, to) == Times(exp(from - to), Weighted(exp, s, v, from))
  {
    var k := exp(from - to);
    if s == [] {
      assert Times(k, 0.0) == 0.0;
    } else {
      hide IsExp;
      var w, w' := exp(s[0] - from), exp(s[0] - to);
      Rescale(exp, s[1..], v[1..], from, to);
      ExpShift(exp, s[0], from, to);
      Distribute(k, w, Total(exp, s[1..], from));
      Distribute(k, Times(w, v[0]), Weighted(exp, s[1..], v[1..], from));
      MulAssociates(k, w, v[0]);
    }
  }

  /** The row maximum only guards against overflow: any reference point gives the same output. */
  lemma AnyReferencePoint(exp: real -> real, s: seq<real>, v: seq<real>, m: real)
    requires IsExp(exp) && |s| == |v| && s != []
    ensures 0.0 < Total(exp, s, m)
    ensures SoftmaxAt(exp, s, v, m) == Expected(exp, s, v)
  {
    var x := MaxOf(s);
    var k, t, w := exp(x - m), Total(exp, s, x), Weighted(exp, s, v, x);
    TotalPositive(exp, s, m);
    TotalPositive(exp, s, x);
    Rescale(exp, s, v, x, m);
    QuotientScales(w, t, k);
  }

  function Shift(s: seq<real>, c: real): seq<real> {
    seq(|s|, i requires 0 <= i < |s| => s[i] + c)
  }

  lemma {:induction false} ShiftSums(exp: real -> real, s: seq<real>, v: seq<real>, c: real, m: real)
    requires |s| == |v|
    ensures Total(exp, Shift(s, c), m) == Total(exp, s, m - c)
    ensures Weighted(exp, Shift(s, c), v, m) == Weighted(exp, s, v, m - c)
  {
    if s != [] {
      ShiftSums(exp, s[1..], v[1..], c, m);
      assert Shift(s, c)[1..] == Shift(s[1..], c);
      assert s[0] + c - m == s[0] - (m - c);
    }
  }

  /** Adding one constant to every score of a row does not change the output. */
  lemma ShiftInvariance(exp: real -> real, s: seq<real>, v: seq<real>, c: real)
    requires IsExp(exp) && |s| == |v| && s != []
    ensures Expected(exp, Shift(s, c), v) == Expected(exp, s, v)
  {
    hide IsExp;
    var m := MaxOf(Shift(s, c));
    ShiftSums(exp, s, v, c, m);
    AnyReferencePoint(exp, s, v, m - c);
  }

  lemma {:induction false} WeightedBetween(exp: real -> real, s: seq<real>, v: seq<real>, m: real, lo: real, hi: real)
    requires IsExp(exp) && |s| == |v|
    requires forall i :: 0 <= i < |v| ==> lo <= v[i] <= hi
    ensures Times(lo, Total(exp, s, m)) <= Weighted(exp, s, v, m) <= Times(hi, Total(exp, s, m))
  {
    if s == [] {
      assert Times(lo, 0.0) == Times(hi, 0.0) == 0.0;
    } else {
      ExpPositive(exp, s[0] - m);
      hide IsExp;
      var w, t := exp(s[0] - m), Total(exp, s[1..], m);
      WeightedBetween(exp, s[1..], v[1..], m, lo, hi);
      WeightOne(w, v[0], lo, hi);
      Distribute(lo, w, t);
      Distribute(hi, w, t);
    }
  }

  lemma WeightOne(w: real, x: real, lo: real, hi: real)
    requires 0.0 < w && lo <= x <= hi
    ensures Times(lo, w) <= Times(w, x) <= Times(hi, w)
  {
    MulMonotone(lo, x, w);
    MulMonotone(x, hi, w);
  }

  /** Attention interpolates: the output lies between the least and the greatest value of its column. */
  lemma OutputBetweenValues(exp: real -> real, s: seq<real>, v: seq<real>, lo: real, hi: real)
    requires IsExp(exp) && |s| == |v| && s != []
    requires forall i :: 0 <= i < |v| ==> lo <= v[i] <= hi
    ensures lo <= Expected(exp, s, v) <= hi
  {
    var m := MaxOf(s);
    TotalPositive(exp, s, m);
    WeightedBetween(exp, s, v, m, lo, hi);
    QuotientAtMost(Weighted(exp, s, v, m), Total(exp, s, m), hi);
    QuotientAtLeast(Weighted(exp, s, v, m), Total(exp, s, m), lo);
  }

  // ----- The fused path: chunks of keys with a running maximum -----

  datatype Running = Empty | Running(max: real, total: real, acc: real)

  /** Fold one chunk in: raise the maximum, rescale what was accumulated, add the chunk's terms. */
  function Absorb(exp: real -> real, r: Running, s: seq<real>, v: seq<real>): Running
    requires |s| == |v| && s != []
  {
    var chunkMax := MaxOf(s);
    match r
    case Empty => Running(chunkMax, Total(exp, s, chunkMax), Weighted(exp, s, v, chunkMax))
    case Running(max, total, acc) =>
      var m := Max(max, chunkMax);
      var scale := exp(max - m);
      Running(m, Times(scale, total) + Total(exp, s, m), Times(scale, acc) + Weighted(exp, s, v, m))
  }

  /** All chunks of at most `chunk` keys in turn; also the number of chunks. */
  function OnlineSoftmax(exp: real -> real, r: Running, s: seq<real>, v: seq<real>, chunk: nat): (Running, nat)
    requires |s| == |v| && chunk > 0
    decreases |s|
  {
    if s == [] then (r, 0)
    else
      var n := if |s| < chunk then |s| else chunk;
      var (final, chunks) := OnlineSoftmax(exp, Absorb(exp, r, s[..n], v[..n]), s[n..], v[n..], chunk);
      (final, chunks + 1)
  }

  /** The running state stands for the keys seen so far. */
  ghost predicate Stands(exp: real -> real, r: Running, s: seq<real>, v: seq<real>)
    requires |s| == |v|
  {
    match r
    case Empty => s == []
    case Running(max, total, acc) =>
      total == Total(exp, s, max) && acc == Weighted(exp, s, v, max) && s != []
  }

  lemma {:induction false} SumsAppend(exp: real -> real, s: seq<real>, v: seq<real>, s': seq<real>, v': seq<real>,
      m: real)
    requires |s| == |v| && |s'| == |v'|
    ensures Total(exp, s + s', m) == Total(exp, s, m) + Total(exp, s', m)
    ensures Weighted(exp, s + s', v + v', m) == Weighted(exp, s, v, m) + Weighted(exp, s', v', m)
  {
    if s == [] {
      assert s + s' == s' && v + v' == v';
    } else {
      SumsAppend(exp, s[1..], v[1..], s', v', m);
      assert (s + s')[1..] == s[1..] + s' && (v + v')[1..] == v[1..] + v';
    }
  }

  lemma AbsorbStands(exp: real -> real, r: Running, s: seq<real>, v: seq<real>, s': seq<real>, v': seq<real>)
    requires IsExp(exp) && |s| == |v| && |s'| == |v'| && s' != []
    requires Stands(exp, r, s, v)
    ensures Stands(exp, Absorb(exp, r, s', v'), s + s', v + v')
  {
    hide IsExp;
    match r
    case Empty =>
      assert s + s' == s' && v + v' == v';
    case Running(max, total, acc) =>
      var m := Max(max, MaxOf(s'));
      Rescale(exp, s, v, max, m);
      SumsAppend(exp, s, v, s', v', m);
  }

  lemma {:induction false} OnlineStands(exp: real -> real, r: Running, s: seq<real>, v: seq<real>,
                                        s': seq<real>, v': seq<real>, chunk: nat)
    requires IsExp(exp) && |s| == |v| && |s'| == |v'| && chunk > 0
    requires Stands(exp, r, s, v)
    ensures Stands(exp, OnlineSoftmax(exp, r, s', v', chunk).0, s + s', v + v')
    decreases |s'|
  {
    if s' == [] {
      assert s + s' == s && v + v' == v;
    } else {
      hide IsExp, Absorb, Stands;
      var n := if |s'| < chunk then |s'| else chunk;
      AbsorbStands(exp, r, s, v, s'[..n], v'[..n]);
      OnlineStands(exp, Absorb(exp, r, s'[..n], v'[..n]), s + s'[..n], v + v'[..n], s'[n..], v'[n..], chunk);
      assert s + s'[..n] + s'[n..] == s + s' && v + v'[..n] + v'[n..] == v + v';
    }
  }

  /**
   The one-pass form refines the two-pass reference: for every number of keys and every chunk
   size, its accumulated quotient is the reference output.
   */
  lemma OnlineEqualsReference(exp: real -> real, s: seq<real>, v: seq<real>, chunk: nat)
    requires IsExp(exp) && |s| == |v| && s != [] && chunk > 0
    ensures var r := OnlineSoftmax(exp, Empty, s, v, chunk).0;
            r.Running? && 0.0 < r.total && r.acc / r.total == Expected(exp, s, v)
  {
    hide IsExp, OnlineSoftmax;
    OnlineStands(exp, Empty, [], [], s, v, chunk);
    assert [] + s == s && [] + v == v;
    var r := OnlineSoftmax(exp, Empty, s, v, chunk).0;
    AnyReferencePoint(exp, s, v, r.max);
  }

  /** The traffic model's chunk count is the number of chunks the pass makes. */
  lemma {:induction false} ChunkCount(exp: real -> real, r: Running, s: seq<real>, v: seq<real>, chunk: nat)
    requires |s| == |v| && chunk > 0
    ensures OnlineSoftmax(exp, r, s, v, chunk).1 == CeilDiv(|s|, chunk)
    decreases |s|
  {
    hide Absorb;
    if s == [] {
    } else if |s| < chunk {
      CeilDivIsLeast(|s|, chunk, 0);
      CeilDivIsLeast(|s|, chunk, 1);
    } else {
      ChunkCount(exp, Absorb(exp, r, s[..chunk], v[..chunk]), s[chunk..], v[chunk..], chunk);
      CeilDivStep(|s|, chunk);
    }
  }
}
