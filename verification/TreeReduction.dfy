/**
 The whole multi-pass reduction: every pass splits the partial sums into blocks of 2^k lanes
 and adds the lanes of each block by halving strides.  The harness's error bound covers it, whatever
 the input, the block size and the rounding of each addition.
 */
module TreeReduction {
  import opened PassStructure
  import opened RealArithmetic
  import opened SummationError

  /** One pass over the partial sums, with 2^k lanes to a block. */
  function OnePassTrees(ts: seq<SumTree>, k: nat): seq<SumTree>
    decreases |ts|
  {
    PowPositive(2, k);
    if ts == [] then []
    else if |ts| <= Pow(2, k) then [BlockTree(ts, k)]
    else [BlockTree(ts[..Pow(2, k)], k)] + OnePassTrees(ts[Pow(2, k)..], k)
  }

  lemma {:induction false} PassSize(ts: seq<SumTree>, k: nat)
    requires Pow(2, k) > 0
    ensures |OnePassTrees(ts, k)| == CeilDiv(|ts|, Pow(2, k))
    decreases |ts|
  {
    hide Pow, BlockTree;
    var span := Pow(2, k);
    if ts == [] {
    } else if |ts| <= span {
      CeilDivIsLeast(|ts|, span, 1);
      CeilDivIsLeast(|ts|, span, 0);
    } else {
      PassSize(ts[span..], k);
      CeilDivStep(|ts|, span);
    }
  }

  lemma {:induction false} PassKeepsSums(ts: seq<SumTree>, k: nat)
    ensures SumExact(OnePassTrees(ts, k)) == SumExact(ts)
    ensures SumMagnitude(OnePassTrees(ts, k)) == SumMagnitude(ts)
    decreases |ts|
  {
    PowPositive(2, k);
    if ts == [] {
    } else if |ts| <= Pow(2, k) {
      BlockKeepsSums(ts, k);
      Singleton(BlockTree(ts, k));
    } else {
      var head, rest := ts[..Pow(2, k)], ts[Pow(2, k)..];
      SumsSplit(ts, Pow(2, k));
      BlockKeepsSums(head, k);
      PassKeepsSums(rest, k);
      PrependSums(BlockTree(head, k), OnePassTrees(rest, k));
    }
  }

  lemma Singleton(t: SumTree)
    ensures SumExact([t]) == t.Exact() && SumMagnitude([t]) == t.Magnitude()
  {
    assert [t][1..] == [];
  }

  lemma PrependSums(t: SumTree, ts: seq<SumTree>)
    ensures SumExact([t] + ts) == t.Exact() + SumExact(ts)
    ensures SumMagnitude([t] + ts) == t.Magnitude() + SumMagnitude(ts)
  {
    assert ([t] + ts)[1..] == ts;
  }

  /** A pass adds at most k inexact levels, and only ceil(log2 m) when all m sums fit one block. */
  lemma {:induction false} PassDepth(ts: seq<SumTree>, k: nat, d: nat)
    requires DepthsAtMost(ts, d)
    ensures DepthsAtMost(OnePassTrees(ts, k), d + k)
    ensures 1 <= |ts| <= Pow(2, k) ==> DepthsAtMost(OnePassTrees(ts, k), d + BitLength(|ts| - 1))
    decreases |ts|
  {
    PowPositive(2, k);
    if ts == [] {
    } else if |ts| <= Pow(2, k) {
      BlockDepth(ts, k, d);
    } else {
      BlockDepth(ts[..Pow(2, k)], k, d);
      PassDepth(ts[Pow(2, k)..], k, d);
    }
  }

  /** Passes until one partial sum is left: its tree, and how many passes there were. */
  function MultiPass(ts: seq<SumTree>, k: nat): (SumTree, nat)
    requires ts != [] && k >= 1
    decreases |ts|
  {
    var next := OnePassTrees(ts, k);
    PassProgress(ts, k);
    if |next| == 1 then (next[0], 1)
    else
      var (t, p) := MultiPass(next, k);
      (t, p + 1)
  }

  lemma PassProgress(ts: seq<SumTree>, k: nat)
    requires ts != [] && k >= 1
    ensures Pow(2, k) >= 2
    ensures 1 <= |OnePassTrees(ts, k)| == CeilDiv(|ts|, Pow(2, k))
    ensures |OnePassTrees(ts, k)| == 1 <==> |ts| <= Pow(2, k)
    ensures |ts| > Pow(2, k) ==> |OnePassTrees(ts, k)| < |ts|
  {
    hide OnePassTrees;
    PowMonotone(2, 1, k);
    PassSize(ts, k);
    CeilDivIsLeast(|ts|, Pow(2, k), 0);
    CeilDivIsLeast(|ts|, Pow(2, k), 1);
    if |ts| >= 2 {
      CeilDivShrinks(|ts|, Pow(2, k));
    }
  }

  /** The reduction makes exactly the passes that the traffic loop counts. */
  lemma {:induction false} MultiPassCount(ts: seq<SumTree>, k: nat)
    requires ts != [] && k >= 1
    ensures IsLeastPassCount(|ts|, Pow(2, k), MultiPass(ts, k).1)
    decreases |ts|
  {
    hide OnePassTrees;
    var span, next := Pow(2, k), OnePassTrees(ts, k);
    PassProgress(ts, k);
    if |next| == 1 {
      assert Pow(span, 1) == span * Pow(span, 0) == span;
    } else {
      MultiPassCount(next, k);
      var p := MultiPass(next, k).1;
      forall q | 0 <= q
        ensures |next| <= Pow(span, q) <==> |ts| <= Pow(span, q + 1)
      {
        CeilDivIsLeast(|ts|, span, Pow(span, q));
        assert Pow(span, q) * span == Pow(span, q + 1);
      }
      LiftPassCount(|ts|, |next|, span, p);
    }
  }

  lemma LiftPassCount(n: nat, m: nat, span: nat, p: nat)
    requires span < n && 2 <= m && IsLeastPassCount(m, span, p)
    requires forall q: nat {:trigger Pow(span, q)} :: m <= Pow(span, q) <==> n <= Pow(span, q + 1)
    ensures IsLeastPassCount(n, span, p + 1)
  {
    forall q | 1 <= q < p + 1
      ensures Pow(span, q) < n
    {
      if q == 1 {
        assert Pow(span, 1) == span * Pow(span, 0) == span;
      } else {
        assert Pow(span, q - 1) < m;
      }
    }
    assert m <= Pow(span, p);
  }

  /** No path of the whole reduction has more than ceil(log2 n) inexact additions. */
  lemma {:induction false} MultiPassDepth(ts: seq<SumTree>, k: nat, d: nat)
    requires ts != [] && k >= 1 && DepthsAtMost(ts, d)
    ensures MultiPass(ts, k).0.InexactDepth() <= d + BitLength(|ts| - 1)
    decreases |ts|
  {
    hide OnePassTrees, SumTree.InexactDepth;
    var next := OnePassTrees(ts, k);
    PassProgress(ts, k);
    PassDepth(ts, k, d);
    if |next| > 1 {
      MultiPassDepth(next, k, d + k);
      LogOfCeilDiv(|ts|, k);
    }
  }

  /** Dividing by 2^k takes k off the ceiling of the logarithm. */
  lemma LogOfCeilDiv(n: nat, k: nat)
    requires Pow(2, k) > 0 && n > Pow(2, k)
    ensures CeilDiv(n, Pow(2, k)) >= 1
    ensures BitLength(CeilDiv(n, Pow(2, k)) - 1) + k <= BitLength(n - 1)
  {
    hide CeilDiv, Pow, BitLength;
    var l, m := BitLength(n - 1), CeilDiv(n, Pow(2, k));
    BitLengthIsCeilLog(n, k);
    BitLengthIsCeilLog(n, l);
    CeilDivIsLeast(n, Pow(2, k), 0);
    CeilDivIsLeast(n, Pow(2, k), Pow(2, l - k));
    PowAdds(l - k, k);
    BitLengthIsCeilLog(m, l - k);
  }

  lemma {:induction false} PowAdds(a: nat, b: nat)
    ensures Pow(2, a) * Pow(2, b) == Pow(2, a + b)
  {
    if a > 0 {
      PowAdds(a - 1, b);
    }
  }

  lemma {:induction false} MultiPassKeepsSums(ts: seq<SumTree>, k: nat)
    requires ts != [] && k >= 1
    ensures MultiPass(ts, k).0.Exact() == SumExact(ts)
    ensures MultiPass(ts, k).0.Magnitude() == SumMagnitude(ts)
    decreases |ts|
  {
    hide OnePassTrees, SumExact, SumMagnitude;
    var next := OnePassTrees(ts, k);
    PassProgress(ts, k);
    PassKeepsSums(ts, k);
    if |next| == 1 {
      assert next == [next[0]];
      Singleton(next[0]);
    } else {
      MultiPassKeepsSums(next, k);
    }
  }

  // ----- The harness -----

  /** Machine epsilon of binary32. */
  const EPSILON: real := 1.0 / 8388608.0

  function Leaves(xs: seq<real>): seq<SumTree> {
    seq(|xs|, i requires 0 <= i < |xs| => Leaf(xs[i]))
  }

  function AbsSum(xs: seq<real>): real {
    if xs == [] then 0.0 else Abs(xs[0]) + AbsSum(xs[1..])
  }

  lemma {:induction false} LeavesSum(xs: seq<real>)
    ensures SumExact(Leaves(xs)) == Sum(xs)
    ensures SumMagnitude(Leaves(xs)) == AbsSum(xs)
  {
    if xs != [] {
      LeavesSum(xs[1..]);
      assert Leaves(xs)[1..] == Leaves(xs[1..]);
    }
  }

  /** The depth of the error bound: the bit length of n - 1, plus one. */
  function BoundDepth(n: nat): nat
    requires n > 0
  {
    BitLength(n - 1) + 1
  }

  lemma BoundDepthIsSmall(n: nat)
    requires 0 < n <= U64_MAX
    ensures BoundDepth(n) <= 65
    ensures BoundDepth(n) as real * EPSILON < 1.0
  {
    BitLengthIsCeilLog(n, 64);
    Pow64();
  }

  lemma Pow64()
    ensures Pow(2, 64) == U64_MAX + 1
  {
    assert Pow(2, 8) == 0x100;
    PowAdds(8, 8);
    PowAdds(16, 16);
    PowAdds(32, 32);
  }

  /** `error_bound`: the tolerance on the difference to the reference sum. */
  function ErrorBound(xs: seq<real>): real
    requires 0 < |xs| <= U64_MAX
  {
    BoundDepthIsSmall(|xs|);
    BoundOf(BoundDepth(|xs|), AbsSum(xs))
  }

  function BoundOf(d: nat, magnitude: real): real
    requires d as real * EPSILON < 1.0
  {
    Max(Gamma(EPSILON, d) * magnitude, EPSILON)
  }

  /** Machine epsilon, or the part s / (1 - s) of a total if that is more. */
  predicate IsGreaterPart(e: real, s: real, total: real) {
    && s < 1.0 && e >= 1.0 / 8388608.0 && e * (1.0 - s) >= s * total
    && (e == 1.0 / 8388608.0 || e * (1.0 - s) == s * total)
  }

  /**
   What the bound is: machine epsilon, or the part s / (1 - s) of the sum of all magnitudes if that is
   more, where s is d machine epsilons and d is one more than the least j with 2^j >= n.
   */
  lemma ErrorBoundMeaning(xs: seq<real>, j: nat, magnitudes: seq<real>)
    requires 0 < |xs| <= U64_MAX && |xs| <= Pow(2, j) && (j > 0 ==> Pow(2, j - 1) < |xs|)
    requires |magnitudes| == |xs| && forall i :: 0 <= i < |xs| ==> magnitudes[i] == Abs(xs[i])
    ensures IsGreaterPart(ErrorBound(xs), (j + 1) as real / 8388608.0, Sum(magnitudes))
  {
    hide Pow, BitLength, BoundDepth, AbsSum, Sum, Gamma, BoundOf, IsGreaterPart;
    DepthIs(|xs|, j);
    BoundDepthIsSmall(|xs|);
    AbsSumIsSum(xs, magnitudes);
    PartOf(j + 1, AbsSum(xs));
  }

  lemma DepthIs(n: nat, j: nat)
    requires 0 < n <= Pow(2, j) && (j > 0 ==> Pow(2, j - 1) < n)
    ensures BoundDepth(n) == j + 1
  {
    hide Pow, BitLength;
    BitLengthIsCeilLog(n, j);
    if j > 0 {
      BitLengthIsCeilLog(n, j - 1);
    }
  }

  lemma {:induction false} AbsSumIsSum(xs: seq<real>, magnitudes: seq<real>)
    requires |magnitudes| == |xs| && forall i :: 0 <= i < |xs| ==> magnitudes[i] == Abs(xs[i])
    ensures AbsSum(xs) == Sum(magnitudes)
  {
    hide Abs;
    if xs != [] {
      AbsSumIsSum(xs[1..], magnitudes[1..]);
    }
  }

  lemma PartOf(d: nat, total: real)
    requires d as real * EPSILON < 1.0
    ensures IsGreaterPart(BoundOf(d, total), d as real / 8388608.0, total)
  {
    var g, s := Gamma(EPSILON, d), d as real / 8388608.0;
    assert s == d as real * EPSILON;
    assert g * (1.0 - s) == s;
    assert g * total * (1.0 - s) == g * (1.0 - s) * total;
    MulMonotone(g * total, Max(g * total, EPSILON), 1.0 - s);
  }

  /**
   The harness never rejects a correct reduction: for every non-empty input a word can count,
   every power-of-two span of at least two and every addition with relative error at most
   machine epsilon, the result of the multi-pass tree lies within the computed bound.
   */
  lemma HarnessAcceptsEveryReduction(xs: seq<real>, k: nat, add: (real, real) -> real)
    requires 0 < |xs| <= U64_MAX && k >= 1 && RoundedAdd(add, EPSILON)
    ensures Abs(MultiPass(Leaves(xs), k).0.Eval(add) - Sum(xs)) <= ErrorBound(xs)
  {
    hide MultiPass, Leaves, Gamma, Abs, AbsSum, Sum, SumExact, SumMagnitude, ErrorBound, BoundDepth,
         SumTree.Eval, SumTree.Exact, SumTree.Magnitude, SumTree.InexactDepth, RoundedAdd, DepthsAtMost;
    LeavesAreFlat(xs);
    var t := MultiPass(Leaves(xs), k).0;
    BoundDepthIsSmall(|xs|);
    DepthWithinBound(xs, k);
    MultiPassKeepsSums(Leaves(xs), k);
    LeavesSum(xs);
    TreeErrorBound(t, add, EPSILON, BoundDepth(|xs|));
    BoundCovers(xs, t, Abs(t.Eval(add) - t.Exact()));
  }

  lemma LeavesAreFlat(xs: seq<real>)
    ensures |Leaves(xs)| == |xs|
    ensures DepthsAtMost(Leaves(xs), 0)
  {
  }

  lemma DepthWithinBound(xs: seq<real>, k: nat)
    requires xs != [] && k >= 1 && Leaves(xs) != []
    ensures MultiPass(Leaves(xs), k).0.InexactDepth() <= BoundDepth(|xs|)
  {
    hide MultiPass, SumTree.InexactDepth;
    LeavesAreFlat(xs);
    MultiPassDepth(Leaves(xs), k, 0);
  }

  lemma BoundCovers(xs: seq<real>, t: SumTree, error: real)
    requires 0 < |xs| <= U64_MAX && t.Magnitude() == AbsSum(xs)
    requires BoundDepth(|xs|) as real * EPSILON < 1.0
    requires error <= Gamma(EPSILON, BoundDepth(|xs|)) * t.Magnitude()
    ensures error <= ErrorBound(xs)
  {
    hide Gamma, AbsSum, SumTree.Magnitude, BitLength;
    BoundDepthIsSmall(|xs|);
    var g, m := Gamma(EPSILON, BoundDepth(|xs|)), AbsSum(xs);
    assert g * t.Magnitude() == g * m;
    assert ErrorBound(xs) == Max(g * m, EPSILON);
  }
}
