/**
 The forward-error bound that the reduction harness uses as its acceptance test, for the
 multi-pass tree it measures.  Floating-point addition is an arbitrary real operation with a
 bounded relative error that is exact when one operand is a zero pad.
 */
module SummationError {
  import opened PassStructure
  import opened RealArithmetic

  ghost predicate RoundedAdd(add: (real, real) -> real, eps: real) {
    && 0.0 <= eps
    && (forall a, b :: Abs(add(a, b) - (a + b)) <= eps * Abs(a + b))
    && (forall a :: add(a, 0.0) == a && add(0.0, a) == a)
  }

  /** The order in which a reduction adds its inputs; a Pad is a lane without an element. */
  datatype SumTree = Pad | Leaf(x: real) | Node(left: SumTree, right: SumTree) {
    predicate IsPad() {
      match this
      case Pad => true
      case Leaf(_) => false
      case Node(l, r) => l.IsPad() && r.IsPad()
    }

    function Eval(add: (real, real) -> real): real {
      match this
      case Pad => 0.0
      case Leaf(x) => x
      case Node(l, r) => add(l.Eval(add), r.Eval(add))
    }

    function Exact(): real {
      match this
      case Pad => 0.0
      case Leaf(x) => x
      case Node(l, r) => l.Exact() + r.Exact()
    }

    function Magnitude(): (m: real)
      ensures m >= 0.0
    {
      match this
      case Pad => 0.0
      case Leaf(x) => Abs(x)
      case Node(l, r) => l.Magnitude() + r.Magnitude()
    }

    /** The most additions on a leaf-to-root path whose two operands both hold elements. */
    function InexactDepth(): nat {
      match this
      case Pad => 0
      case Leaf(_) => 0
      case Node(l, r) =>
        var d := if l.InexactDepth() < r.InexactDepth() then r.InexactDepth() else l.InexactDepth();
        if l.IsPad() || r.IsPad() then d else d + 1
    }
  }

  lemma PadsAreZero(t: SumTree, add: (real, real) -> real, eps: real)
    requires RoundedAdd(add, eps) && t.IsPad()
    ensures t.Eval(add) == 0.0 && t.Exact() == 0.0 && t.Magnitude() == 0.0
  {
  }

  /** The factor (1 + eps)^d by which d successive roundings can enlarge a magnitude. */
  function Growth(eps: real, d: nat): real {
    if d == 0 then 1.0 else Growth(eps, d - 1) * (1.0 + eps)
  }

  lemma {:induction false} GrowthMonotone(eps: real, d: nat, e: nat)
    requires 0.0 <= eps && d <= e
    ensures 1.0 <= Growth(eps, d) <= Growth(eps, e)
    decreases e
  {
    if e > 0 {
      var g := Growth(eps, e - 1);
      GrowthMonotone(eps, if d < e then d else e - 1, e - 1);
      MulMonotone(0.0, eps, g);
      assert g * (1.0 + eps) == g + eps * g;
    }
  }

  /** Gamma, as the harness computes it from a depth and a machine epsilon. */
  function Gamma(eps: real, d: nat): real
    requires d as real * eps < 1.0
  {
    d as real * eps / (1.0 - d as real * eps)
  }

  /** The accumulated relative error d * eps, one rounding at a time. */
  function Drift(eps: real, d: nat): real {
    if d == 0 then 0.0 else Drift(eps, d - 1) + eps
  }

  lemma {:induction false} DriftIsProduct(eps: real, d: nat)
    ensures Drift(eps, d) == d as real * eps
  {
    if d > 0 {
      DriftIsProduct(eps, d - 1);
      var c := (d - 1) as real;
      assert d as real == c + 1.0;
      assert (c + 1.0) * eps == c * eps + eps;
    }
  }

  lemma {:induction false} DriftNonNegative(eps: real, d: nat)
    requires 0.0 <= eps
    ensures 0.0 <= Drift(eps, d)
  {
    if d > 0 {
      DriftNonNegative(eps, d - 1);
    }
  }

  lemma {:induction false} GrowthTimesRemainder(eps: real, d: nat)
    requires 0.0 <= eps && Drift(eps, d) < 1.0
    ensures Growth(eps, d) * (1.0 - Drift(eps, d)) <= 1.0
  {
    if d > 0 {
      GrowthTimesRemainder(eps, d - 1);
      GrowthMonotone(eps, 0, d - 1);
      DriftNonNegative(eps, d - 1);
      Telescope(eps, Drift(eps, d), Drift(eps, d - 1), Growth(eps, d - 1));
    }
  }

  lemma Telescope(eps: real, t: real, s: real, g: real)
    requires 0.0 <= eps && 0.0 <= s && t == s + eps && t < 1.0
    requires 0.0 <= g && g * (1.0 - s) <= 1.0
    ensures g * (1.0 + eps) * (1.0 - t) <= 1.0
  {
    var u := 1.0 - t;
    assert (1.0 + eps) * u == u + eps * u;
    MulMonotone(u, 1.0, eps);
    assert eps * u <= eps;
    assert (1.0 + eps) * u <= 1.0 - s;
    MulMonotone((1.0 + eps) * u, 1.0 - s, g);
    assert g * (1.0 + eps) * u == (1.0 + eps) * u * g;
  }

  /** (1 + eps)^d - 1 never exceeds gamma. */
  lemma GrowthBelowGamma(eps: real, d: nat)
    requires 0.0 <= eps && d as real * eps < 1.0
    ensures Growth(eps, d) - 1.0 <= Gamma(eps, d)
  {
    DriftIsProduct(eps, d);
    GrowthTimesRemainder(eps, d);
    DivideThrough(Growth(eps, d), Drift(eps, d));
  }

  lemma DivideThrough(g: real, t: real)
    requires t < 1.0 && g * (1.0 - t) <= 1.0
    ensures g - 1.0 <= t / (1.0 - t)
  {
    var u := 1.0 - t;
    assert (g - 1.0) * u == g * u - u;
    QuotientAtLeast(t, u, g - 1.0);
  }

  /** The error a tree can accumulate: that of its operands plus one rounding of their sum. */
  function Accumulated(t: SumTree, eps: real): real {
    match t
    case Pad => 0.0
    case Leaf(_) => 0.0
    case Node(l, r) =>
      var e := Accumulated(l, eps) + Accumulated(r, eps);
      if l.IsPad() || r.IsPad() then e else e + Times(eps, l.Magnitude() + r.Magnitude() + e)
  }

  lemma {:induction false} ErrorIsAccumulated(t: SumTree, add: (real, real) -> real, eps: real)
    requires RoundedAdd(add, eps)
    ensures Abs(t.Eval(add) - t.Exact()) <= Accumulated(t, eps)
    ensures Abs(t.Exact()) <= t.Magnitude()
  {
    if t.Node? {
      var l, r := t.left, t.right;
      ErrorIsAccumulated(l, add, eps);
      ErrorIsAccumulated(r, add, eps);
      if l.IsPad() {
        PadsAreZero(l, add, eps);
      } else if r.IsPad() {
        PadsAreZero(r, add, eps);
      } else {
        ErrorOfNode(l, r, add, eps);
      }
    }
  }

  lemma ErrorOfNode(l: SumTree, r: SumTree, add: (real, real) -> real, eps: real)
    requires RoundedAdd(add, eps) && !l.IsPad() && !r.IsPad()
    requires Abs(l.Eval(add) - l.Exact()) <= Accumulated(l, eps) && Abs(l.Exact()) <= l.Magnitude()
    requires Abs(r.Eval(add) - r.Exact()) <= Accumulated(r, eps) && Abs(r.Exact()) <= r.Magnitude()
    ensures Abs(Node(l, r).Eval(add) - Node(l, r).Exact()) <= Accumulated(Node(l, r), eps)
  {
    hide *;
    NodeUnfolds(l, r, add, eps);
    RoundedSum(add, eps, l.Eval(add), r.Eval(add), l.Exact(), r.Exact(),
               l.Magnitude(), r.Magnitude(), Accumulated(l, eps), Accumulated(r, eps));
  }

  lemma NodeUnfolds(l: SumTree, r: SumTree, add: (real, real) -> real, eps: real)
    requires !l.IsPad() && !r.IsPad()
    ensures Node(l, r).Eval(add) == add(l.Eval(add), r.Eval(add))
    ensures Node(l, r).Exact() == l.Exact() + r.Exact()
    ensures Accumulated(Node(l, r), eps)
            == Accumulated(l, eps) + Accumulated(r, eps)
               + Times(eps, l.Magnitude() + r.Magnitude() + (Accumulated(l, eps) + Accumulated(r, eps)))
  {
    hide Times, SumTree.Magnitude;
  }

  lemma RoundedSum(add: (real, real) -> real, eps: real, l: real, r: real, el: real, er: real,
                   ml: real, mr: real, al: real, ar: real)
    requires RoundedAdd(add, eps)
    requires Abs(l - el) <= al && Abs(el) <= ml && Abs(r - er) <= ar && Abs(er) <= mr
    ensures Abs(add(l, r) - (el + er)) <= al + ar + Times(eps, ml + mr + (al + ar))
  {
    OperandSize(l, r, el, er, ml, mr, al, ar);
    AddError(add, eps, l, r, ml + mr + (al + ar));
    ChainErrors(add(l, r), l, r, el, er, eps * (ml + mr + (al + ar)), al, ar);
  }

  lemma OperandSize(l: real, r: real, el: real, er: real, ml: real, mr: real, a: real, b: real)
    requires Abs(l - el) <= a && Abs(el) <= ml && Abs(r - er) <= b && Abs(er) <= mr
    ensures Abs(l + r) <= ml + mr + (a + b)
  {
  }

  lemma ChainErrors(c: real, l: real, r: real, el: real, er: real, e: real, a: real, b: real)
    requires Abs(c - (l + r)) <= e && Abs(l - el) <= a && Abs(r - er) <= b
    ensures Abs(c - (el + er)) <= a + b + e
  {
  }

  lemma AddError(add: (real, real) -> real, eps: real, a: real, b: real, m: real)
    requires RoundedAdd(add, eps) && Abs(a + b) <= m
    ensures Abs(add(a, b) - (a + b)) <= eps * m
  {
    MulMonotone(Abs(a + b), m, eps);
  }

  lemma {:induction false} AccumulatedBelowGrowth(t: SumTree, eps: real, d: nat)
    requires 0.0 <= eps && t.InexactDepth() <= d
    ensures Accumulated(t, eps) <= Times(Growth(eps, d) - 1.0, t.Magnitude())
    decreases t
  {
    hide Times, Growth;
    match t
    case Pad => ScaledMagnitude(eps, d, 0.0);
    case Leaf(x) => ScaledMagnitude(eps, d, Abs(x));
    case Node(l, r) =>
      var k := if l.IsPad() || r.IsPad() then d else d - 1;
      AccumulatedBelowGrowth(l, eps, k);
      AccumulatedBelowGrowth(r, eps, k);
      ErrorsOfOperands(Accumulated(l, eps), Accumulated(r, eps), Growth(eps, k), l.Magnitude(), r.Magnitude());
      if k < d {
        RoundOnce(Accumulated(l, eps) + Accumulated(r, eps), l.Magnitude() + r.Magnitude(), eps, k);
      }
  }

  lemma ScaledMagnitude(eps: real, d: nat, m: real)
    requires 0.0 <= eps && 0.0 <= m
    ensures 0.0 <= Times(Growth(eps, d) - 1.0, m)
  {
    GrowthMonotone(eps, 0, d);
    MulMonotone(0.0, Growth(eps, d) - 1.0, m);
  }

  lemma ErrorsOfOperands(al: real, ar: real, g: real, ml: real, mr: real)
    requires al <= Times(g - 1.0, ml) && ar <= Times(g - 1.0, mr)
    ensures al + ar <= Times(g - 1.0, ml + mr)
  {
    Distribute(g - 1.0, ml, mr);
  }

  lemma RoundOnce(e: real, m: real, eps: real, k: nat)
    requires 0.0 <= eps && e <= Times(Growth(eps, k) - 1.0, m)
    ensures e + Times(eps, m + e) <= Times(Growth(eps, k + 1) - 1.0, m)
  {
    RoundOnceReal(e, m, Growth(eps, k), eps);
  }

  lemma RoundOnceReal(e: real, m: real, g: real, eps: real)
    requires 0.0 <= eps && e <= (g - 1.0) * m
    ensures e + eps * (m + e) <= (g * (1.0 + eps) - 1.0) * m
  {
    MulMonotone(e, (g - 1.0) * m, 1.0 + eps);
    assert e * (1.0 + eps) + eps * m == e + eps * (m + e);
    assert (g - 1.0) * m * (1.0 + eps) + eps * m == (g * (1.0 + eps) - 1.0) * m;
  }

  /**
   Any summation tree, any rounding: if no leaf-to-root path has more than d inexact
   additions, the computed sum is off by at most gamma(d) times the sum of magnitudes.
   */
  lemma TreeErrorBound(t: SumTree, add: (real, real) -> real, eps: real, d: nat)
    requires RoundedAdd(add, eps) && t.InexactDepth() <= d && d as real * eps < 1.0
    ensures Abs(t.Eval(add) - t.Exact()) <= Gamma(eps, d) * t.Magnitude()
  {
    hide *;
    RoundingIsNonNegative(add, eps);
    ErrorIsAccumulated(t, add, eps);
    AccumulatedBelowGrowth(t, eps, d);
    GrowthBelowGamma(eps, d);
    ScaleBound(Accumulated(t, eps), Growth(eps, d) - 1.0, Gamma(eps, d), t.Magnitude());
  }

  lemma RoundingIsNonNegative(add: (real, real) -> real, eps: real)
    requires RoundedAdd(add, eps)
    ensures 0.0 <= eps
  {
  }

  lemma ScaleBound(e: real, g: real, h: real, m: real)
    requires e <= Times(g, m) && g <= h && 0.0 <= m
    ensures e <= h * m
  {
    MulMonotone(g, h, m);
  }

  // ----- Sums over partial sums -----

  /** The number of significant bits: the word size minus the leading zeros. */
  function BitLength(n: nat): nat {
    if n == 0 then 0 else 1 + BitLength(n / 2)
  }

  /** The bit length of n - 1 is the least exponent of two that covers n. */
  lemma {:induction false} BitLengthIsCeilLog(n: nat, j: nat)
    requires n >= 1
    ensures BitLength(n - 1) <= j <==> n <= Pow(2, j)
    decreases j
  {
    if j == 0 {
    } else if n == 1 {
      PowPositive(2, j);
    } else {
      var half := (n - 1) / 2 + 1;
      assert BitLength(n - 1) == 1 + BitLength(half - 1);
      BitLengthIsCeilLog(half, j - 1);
      assert n <= 2 * Pow(2, j - 1) <==> half <= Pow(2, j - 1);
    }
  }

  function SumExact(ts: seq<SumTree>): real {
    if ts == [] then 0.0 else ts[0].Exact() + SumExact(ts[1..])
  }

  function SumMagnitude(ts: seq<SumTree>): real {
    if ts == [] then 0.0 else ts[0].Magnitude() + SumMagnitude(ts[1..])
  }

  lemma {:induction false} SumsSplit(ts: seq<SumTree>, i: nat)
    requires i <= |ts|
    ensures SumExact(ts) == SumExact(ts[..i]) + SumExact(ts[i..])
    ensures SumMagnitude(ts) == SumMagnitude(ts[..i]) + SumMagnitude(ts[i..])
  {
    if i == 0 {
      assert ts[0..] == ts && ts[..0] == [];
    } else {
      SumsSplit(ts[1..], i - 1);
      assert ts[1..][..i - 1] == ts[..i][1..];
      assert ts[1..][i - 1..] == ts[i..];
    }
  }

  // ----- The tree of one block -----

  /** The lanes of a block of 2^k: those after the last element are pads. */
  function Lanes(ts: seq<SumTree>, k: nat): (lanes: seq<SumTree>)
    requires |ts| <= Pow(2, k)
    ensures |lanes| == Pow(2, k)
    ensures forall i :: 0 <= i < |lanes| ==> lanes[i] == if i < |ts| then ts[i] else Pad
  {
    seq(Pow(2, k), i requires 0 <= i < Pow(2, k) => if i < |ts| then ts[i] else Pad)
  }

  /** One step of a block: lane i takes in lane i + stride, where the stride is half of the lanes. */
  function Halve(lanes: seq<SumTree>): (r: seq<SumTree>)
    ensures |r| == |lanes| / 2
    ensures forall i :: 0 <= i < |r| ==> r[i] == Node(lanes[i], lanes[i + |lanes| / 2])
  {
    seq(|lanes| / 2, i requires 0 <= i < |lanes| / 2 => Node(lanes[i], lanes[i + |lanes| / 2]))
  }

  /** The whole block: strides halve until one lane is left. */
  function Fold(lanes: seq<SumTree>, k: nat): SumTree
    requires |lanes| == Pow(2, k)
    decreases k
  {
    if k == 0 then lanes[0] else Fold(Halve(lanes), k - 1)
  }

  function BlockTree(ts: seq<SumTree>, k: nat): SumTree
    requires |ts| <= Pow(2, k)
  {
    Fold(Lanes(ts, k), k)
  }

  ghost predicate DepthsAtMost(ts: seq<SumTree>, d: nat) {
    forall i :: 0 <= i < |ts| ==> ts[i].InexactDepth() <= d
  }

  /** Pairing two halves lane by lane adds what is in them. */
  lemma {:induction false} PairedSums(l: seq<SumTree>, r: seq<SumTree>, pairs: seq<SumTree>)
    requires |l| == |r| == |pairs|
    requires forall i :: 0 <= i < |pairs| ==> pairs[i] == Node(l[i], r[i])
    ensures SumExact(pairs) == SumExact(l) + SumExact(r)
    ensures SumMagnitude(pairs) == SumMagnitude(l) + SumMagnitude(r)
  {
    if pairs != [] {
      PairedSums(l[1..], r[1..], pairs[1..]);
    }
  }

  lemma HalveKeepsSums(lanes: seq<SumTree>, k: nat)
    requires k > 0 && |lanes| == Pow(2, k)
    ensures |Halve(lanes)| == Pow(2, k - 1)
    ensures SumExact(Halve(lanes)) == SumExact(lanes) && SumMagnitude(Halve(lanes)) == SumMagnitude(lanes)
  {
    hide SumExact, SumMagnitude;
    var half := |lanes| / 2;
    PowDoubles(k);
    SumsSplit(lanes, half);
    PairedSums(lanes[..half], lanes[half..], Halve(lanes));
  }

  lemma {:induction false} FoldKeepsSums(lanes: seq<SumTree>, k: nat)
    requires |lanes| == Pow(2, k)
    ensures Fold(lanes, k).Exact() == SumExact(lanes)
    ensures Fold(lanes, k).Magnitude() == SumMagnitude(lanes)
    decreases k
  {
    if k == 0 {
      assert lanes[1..] == [];
    } else {
      hide SumExact, SumMagnitude, Pow;
      HalveKeepsSums(lanes, k);
      FoldKeepsSums(Halve(lanes), k - 1);
    }
  }

  lemma {:induction false} PadsAddNothing(pads: seq<SumTree>)
    requires forall i :: 0 <= i < |pads| ==> pads[i] == Pad
    ensures SumExact(pads) == 0.0 && SumMagnitude(pads) == 0.0
  {
    if pads != [] {
      PadsAddNothing(pads[1..]);
    }
  }

  /** A block holds every element once, and pads hold nothing. */
  lemma BlockKeepsSums(ts: seq<SumTree>, k: nat)
    requires |ts| <= Pow(2, k)
    ensures BlockTree(ts, k).Exact() == SumExact(ts)
    ensures BlockTree(ts, k).Magnitude() == SumMagnitude(ts)
  {
    hide SumExact, SumMagnitude, Fold, Pow;
    var lanes := Lanes(ts, k);
    FoldKeepsSums(lanes, k);
    SumsSplit(lanes, |ts|);
    assert lanes[..|ts|] == ts;
    PadsAddNothing(lanes[|ts|..]);
  }

  /** Lanes of bounded depth of which only the first m hold anything. */
  ghost predicate Filled(lanes: seq<SumTree>, m: nat, d: nat) {
    && DepthsAtMost(lanes, d)
    && forall i :: m <= i < |lanes| ==> lanes[i].IsPad()
  }

  /** A step costs no depth while the second half is all pads, and one level when both halves are in use. */
  lemma HalveFilled(lanes: seq<SumTree>, m: nat, d: nat)
    requires Filled(lanes, m, d) && |lanes| % 2 == 0
    ensures if m <= |lanes| / 2 then Filled(Halve(lanes), m, d) else Filled(Halve(lanes), |lanes| / 2, d + 1)
  {
  }

  /** Only ceil(log2 m) steps add two partial sums that both hold elements. */
  lemma {:induction false} FoldDepth(lanes: seq<SumTree>, k: nat, m: nat, d: nat)
    requires |lanes| == Pow(2, k) && 1 <= m <= |lanes| && Filled(lanes, m, d)
    ensures Fold(lanes, k).InexactDepth() <= d + BitLength(m - 1)
    decreases k
  {
    hide Pow, BitLength;
    if k > 0 {
      var half := |lanes| / 2;
      PowDoubles(k);
      HalveFilled(lanes, m, d);
      BitLengthIsCeilLog(m, k - 1);
      if m <= half {
        FoldDepth(Halve(lanes), k - 1, m, d);
      } else {
        FoldDepth(Halve(lanes), k - 1, half, d + 1);
        BitLengthIsCeilLog(half, k - 1);
      }
    }
  }

  lemma BlockDepth(ts: seq<SumTree>, k: nat, d: nat)
    requires 1 <= |ts| <= Pow(2, k) && DepthsAtMost(ts, d)
    ensures BlockTree(ts, k).InexactDepth() <= d + BitLength(|ts| - 1)
    ensures BlockTree(ts, k).InexactDepth() <= d + k
  {
    hide Pow, BitLength, Fold;
    FoldDepth(Lanes(ts, k), k, |ts|, d);
    BitLengthIsCeilLog(|ts|, k);
  }

  lemma PowDoubles(k: nat)
    requires k > 0
    ensures Pow(2, k) == 2 * Pow(2, k - 1) && Pow(2, k) / 2 == Pow(2, k - 1) && Pow(2, k) % 2 == 0
  {
  }
}
