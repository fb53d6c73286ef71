/** The ordered sum as it is computed: blocks of shared lanes, halving strides, pass after pass. */
module TreeSumCode {
  import opened PassStructure
  import opened RealArithmetic
  import opened SummationError
  import opened TreeReduction

  // ----- Lanes as values -----

  /** The elements of a block, with zero in the lanes after the last one. */
  function Padded(xs: seq<real>, k: nat): (v: seq<real>)
    requires |xs| <= Pow(2, k)
    ensures |v| == Pow(2, k) && forall i :: 0 <= i < |v| ==> v[i] == if i < |xs| then xs[i] else 0.0
  {
    seq(Pow(2, k), i requires 0 <= i < Pow(2, k) => if i < |xs| then xs[i] else 0.0)
  }

  function HalveValues(v: seq<real>, add: (real, real) -> real): (r: seq<real>)
    ensures |r| == |v| / 2 && forall i :: 0 <= i < |r| ==> r[i] == add(v[i], v[i + |v| / 2])
  {
    seq(|v| / 2, i requires 0 <= i < |v| / 2 => add(v[i], v[i + |v| / 2]))
  }

  function FoldValues(v: seq<real>, k: nat, add: (real, real) -> real): real
    requires |v| == Pow(2, k)
    decreases k
  {
    if k == 0 then v[0]
    else
      PowDoubles(k);
      FoldValues(HalveValues(v, add), k - 1, add)
  }

  /** These values are what the trees evaluate to. */
  ghost predicate Evaluates(ts: seq<SumTree>, v: seq<real>, add: (real, real) -> real) {
    |ts| == |v| && forall i :: 0 <= i < |v| ==> v[i] == ts[i].Eval(add)
  }

  lemma {:induction false} FoldEvaluates(lanes: seq<SumTree>, v: seq<real>, k: nat, add: (real, real) -> real)
    requires |lanes| == Pow(2, k) && Evaluates(lanes, v, add)
    ensures FoldValues(v, k, add) == Fold(lanes, k).Eval(add)
    decreases k
  {
    if k > 0 {
      PowDoubles(k);
      FoldEvaluates(Halve(lanes), HalveValues(v, add), k - 1, add);
    }
  }

  lemma BlockEvaluates(ts: seq<SumTree>, xs: seq<real>, k: nat, add: (real, real) -> real)
    requires |ts| <= Pow(2, k) && Evaluates(ts, xs, add)
    ensures FoldValues(Padded(xs, k), k, add) == BlockTree(ts, k).Eval(add)
  {
    hide Fold, FoldValues, Pow;
    FoldEvaluates(Lanes(ts, k), Padded(xs, k), k, add);
  }

  // ----- The code -----

  /** The first step of a block reads the input: a lane holds one element, or the sum of two half a block apart. */
  method Load(shared: array<real>, xs: seq<real>, k: nat, add: (real, real) -> real, ghost eps: real)
    requires k >= 1 && |xs| <= Pow(2, k) && shared.Length == Pow(2, k) / 2 && RoundedAdd(add, eps)
    modifies shared
    ensures shared[..] == HalveValues(Padded(xs, k), add)
  {
    PowDoubles(k);
    ghost var first := HalveValues(Padded(xs, k), add);
    var half := shared.Length;
    for lane := 0 to half
      invariant forall j :: 0 <= j < lane ==> shared[j] == first[j]
    {
      var value := 0.0;
      if lane < |xs| {
        value := xs[lane];
      }
      if half + lane < |xs| {
        value := add(value, xs[half + lane]);
      }
      shared[lane] := value;
    }
  }

  /** Every later step adds the upper half of the lanes in use to the lower half, in place. */
  method HalveInPlace(shared: array<real>, stride: nat, add: (real, real) -> real)
    requires 2 * stride <= shared.Length
    modifies shared
    ensures shared[..stride] == HalveValues(old(shared[..2 * stride]), add)
  {
    ghost var before := shared[..2 * stride];
    ghost var halved := HalveValues(before, add);
    for lane := 0 to stride
      invariant forall l :: 0 <= l < lane ==> shared[l] == halved[l]
      invariant forall l :: lane <= l < 2 * stride ==> shared[l] == before[l]
    {
      shared[lane] := add(shared[lane], shared[lane + stride]);
    }
  }

  /** One block, down to its first lane. */
  method SumBlock(xs: seq<real>, k: nat, add: (real, real) -> real, ghost eps: real) returns (r: real)
    requires k >= 1 && |xs| <= Pow(2, k) && RoundedAdd(add, eps)
    ensures r == FoldValues(Padded(xs, k), k, add)
  {
    hide FoldValues, HalveValues, Padded, Pow;
    PowDoubles(k);
    StrideIsHalf(k - 1);
    var shared := new real[Pow(2, k) / 2];
    Load(shared, xs, k, add, eps);
    FoldStep(Padded(xs, k), k, add);
    ghost var j: nat := k - 1;
    assert shared[..Pow(2, j)] == shared[..];
    var stride := shared.Length / 2;
    while stride > 0
      invariant Pow(2, j) <= shared.Length && stride == Pow(2, j) / 2
      invariant FoldValues(shared[..Pow(2, j)], j, add) == FoldValues(Padded(xs, k), k, add)
      decreases stride
    {
      StrideIsHalf(j);
      FoldStep(shared[..Pow(2, j)], j, add);
      HalveInPlace(shared, stride, add);
      j := j - 1;
      stride := stride / 2;
    }
    StrideIsHalf(j);
    LastLane(shared[..Pow(2, j)], add);
    r := shared[0];
  }

  lemma FoldStep(v: seq<real>, k: nat, add: (real, real) -> real)
    requires k > 0 && |v| == Pow(2, k)
    ensures |HalveValues(v, add)| == Pow(2, k - 1)
    ensures FoldValues(v, k, add) == FoldValues(HalveValues(v, add), k - 1, add)
  {
    PowDoubles(k);
  }

  lemma LastLane(v: seq<real>, add: (real, real) -> real)
    requires |v| == Pow(2, 0)
    ensures v == [v[0]] && FoldValues(v, 0, add) == v[0]
  {
  }

  /** A positive stride is half of the lanes in use; no stride means that one lane is left. */
  lemma StrideIsHalf(j: nat)
    ensures Pow(2, j) / 2 > 0 ==> j > 0 && Pow(2, j - 1) == Pow(2, j) / 2 && 2 * (Pow(2, j) / 2) == Pow(2, j)
    ensures Pow(2, j) > 0 && (Pow(2, j) / 2 == 0 ==> j == 0 && Pow(2, j) == 1)
  {
    if j > 0 {
      PowDoubles(j);
      PowPositive(2, j - 1);
    }
  }

  /** One pass: a partial sum for every block of 2^k elements. */
  method Pass(current: seq<real>, k: nat, add: (real, real) -> real, ghost eps: real, ghost ts: seq<SumTree>)
      returns (output: seq<real>)
    requires k >= 1 && RoundedAdd(add, eps) && Evaluates(ts, current, add)
    ensures Evaluates(OnePassTrees(ts, k), output, add)
  {
    hide Pow, SumTree.Eval, FoldValues, Fold, RoundedAdd, OnePassTrees;
    PowPositive(2, k);
    var span := Pow(2, k);
    output := [];
    ghost var done: seq<SumTree> := [];
    var base := 0;
    assert ts[0..] == ts;
    while base < |current|
      invariant base <= |current|
      invariant Evaluates(done, output, add)
      invariant done + OnePassTrees(ts[base..], k) == OnePassTrees(ts, k)
    {
      var end := if |current| - base <= span then |current| else base + span;
      var sum := SumBlock(current[base..end], k, add, eps);
      BlockEvaluates(ts[base..end], current[base..end], k, add);
      NextBlock(ts, base, end, k);
      output, done, base := output + [sum], done + [BlockTree(ts[base..end], k)], end;
    }
    NoBlock(ts[base..], k);
    assert done == OnePassTrees(ts, k);
  }

  lemma NextBlock(ts: seq<SumTree>, base: nat, end: nat, k: nat)
    requires base < |ts| && Pow(2, k) > 0
    requires end == if |ts| - base <= Pow(2, k) then |ts| else base + Pow(2, k)
    ensures OnePassTrees(ts[base..], k) == [BlockTree(ts[base..end], k)] + OnePassTrees(ts[end..], k)
  {
    hide BlockTree;
    if |ts| - base <= Pow(2, k) {
      assert ts[base..end] == ts[base..];
      assert OnePassTrees(ts[end..], k) == [];
    } else {
      assert ts[base..][..Pow(2, k)] == ts[base..end] && ts[base..][Pow(2, k)..] == ts[end..];
    }
  }

  lemma NoBlock(ts: seq<SumTree>, k: nat)
    requires ts == []
    ensures OnePassTrees(ts, k) == []
  {
  }

  /**
   The ordered sum over all passes evaluates the multi-pass tree, and so lies within the harness's
   bound of the exact sum.
   */
  method TreeSum(input: seq<real>, k: nat, add: (real, real) -> real) returns (r: real)
    requires 0 < |input| <= U64_MAX && k >= 1 && RoundedAdd(add, EPSILON)
    ensures r == MultiPass(Leaves(input), k).0.Eval(add)
    ensures Abs(r - Sum(input)) <= ErrorBound(input)
  {
    hide Pow, ErrorBound, Sum, OnePassTrees, MultiPass, RoundedAdd, SumTree.Eval;
    HarnessAcceptsEveryReduction(input, k, add);
    var current := input;
    ghost var ts := Leaves(input);
    LeavesEvaluate(input, add);
    while true
      invariant ts != [] && Evaluates(ts, current, add)
      invariant MultiPass(ts, k).0 == MultiPass(Leaves(input), k).0
      decreases |current|
    {
      var output := Pass(current, k, add, EPSILON, ts);
      MultiPassStep(ts, k);
      ts := OnePassTrees(ts, k);
      if |output| == 1 {
        return output[0];
      }
      current := output;
    }
  }

  lemma LeavesEvaluate(xs: seq<real>, add: (real, real) -> real)
    ensures Evaluates(Leaves(xs), xs, add)
  {
  }

  lemma MultiPassStep(ts: seq<SumTree>, k: nat)
    requires ts != [] && k >= 1
    ensures var next := OnePassTrees(ts, k);
            && next != []
            && (|next| == 1 ==> MultiPass(ts, k).0 == next[0])
            && (|next| > 1 ==> |next| < |ts| && MultiPass(ts, k).0 == MultiPass(next, k).0)
  {
    hide OnePassTrees;
    PassProgress(ts, k);
  }
}
