/**
 The pass loop of the multi-pass tree reduction.  Each pass replaces `current` partial
 sums by one per block of `span` of them, until one is left; the harness counts the passes
 and the bytes they move with checked 64-bit arithmetic.
 */
module PassStructure {
  import opened Wrappers

  const U64_MAX: nat := 0xFFFF_FFFF_FFFF_FFFF
  const U32_MAX: nat := 0xFFFF_FFFF

  function Pow(base: nat, e: nat): nat {
    if e == 0 then 1 else base * Pow(base, e - 1)
  }

  function CeilDiv(a: nat, b: nat): nat
    requires b > 0
  {
    a / b + (if a % b > 0 then 1 else 0)
  }

  lemma NatMulMonotone(x: int, y: int, z: int)
    requires x <= y && z >= 0
    ensures x * z <= y * z
  {
  }

  /** The two defining bounds of rounding up. */
  lemma CeilDivBounds(a: nat, b: nat)
    requires b > 0
    ensures a <= CeilDiv(a, b) * b
    ensures CeilDiv(a, b) * b < a + b
  {
    var q, r := a / b, a % b;
    assert a == q * b + r;
    if r > 0 {
      assert CeilDiv(a, b) * b == q * b + b;
    }
  }

  /** Rounding up is the least multiplier that covers the dividend. */
  lemma CeilDivIsLeast(a: nat, b: nat, q: nat)
    requires b > 0
    ensures CeilDiv(a, b) <= q <==> a <= q * b
  {
    var c := CeilDiv(a, b);
    CeilDivBounds(a, b);
    if c <= q {
      NatMulMonotone(c, q, b);
    } else {
      NatMulMonotone(q, c - 1, b);
      assert (c - 1) * b == c * b - b;
    }
  }

  lemma CeilDivStep(a: nat, b: nat)
    requires 0 < b <= a
    ensures CeilDiv(a, b) == 1 + CeilDiv(a - b, b)
  {
    hide CeilDiv;
    var x, y := CeilDiv(a, b), CeilDiv(a - b, b);
    CeilDivIsLeast(a, b, 0);
    CeilDivIsLeast(a, b, x);
    CeilDivIsLeast(a, b, y + 1);
    CeilDivIsLeast(a - b, b, y);
    CeilDivIsLeast(a - b, b, x - 1);
    assert (y + 1) * b == y * b + b && (x - 1) * b == x * b - b;
  }

  /** Rounding up twice is rounding up once by the product. */
  lemma NestedCeilDiv(n: nat, a: nat, b: nat)
    requires a > 0 && b > 0
    ensures a * b > 0
    ensures CeilDiv(CeilDiv(n, a), b) == CeilDiv(n, a * b)
  {
    NatMulMonotone(1, a, b);
    var x, y := CeilDiv(CeilDiv(n, a), b), CeilDiv(n, a * b);
    SameUpperBounds(n, a, b, x);
    SameUpperBounds(n, a, b, y);
  }

  lemma SameUpperBounds(n: nat, a: nat, b: nat, q: nat)
    requires a > 0 && b > 0 && a * b > 0
    ensures CeilDiv(CeilDiv(n, a), b) <= q <==> CeilDiv(n, a * b) <= q
  {
    CeilDivIsLeast(CeilDiv(n, a), b, q);
    CeilDivIsLeast(n, a, q * b);
    CeilDivIsLeast(n, a * b, q);
    NatMulAssociates(q, b, a);
  }

  lemma NatMulAssociates(x: int, y: int, z: int)
    ensures x * y * z == x * (z * y)
  {
  }

  lemma PowPositive(base: nat, e: nat)
    requires base > 0
    ensures Pow(base, e) > 0
  {
    if e > 0 {
      PowPositive(base, e - 1);
    }
  }

  lemma PowMonotone(base: nat, d: nat, e: nat)
    requires base > 0 && d <= e
    ensures Pow(base, d) <= Pow(base, e)
  {
    if d < e {
      PowMonotone(base, d, e - 1);
      NatMulMonotone(1, base, Pow(base, e - 1));
    }
  }

  /** The number of partial sums left after `i` passes over `n` elements. */
  function SizeAfter(n: nat, span: nat, i: nat): nat
    requires span > 0
  {
    if i == 0 then n else CeilDiv(SizeAfter(n, span, i - 1), span)
  }

  /** After i passes exactly ceil(n / span^i) partial sums are left. */
  lemma {:induction false} SizeAfterClosedForm(n: nat, span: nat, i: nat)
    requires span > 0
    ensures Pow(span, i) > 0
    ensures SizeAfter(n, span, i) == CeilDiv(n, Pow(span, i))
  {
    if i > 0 {
      SizeAfterClosedForm(n, span, i - 1);
      NestedCeilDiv(n, Pow(span, i - 1), span);
      assert Pow(span, i - 1) * span == Pow(span, i);
    }
  }

  /** `p` is the least number of passes, at least one, whose spans cover n elements. */
  ghost predicate IsLeastPassCount(n: nat, span: nat, p: nat) {
    && 1 <= p
    && n <= Pow(span, p)
    && forall q :: 1 <= q < p ==> Pow(span, q) < n
  }

  lemma LeastPassCountUnique(n: nat, span: nat, p: nat, q: nat)
    requires IsLeastPassCount(n, span, p) && IsLeastPassCount(n, span, q)
    ensures p == q
  {
  }

  /** The values read and written by the first p passes: every pass reads its input and writes its output. */
  function ValuesMoved(n: nat, span: nat, p: nat): nat
    requires span > 0
  {
    if p == 0 then 0
    else ValuesMoved(n, span, p - 1) + SizeAfter(n, span, p - 1) + SizeAfter(n, span, p)
  }

  function SumOf(counts: seq<nat>): nat {
    if counts == [] then 0 else SumOf(counts[..|counts| - 1]) + counts[|counts| - 1]
  }

  /** Pass i reads the ceil(n / span^i) values left and writes ceil(n / span^(i + 1)): all of that and nothing else. */
  lemma {:induction false} TrafficIsSum(n: nat, span: nat, p: nat, inputs: seq<nat>, outputs: seq<nat>)
    requires span > 0 && |inputs| == |outputs| == p
    requires forall i :: 0 <= i < p ==> 0 < Pow(span, i) && inputs[i] == CeilDiv(n, Pow(span, i))
    requires forall i :: 0 <= i < p ==> 0 < Pow(span, i + 1) && outputs[i] == CeilDiv(n, Pow(span, i + 1))
    ensures ValuesMoved(n, span, p) == SumOf(inputs) + SumOf(outputs)
  {
    hide CeilDiv, Pow;
    if p > 0 {
      TrafficIsSum(n, span, p - 1, inputs[..p - 1], outputs[..p - 1]);
      SizeAfterClosedForm(n, span, p - 1);
      SizeAfterClosedForm(n, span, p);
    }
  }

  lemma ValuesMovedMonotone(n: nat, span: nat, p: nat, q: nat)
    requires span > 0 && p <= q
    ensures ValuesMoved(n, span, p) <= ValuesMoved(n, span, q)
  {
    if p < q {
      ValuesMovedMonotone(n, span, p, q - 1);
    }
  }

  /** A size above one is a power of the span still below n; size one means the span's power covers n. */
  lemma SizeVersusPower(n: nat, span: nat, i: nat)
    requires span > 0
    ensures SizeAfter(n, span, i) <= 1 <==> n <= Pow(span, i)
  {
    SizeAfterClosedForm(n, span, i);
    CeilDivIsLeast(n, Pow(span, i), 1);
  }

  lemma SizeStaysPositive(n: nat, span: nat, i: nat)
    requires span > 0 && n > 0
    ensures SizeAfter(n, span, i) > 0
  {
    SizeAfterClosedForm(n, span, i);
    CeilDivIsLeast(n, Pow(span, i), 0);
  }

  lemma CeilDivShrinks(a: nat, span: nat)
    requires span >= 2 && a >= 2
    ensures 1 <= CeilDiv(a, span) < a
  {
    NatMulMonotone(2, span, a - 1);
    assert span * (a - 1) == (a - 1) * span;
    CeilDivIsLeast(a, span, a - 1);
    CeilDivIsLeast(a, span, 0);
  }

  /** One more pass either finishes the reduction or shows that the spans do not cover n yet. */
  lemma OnePass(n: nat, span: nat, p: nat)
    requires span >= 2 && n > 0
    ensures SizeAfter(n, span, p + 1) == CeilDiv(SizeAfter(n, span, p), span)
    ensures SizeAfter(n, span, p + 1) > 0
    ensures SizeAfter(n, span, p + 1) == 1 <==> n <= Pow(span, p + 1)
    ensures SizeAfter(n, span, p) == 1 ==> SizeAfter(n, span, p + 1) == 1
    ensures SizeAfter(n, span, p) >= 2 ==> SizeAfter(n, span, p + 1) < SizeAfter(n, span, p)
    ensures ValuesMoved(n, span, p + 1)
            == ValuesMoved(n, span, p) + SizeAfter(n, span, p) + SizeAfter(n, span, p + 1)
  {
    SizeVersusPower(n, span, p + 1);
    SizeStaysPositive(n, span, p + 1);
    var size := SizeAfter(n, span, p);
    if size >= 2 {
      CeilDivShrinks(size, span);
    }
  }

  /** A count that overflows at some pass overflows at the last one too. */
  lemma OverflowIsFinal(n: nat, span: nat, p: nat)
    requires span >= 2 && n > 0 && p >= 1
    requires forall q :: 1 <= q < p ==> Pow(span, q) < n
    requires ValuesMoved(n, span, p) > U64_MAX
    ensures exists q :: IsLeastPassCount(n, span, q) && 4 * ValuesMoved(n, span, q) > U64_MAX
    decreases n - Pow(span, p)
  {
    if Pow(span, p) < n {
      PowGrows(span, p);
      ValuesMovedMonotone(n, span, p, p + 1);
      OverflowIsFinal(n, span, p + 1);
    } else {
      assert IsLeastPassCount(n, span, p);
    }
  }

  lemma PowGrows(span: nat, p: nat)
    requires span >= 2
    ensures Pow(span, p) < Pow(span, p + 1)
  {
    PowPositive(span, p);
    NatMulMonotone(2, span, Pow(span, p));
  }

  /**
   The pass loop.  It needs a positive block size unless there is nothing to reduce, because
   a division by a zero span panics.  It yields the true byte total and the least covering
   pass count exactly when that total fits in 64 bits, and nothing otherwise.
   */
  method TrafficAndPasses(elements: nat, blockSize: nat) returns (r: Option<(nat, nat)>)
    requires elements <= U64_MAX && blockSize <= U32_MAX
    requires elements == 0 || blockSize > 0
    ensures elements == 0 ==> r == Some((0, 0))
    ensures elements > 0 && r.Some? ==>
              && IsLeastPassCount(elements, 2 * blockSize, r.value.1)
              && r.value.0 == 4 * ValuesMoved(elements, 2 * blockSize, r.value.1)
              && r.value.0 <= U64_MAX
    ensures elements > 0 && r.None? ==>
              exists p :: IsLeastPassCount(elements, 2 * blockSize, p)
                          && 4 * ValuesMoved(elements, 2 * blockSize, p) > U64_MAX
  {
    var span := 2 * blockSize;  // cannot overflow: a 32-bit block size doubled fits in 64 bits
    var current := elements;
    var valuesMoved: nat := 0;
    var passes: nat := 0;
    while current > 0
      invariant elements == 0 ==> current == 0 && passes == 0 && valuesMoved == 0
      invariant elements > 0 ==> current > 0 && current == SizeAfter(elements, span, passes)
      invariant elements > 0 ==> valuesMoved == ValuesMoved(elements, span, passes)
      invariant forall q :: 1 <= q <= passes ==> Pow(span, q) < elements
      invariant valuesMoved <= U64_MAX
      decreases current
    {
      var output := CeilDiv(current, span);
      OnePass(elements, span, passes);
      if valuesMoved + current > U64_MAX || valuesMoved + current + output > U64_MAX {
        OverflowIsFinal(elements, span, passes + 1);
        return None;
      }
      valuesMoved := valuesMoved + current + output;
      passes := passes + 1;
      if output == 1 {
        break;
      }
      current := output;
    }
    assert elements > 0 ==> IsLeastPassCount(elements, span, passes);
    if valuesMoved * 4 > U64_MAX {
      return None;
    }
    return Some((valuesMoved * 4, passes));
  }
}
