/** Elementary facts about real numbers, each proved where nothing else is in scope. */
module RealArithmetic {

  function Abs(x: real): real {
    if x < 0.0 then -x else x
  }

  function Max(x: real, y: real): real {
    if x < y then y else x
  }

  /** Multiplication under a name, so that proofs can treat products as opaque. */
  function Times(x: real, y: real): real {
    x * y
  }

  lemma MulMonotone(x: real, y: real, z: real)
    requires x <= y && 0.0 <= z
    ensures x * z <= y * z
  {
  }

  lemma StrictMul(x: real, y: real, z: real)
    requires x < y && 0.0 < z
    ensures x * z < y * z
  {
  }

  lemma Distribute(x: real, y: real, z: real)
    ensures x * (y + z) == x * y + x * z
  {
  }

  lemma MulAssociates(x: real, y: real, z: real)
    ensures x * (y * z) == x * y * z
  {
  }

  /** A quotient is the number whose product with the divisor is the dividend. */
  lemma QuotientIsUnique(q: real, a: real, b: real)
    requires 0.0 < b && q * b == a
    ensures a / b == q
  {
    var p := a / b;
    assert p * b == a;
    if p < q {
      StrictMul(p, q, b);
    } else if q < p {
      StrictMul(q, p, b);
    }
  }

  lemma QuotientAtMost(a: real, b: real, c: real)
    requires 0.0 < b && a <= c * b
    ensures a / b <= c
  {
    var p := a / b;
    assert p * b == a;
    if c < p {
      StrictMul(c, p, b);
    }
  }

  lemma QuotientAtLeast(a: real, b: real, c: real)
    requires 0.0 < b && c * b <= a
    ensures c <= a / b
  {
    var p := a / b;
    assert p * b == a;
    if p < c {
      StrictMul(p, c, b);
    }
  }

  lemma QuotientSign(x: real, y: real)
    requires y > 0.0
    ensures (x / y > 0.0 <==> x > 0.0) && (x / y < 0.0 <==> x < 0.0)
  {
    var q := x / y;
    assert q * y == x;
    if q > 0.0 {
      StrictMul(0.0, q, y);
    } else if q < 0.0 {
      StrictMul(q, 0.0, y);
    }
  }

  lemma SameQuotientIff(x: real, y: real, z: real)
    requires y > 0.0 && z > 0.0
    ensures x / z == x / y <==> z == y || x == 0.0
  {
    var q, r := x / z, x / y;
    assert q * z == x && r * y == x;
    if q == r && z != y {
      assert q * (z - y) == 0.0;
      if q != 0.0 {
        QuotientIsUnique(0.0, q * (z - y), if z > y then z - y else y - z);
        assert false;
      }
    }
  }

  /** Scaling dividend and divisor alike changes nothing. */
  lemma QuotientScales(a: real, b: real, k: real)
    requires 0.0 < b && 0.0 < k && 0.0 < k * b
    ensures k * a / (k * b) == a / b
  {
    var q := a / b;
    assert q * b == a;
    assert q * (k * b) == k * (q * b);
    QuotientIsUnique(q, k * a, k * b);
  }

  function Sum(xs: seq<real>): real {
    if xs == [] then 0.0 else xs[0] + Sum(xs[1..])
  }

  lemma {:induction false} SumAppend(xs: seq<real>, x: real)
    ensures Sum(xs + [x]) == Sum(xs) + x
  {
    if xs == [] {
      assert [] + [x] == [x] && [x][1..] == [];
    } else {
      SumAppend(xs[1..], x);
      assert (xs + [x])[1..] == xs[1..] + [x];
    }
  }

  lemma {:induction false} SumPositive(xs: seq<real>)
    requires forall i :: 0 <= i < |xs| ==> 0.0 < xs[i]
    ensures 0.0 <= Sum(xs) && (xs != [] ==> 0.0 < Sum(xs))
  {
    if xs != [] {
      SumPositive(xs[1..]);
    }
  }
}
