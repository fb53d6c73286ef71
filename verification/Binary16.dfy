/**
 Rounding to binary16 with roundTiesToEven (section 4.3.1 of IEEE 754-2019).  Magnitudes are
 counted in units of 2^-24, the least positive binary16 value: below 2048 units the format
 holds every integer, and every doubling of the magnitude doubles the spacing.
 */
module Binary16 {
  import opened RealArithmetic
  import opened Selection

  const UNITS: real := 16777216.0
  /** 2^16 in units: the least magnitude beyond the largest finite value's binade. */
  const OVERFLOW: nat := 0x100_0000_0000

  function RoundEven(a: real): int {
    var f := a.Floor;
    var d := a - f as real;
    if d < 0.5 then f else if d > 0.5 then f + 1 else if f % 2 == 0 then f else f + 1
  }

  /** Round a magnitude in units to the format's spacing, with no bound on the exponent. */
  function RoundUnits(a: real): (n: int)
    requires 0.0 <= a
    ensures 0 <= n
    decreases a.Floor
  {
    if a < 2048.0 then RoundEven(a) else 2 * RoundUnits(a / 2.0)
  }

  /** A magnitude in units that the format represents, exponent range aside. */
  predicate OnGrid(n: nat) {
    n < 2048 || (n % 2 == 0 && OnGrid(n / 2))
  }

  /** The integer significand of a represented magnitude. */
  function Significand(n: nat): nat {
    if n < 2048 then n else Significand(n / 2)
  }

  function Distance(a: real, n: int): real {
    Abs(a - n as real)
  }

  lemma RoundEvenMonotone(a: real, b: real)
    requires a <= b
    ensures RoundEven(a) <= RoundEven(b)
  {
  }

  lemma {:induction false} RoundUnitsAtLeast(a: real)
    requires 1024.0 <= a
    ensures RoundUnits(a) >= 1024
    ensures 2048.0 <= a ==> RoundUnits(a) >= 2048
    decreases a.Floor
  {
    if a >= 2048.0 {
      RoundUnitsAtLeast(a / 2.0);
    }
  }

  lemma {:induction false} RoundUnitsMonotone(a: real, b: real)
    requires 0.0 <= a <= b
    ensures RoundUnits(a) <= RoundUnits(b)
    decreases b.Floor
  {
    if b < 2048.0 {
      RoundEvenMonotone(a, b);
    } else if a < 2048.0 {
      RoundUnitsAtLeast(b);
    } else {
      RoundUnitsMonotone(a / 2.0, b / 2.0);
    }
  }

  /** The rounded magnitude is represented. */
  lemma {:induction false} RoundUnitsOnGrid(a: real)
    requires 0.0 <= a
    ensures OnGrid(RoundUnits(a))
    decreases a.Floor
  {
    if a >= 2048.0 {
      RoundUnitsOnGrid(a / 2.0);
      RoundUnitsAtLeast(a);
    } else {
      assert OnGrid(1024);
    }
  }

  lemma RoundEvenNearest(a: real, g: int)
    requires 0.0 <= a
    ensures Distance(a, RoundEven(a)) <= Distance(a, g)
    ensures g != RoundEven(a) && Distance(a, RoundEven(a)) == Distance(a, g) ==> RoundEven(a) % 2 == 0
    ensures a < 2048.0 ==> 0 <= RoundEven(a) <= 2048
  {
  }

  lemma FartherBelow(a: real, g: nat)
    requires a >= 2048.0 && g < 2048
    ensures Distance(a, 2048) < Distance(a, g)
  {
  }

  /** No represented magnitude is nearer, and of two equally near ones the even significand is taken. */
  lemma {:induction false} RoundUnitsNearest(a: real, g: nat)
    requires 0.0 <= a && OnGrid(g)
    ensures Distance(a, RoundUnits(a)) <= Distance(a, g)
    ensures g != RoundUnits(a) && Distance(a, RoundUnits(a)) == Distance(a, g) ==>
              Significand(RoundUnits(a)) % 2 == 0
    decreases a.Floor
  {
    hide Distance;
    if a < 2048.0 {
      RoundEvenNearest(a, g);
      assert RoundUnits(a) == RoundEven(a) <= 2048;
      assert Significand(2048) == Significand(1024) == 1024;
    } else {
      RoundUnitsAtLeast(a / 2.0);
      RoundUnitsAtLeast(a);
      var h := if g < 2048 then 1024 else g / 2;
      RoundUnitsNearest(a / 2.0, h);
      var n := RoundUnits(a / 2.0);
      HalvedDistance(a, n);
      HalvedDistance(a, h);
      if g < 2048 {
        FartherBelow(a, g);
      }
      assert Significand(2 * n) == Significand(n) by {
        assert 2 * n / 2 == n;
      }
    }
  }

  lemma HalvedDistance(a: real, n: nat)
    ensures Distance(a, 2 * n) == 2.0 * Distance(a / 2.0, n)
  {
    assert (2 * n) as real == 2.0 * n as real;
  }

  function FromUnits(n: int, negative: bool): Ext {
    if n >= OVERFLOW then (if negative then NegInf else PosInf)
    else if negative then Fin(-(n as real / UNITS))
    else Fin(n as real / UNITS)
  }

  /** The binary32 to binary16 to binary32 round trip of one logit. */
  function RoundToF16(x: Ext): Ext {
    match x
    case NegInf => NegInf
    case PosInf => PosInf
    case Fin(r) =>
      if r < 0.0 then FromUnits(RoundUnits(-r * UNITS), true) else FromUnits(RoundUnits(r * UNITS), false)
  }

  lemma FromUnitsMonotone(m: int, n: int)
    requires 0 <= m <= n
    ensures !Gt(FromUnits(m, false), FromUnits(n, false))
    ensures !Gt(FromUnits(n, true), FromUnits(m, true))
    ensures !Gt(FromUnits(m, true), FromUnits(n, false))
  {
    if n < OVERFLOW {
      assert m as real <= n as real;
      QuotientOrder(m as real, n as real);
      QuotientOrder(0.0, m as real);
    }
  }

  lemma QuotientOrder(a: real, b: real)
    requires a <= b
    ensures a / UNITS <= b / UNITS
  {
  }

  lemma ScaleOrder(a: real, b: real)
    requires a <= b
    ensures a * UNITS <= b * UNITS
  {
  }

  /** Rounding never inverts an order. */
  lemma RoundToF16Monotone(x: Ext, y: Ext)
    requires !Gt(x, y)
    ensures !Gt(RoundToF16(x), RoundToF16(y))
  {
    hide RoundUnits, FromUnits, Abs;
    if x.Fin? && y.Fin? {
      MagnitudeOf(x.r);
      MagnitudeOf(y.r);
      MagnitudesMonotone(x.r, y.r);
    }
  }

  lemma MagnitudeOf(r: real)
    ensures 0.0 <= Abs(r) * UNITS
    ensures RoundToF16(Fin(r)) == FromUnits(RoundUnits(Abs(r) * UNITS), r < 0.0)
  {
    hide RoundUnits, FromUnits;
    assert r >= 0.0 ==> r * UNITS >= 0.0;
    assert r < 0.0 ==> -r * UNITS >= 0.0;
  }

  lemma MagnitudesMonotone(a: real, b: real)
    requires a <= b
    ensures !Gt(FromUnits(RoundUnits(Abs(a) * UNITS), a < 0.0), FromUnits(RoundUnits(Abs(b) * UNITS), b < 0.0))
  {
    hide RoundUnits, FromUnits, Gt;
    ScaleOrder(0.0, Abs(a));
    ScaleOrder(0.0, Abs(b));
    var m, n := RoundUnits(Abs(a) * UNITS), RoundUnits(Abs(b) * UNITS);
    if 0.0 <= a {
      ScaleOrder(a, b);
      RoundUnitsMonotone(a * UNITS, b * UNITS);
      FromUnitsMonotone(m, n);
    } else if b < 0.0 {
      ScaleOrder(-b, -a);
      RoundUnitsMonotone(-b * UNITS, -a * UNITS);
      FromUnitsMonotone(n, m);
    } else {
      OppositeSigns(m, n);
    }
  }

  lemma OppositeSigns(m: int, n: int)
    requires 0 <= m && 0 <= n
    ensures !Gt(FromUnits(m, true), FromUnits(n, false))
  {
    QuotientOrder(0.0, m as real);
    QuotientOrder(0.0, n as real);
  }

  // ----- What rounding comes to -----

  /** Half way from 2047 to 2048 of a spacing is where the next power of two begins. */
  lemma {:induction false} ReachesPower(a: real, k: nat, scale: nat)
    requires 0.0 <= a && scale == Power(k)
    ensures RoundUnits(a) >= 2048 * scale <==> a >= 2047.5 * scale as real
    decreases k
  {
    if k > 0 {
      assert scale == 2 * Power(k - 1);
      if a < 2048.0 {
        assert RoundUnits(a) <= 2048;
        PowerPositive(k - 1);
      } else {
        ReachesPower(a / 2.0, k - 1, Power(k - 1));
      }
    } else if a >= 2048.0 {
      RoundUnitsAtLeast(a);
    }
  }

  function Power(k: nat): nat {
    if k == 0 then 1 else 2 * Power(k - 1)
  }

  lemma PowerPositive(k: nat)
    ensures Power(k) >= 1
  {
  }

  predicate IsScaled(n: nat, m: nat, k: nat) {
    m < 2048 && n == m * Power(k)
  }

  /** The represented magnitudes are the eleven-bit integers times powers of two. */
  lemma {:induction false} GridMeaning(n: nat)
    ensures OnGrid(n) <==> exists m: nat, k: nat :: IsScaled(n, m, k)
  {
    if n < 2048 {
      assert IsScaled(n, n, 0);
    } else {
      GridMeaning(n / 2);
      if OnGrid(n) {
        var m: nat, k: nat :| IsScaled(n / 2, m, k);
        assert IsScaled(n, m, k + 1);
      }
      if m: nat, k: nat :| IsScaled(n, m, k) {
        assert k > 0;
        HalfOfPower(m, k);
        assert IsScaled(n / 2, m, k - 1);
      }
    }
  }

  lemma HalfOfPower(m: nat, k: nat)
    requires k > 0
    ensures m * Power(k) % 2 == 0 && m * Power(k) / 2 == m * Power(k - 1)
  {
    assert m * Power(k) == 2 * (m * Power(k - 1));
  }

  lemma OverflowsFrom(a: real)
    requires 0.0 <= a
    ensures RoundUnits(a) >= OVERFLOW <==> a >= 65520.0 * UNITS
  {
    assert Power(8) == 256;
    assert Power(16) == 65536 by {
      assert Power(12) == 4096;
    }
    assert Power(24) == 16777216 by {
      assert Power(20) == 1048576;
    }
    assert Power(29) == 536870912 by {
      assert Power(28) == 268435456;
    }
    ReachesPower(a, 29, 536870912);
  }

  /** A finite binary16 value. */
  ghost predicate Represents(n: nat, y: real) {
    OnGrid(n) && n < 0x100_0000_0000 && (y * 16777216.0 == n as real || y * 16777216.0 == -(n as real))
  }

  ghost predicate IsF16(y: real) {
    exists n :: Represents(n, y)
  }

  /**
   Rounding keeps infinities, sends everything from 65520 on to infinity with its sign and nothing
   else, and anything else to a binary16 value of the same sign than which none is nearer.
   */
  lemma RoundToF16Meaning(x: Ext, y: real)
    requires IsF16(y)
    ensures x.NegInf? ==> RoundToF16(x) == NegInf
    ensures x.PosInf? ==> RoundToF16(x) == PosInf
    ensures x.Fin? && x.r >= 65520.0 ==> RoundToF16(x) == PosInf
    ensures x.Fin? && x.r <= -65520.0 ==> RoundToF16(x) == NegInf
    ensures x.Fin? && -65520.0 < x.r < 65520.0 ==>
              && RoundToF16(x).Fin? && IsF16(RoundToF16(x).r)
              && (x.r >= 0.0 ==> RoundToF16(x).r >= 0.0) && (x.r <= 0.0 ==> RoundToF16(x).r <= 0.0)
              && Abs(x.r - RoundToF16(x).r) <= Abs(x.r - y)
  {
    if x.Fin? {
      hide RoundUnits, FromUnits, OnGrid, Abs;
      var a := Abs(x.r) * UNITS;
      MagnitudeOf(x.r);
      OverflowsFrom(a);
      ScaledLimit(x.r);
      var n := RoundUnits(a);
      FromUnitsCases(n, x.r < 0.0);
      if n < OVERFLOW {
        RoundUnitsOnGrid(a);
        NoneNearer(x.r, RoundToF16(x).r, y);
      }
    }
  }

  lemma NoneNearer(r: real, z: real, y: real)
    requires IsF16(y) && RoundUnits(Abs(r) * UNITS) < OVERFLOW && Represents(RoundUnits(Abs(r) * UNITS), z)
    requires (r < 0.0 ==> z <= 0.0) && (r >= 0.0 ==> z >= 0.0)
    ensures Abs(r - z) <= Abs(r - y)
  {
    hide RoundUnits, OnGrid, Abs;
    MagnitudeOf(r);
    var g :| Represents(g, y);
    RoundUnitsNearest(Abs(r) * UNITS, g);
    NearerInUnits(r, z, RoundUnits(Abs(r) * UNITS), y, g);
  }

  lemma ScaledLimit(r: real)
    ensures Abs(r) * UNITS >= 65520.0 * UNITS <==> r >= 65520.0 || r <= -65520.0
  {
  }

  lemma FromUnitsCases(n: int, negative: bool)
    requires 0 <= n
    ensures n >= OVERFLOW ==> FromUnits(n, negative) == if negative then NegInf else PosInf
    ensures n < OVERFLOW ==>
              && FromUnits(n, negative).Fin?
              && FromUnits(n, negative).r * 16777216.0 == (if negative then -(n as real) else n as real)
              && (if negative then FromUnits(n, negative).r <= 0.0 else FromUnits(n, negative).r >= 0.0)
  {
  }

  /** Distances between values are distances in units, those across zero included. */
  lemma NearerInUnits(r: real, z: real, n: nat, y: real, g: nat)
    requires z * 16777216.0 == if r < 0.0 then -(n as real) else n as real
    requires y * 16777216.0 == g as real || y * 16777216.0 == -(g as real)
    requires Distance(Abs(r) * UNITS, n) <= Distance(Abs(r) * UNITS, g)
    ensures Abs(r - z) <= Abs(r - y)
  {
  }

  function RoundAll(logits: seq<Ext>): (r: seq<Ext>)
    ensures |r| == |logits| && forall i :: 0 <= i < |r| ==> r[i] == RoundToF16(logits[i])
  {
    seq(|logits|, i requires 0 <= i < |logits| => RoundToF16(logits[i]))
  }

  /**
   The binary16 oracle's token has the rounded value of the binary32 maximum, and rounding can
   only move the choice to a lower index: it merges near-maxima and the lowest of them wins.
   */
  lemma RoundedArgMax(logits: seq<Ext>)
    requires logits != []
    ensures RoundToF16(logits[ArgMax(RoundAll(logits))]) == RoundToF16(logits[ArgMax(logits)])
    ensures ArgMax(RoundAll(logits)) <= ArgMax(logits)
  {
    var b, t := ArgMax(logits), ArgMax(RoundAll(logits));
    hide ArgMax, RoundToF16;
    if t != b {
      assert Beats(logits, b, t);
      RoundToF16Monotone(logits[t], logits[b]);
      assert Beats(RoundAll(logits), t, b);
    }
  }
}
