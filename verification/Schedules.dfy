/**
 Measurement schedules and linear drift.  If a measured time is a base cost of the variant plus
 a drift proportional to when it was executed, sweeps that alternate forward and reverse order (of
 which alternating pairs are the case of two variants) are arranged so that differences of medians
 are differences of base costs.
 */
module Schedules {
  import opened OrderStatistics
  import opened RealArithmetic

  /** When variant i of m runs in round r: forward in even rounds, reversed in odd ones. */
  function Position(i: nat, m: nat, r: nat): nat
    requires i < m
  {
    r * m + (if r % 2 == 0 then i else m - 1 - i)
  }

  function Positions(i: nat, m: nat, rounds: nat): seq<nat>
    requires i < m
  {
    seq(rounds, r requires 0 <= r < rounds => Position(i, m, r))
  }

  predicate Distinct(blocks: seq<nat>) {
    forall i, j :: 0 <= i < j < |blocks| ==> blocks[i] != blocks[j]
  }

  /** Which block runs as number k of a round. */
  function BlockAt(blocks: seq<nat>, r: nat, k: nat): nat
    requires k < |blocks|
  {
    if r % 2 == 0 then blocks[k] else blocks[|blocks| - 1 - k]
  }

  /** What every block has collected after some full rounds and k executions of the next one. */
  ghost predicate Collected(perBlock: map<nat, seq<nat>>, blocks: seq<nat>, r: nat, k: nat) {
    && (forall i :: 0 <= i < |blocks| ==> blocks[i] in perBlock)
    && forall i :: 0 <= i < |blocks| ==>
         perBlock[blocks[i]] == Positions(i, |blocks|, if Ran(|blocks|, r, i, k) then r + 1 else r)
  }

  predicate Ran(m: nat, r: nat, i: nat, k: nat) {
    if r % 2 == 0 then i < k else m - 1 - i < k
  }

  /**
   The sweep: every round executes all blocks, alternating the order, and appends each execution
   to its block's samples.  A sample is represented by the index of its execution.
   */
  method Sweep(blocks: seq<nat>, rounds: nat) returns (perBlock: map<nat, seq<nat>>)
    requires Distinct(blocks)
    ensures forall i :: 0 <= i < |blocks| ==>
              blocks[i] in perBlock && perBlock[blocks[i]] == Positions(i, |blocks|, rounds)
  {
    perBlock := map b | b in blocks :: [];
    var executed := 0;
    for r := 0 to rounds
      invariant executed == r * |blocks|
      invariant Collected(perBlock, blocks, r, 0)
    {
      for k := 0 to |blocks|
        invariant executed == r * |blocks| + k
        invariant Collected(perBlock, blocks, r, k)
      {
        var block := BlockAt(blocks, r, k);
        CollectOne(perBlock, blocks, r, k, executed);
        perBlock := perBlock[block := perBlock[block] + [executed]];
        executed := executed + 1;
      }
      assert (r + 1) * |blocks| == r * |blocks| + |blocks|;
    }
  }

  lemma CollectOne(perBlock: map<nat, seq<nat>>, blocks: seq<nat>, r: nat, k: nat, executed: nat)
    requires Distinct(blocks) && k < |blocks| && executed == r * |blocks| + k
    requires Collected(perBlock, blocks, r, k)
    ensures BlockAt(blocks, r, k) in perBlock
    ensures Collected(perBlock[BlockAt(blocks, r, k) := perBlock[BlockAt(blocks, r, k)] + [executed]], blocks, r, k + 1)
  {
    var m := |blocks|;
    var j := if r % 2 == 0 then k else m - 1 - k;
    assert blocks[j] == BlockAt(blocks, r, k) && Position(j, m, r) == executed;
    assert Positions(j, m, r + 1) == Positions(j, m, r) + [executed];
    forall i | 0 <= i < m && i != j
      ensures blocks[i] != blocks[j] && (Ran(m, r, i, k) <==> Ran(m, r, i, k + 1))
    {
    }
  }

  // ----- Drift -----

  /** Measured times of variant i over all rounds. */
  function Drifting(base: real, slope: real, i: nat, m: nat, rounds: nat): seq<real>
    requires i < m
  {
    seq(rounds, r requires 0 <= r < rounds => base + slope * Position(i, m, r) as real)
  }

  function Reverse(s: seq<real>): (t: seq<real>)
    ensures |t| == |s|
    ensures forall k :: 0 <= k < |s| ==> t[k] == s[|s| - 1 - k]
  {
    if s == [] then [] else Reverse(s[1..]) + [s[0]]
  }

  lemma {:induction false} ReverseKeepsMultiset(s: seq<real>)
    ensures multiset(Reverse(s)) == multiset(s)
  {
    if s != [] {
      ReverseKeepsMultiset(s[1..]);
      assert s == [s[0]] + s[1..];
    }
  }

  /** The middle of a sequence as it stands. */
  function Middle(s: seq<real>): real
    requires s != []
  {
    var h := |s| / 2;
    if |s| % 2 == 0 then (s[h - 1] + s[h]) / 2.0 else s[h]
  }

  /** The median of a sequence that only rises, or only falls, is its middle. */
  lemma MonotoneMedian(s: seq<real>)
    requires s != [] && (IsSorted(s) || IsSorted(Reverse(s)))
    ensures Median(s) == Middle(s)
  {
    hide IsSorted, Sorted, Reverse, Median, Middle;
    SortedIsSorted(s);
    if IsSorted(s) {
      SortedUnique(Sorted(s), s);
      MedianIsMiddle(s, s);
    } else {
      ReverseKeepsMultiset(s);
      SortedUnique(Sorted(s), Reverse(s));
      MedianIsMiddle(s, Reverse(s));
    }
  }

  lemma MedianIsMiddle(s: seq<real>, v: seq<real>)
    requires s != [] && Sorted(s) == v && (v == s || v == Reverse(s))
    ensures Median(s) == Middle(s)
  {
    hide Sorted;
    var h := |s| / 2;
    if v != s {
      assert v[h] == s[|s| - 1 - h];
      assert |s| % 2 == 0 ==> v[h - 1] == s[|s| - h];
    }
  }

  lemma PositionsRise(i: nat, m: nat, r: nat, q: nat)
    requires i < m && r <= q
    ensures Position(i, m, r) <= Position(i, m, q)
  {
    RoundBounds(i, m, r);
    RoundBounds(i, m, q);
    hide Position;
    if r < q {
      RoundsAhead(r + 1, q, m);
    }
  }

  /** A round occupies the positions from r * m up to the next round. */
  lemma RoundBounds(i: nat, m: nat, r: nat)
    requires i < m
    ensures r * m <= Position(i, m, r) < (r + 1) * m
  {
    NextRound(r, m);
  }

  lemma NextRound(r: nat, m: nat)
    ensures (r + 1) * m == r * m + m
  {
  }

  lemma {:induction false} RoundsAhead(r: nat, q: nat, m: nat)
    requires r <= q
    ensures r * m <= q * m
    decreases q
  {
    if r < q {
      RoundsAhead(r, q - 1, m);
      NextRound(q - 1, m);
    }
  }

  lemma DriftingIsMonotone(base: real, slope: real, i: nat, m: nat, rounds: nat)
    requires i < m
    ensures slope >= 0.0 ==> IsSorted(Drifting(base, slope, i, m, rounds))
    ensures slope <= 0.0 ==> IsSorted(Reverse(Drifting(base, slope, i, m, rounds)))
  {
    hide Position;
    var s := Drifting(base, slope, i, m, rounds);
    forall r, q | 0 <= r <= q < rounds
      ensures slope >= 0.0 ==> s[r] <= s[q]
      ensures slope <= 0.0 ==> s[q] <= s[r]
    {
      PositionsRise(i, m, r, q);
      ScaleOrder(slope, Position(i, m, r) as real, Position(i, m, q) as real);
    }
  }

  lemma ScaleOrder(slope: real, x: real, y: real)
    requires x <= y
    ensures slope >= 0.0 ==> slope * x <= slope * y
    ensures slope <= 0.0 ==> slope * y <= slope * x
  {
    if slope >= 0.0 {
      MulMonotone(x, y, slope);
    } else {
      MulMonotone(x, y, -slope);
    }
  }

  /** The position a median over all rounds stands for, doubled: the same for every variant if rounds are even. */
  function DoubledMedianPosition(i: nat, m: nat, rounds: nat): int
    requires i < m
  {
    if rounds % 2 == 0 then rounds * m - 1 else 2 * Position(i, m, rounds / 2)
  }

  lemma MedianPosition(i: nat, m: nat, rounds: nat)
    requires i < m && rounds > 0 && rounds % 2 == 0
    ensures Position(i, m, rounds / 2 - 1) + Position(i, m, rounds / 2) == rounds * m - 1
  {
    var h := rounds / 2;
    assert rounds == 2 * h;
    assert (h - 1) * m == h * m - m;
    assert rounds * m == h * m + h * m;
  }

  /** A variant's median over all rounds is its base cost plus the drift at its median position. */
  lemma MedianUnderDrift(base: real, slope: real, i: nat, m: nat, rounds: nat)
    requires i < m && rounds > 0
    ensures Median(Drifting(base, slope, i, m, rounds))
            == base + slope * (DoubledMedianPosition(i, m, rounds) as real / 2.0)
  {
    hide *;
    DriftingAt(base, slope, i, m, rounds, 0);
    DriftingIsMonotone(base, slope, i, m, rounds);
    MonotoneMedian(Drifting(base, slope, i, m, rounds));
    MiddleOfDrift(base, slope, i, m, rounds);
  }

  lemma MiddleOfDrift(base: real, slope: real, i: nat, m: nat, rounds: nat)
    requires i < m && rounds > 0 && Drifting(base, slope, i, m, rounds) != []
    ensures Middle(Drifting(base, slope, i, m, rounds))
            == base + slope * (DoubledMedianPosition(i, m, rounds) as real / 2.0)
  {
    hide Position, Drifting;
    var h := rounds / 2;
    DriftingAt(base, slope, i, m, rounds, h);
    if rounds % 2 == 0 {
      MedianPosition(i, m, rounds);
      DriftingAt(base, slope, i, m, rounds, h - 1);
      var x, y := Position(i, m, h - 1) as real, Position(i, m, h) as real;
      AverageDrift(base, slope, x, y);
      assert x + y == DoubledMedianPosition(i, m, rounds) as real;
    } else {
      assert Position(i, m, h) as real == DoubledMedianPosition(i, m, rounds) as real / 2.0;
    }
  }

  lemma DriftingAt(base: real, slope: real, i: nat, m: nat, rounds: nat, r: nat)
    requires i < m && r < rounds
    ensures |Drifting(base, slope, i, m, rounds)| == rounds
    ensures Drifting(base, slope, i, m, rounds)[r] == base + slope * Position(i, m, r) as real
  {
  }

  lemma AverageDrift(base: real, slope: real, x: real, y: real)
    ensures (base + slope * x + (base + slope * y)) / 2.0 == base + slope * ((x + y) / 2.0)
  {
  }

  /**
   Comparing two variants by their medians over all rounds measures exactly the difference of
   their base costs, for every drift, if and only if the number of rounds is even.  The harness
   and the sweep compare medians, and two rounds are their least even choice.
   */
  lemma SweepCancelsDriftIffEven(a: real, b: real, slope: real, i: nat, j: nat, m: nat, rounds: nat)
    requires i < m && j < m && i != j && rounds > 0 && slope != 0.0
    ensures Median(Drifting(a, slope, i, m, rounds)) - Median(Drifting(b, slope, j, m, rounds)) == a - b
            <==> rounds % 2 == 0
  {
    hide Median, Drifting;
    MedianUnderDrift(a, slope, i, m, rounds);
    MedianUnderDrift(b, slope, j, m, rounds);
    var x, y := DoubledMedianPosition(i, m, rounds) as real / 2.0, DoubledMedianPosition(j, m, rounds) as real / 2.0;
    assert x == y <==> rounds % 2 == 0;
    Cancels(slope, x, y);
  }

  lemma Cancels(slope: real, x: real, y: real)
    requires slope != 0.0
    ensures slope * x == slope * y <==> x == y
  {
    assert slope * x - slope * y == slope * (x - y);
  }
}
