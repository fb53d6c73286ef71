/**
 Deterministic selection: the lowest-index argmax, and the top-k reference that masks the
 winner of every round and rescans.
 */
module Selection {
  import opened Wrappers

  /** A floating-point value that is not a NaN. */
  datatype Ext = NegInf | Fin(r: real) | PosInf

  /** The floating-point comparison x > y. */
  predicate Gt(x: Ext, y: Ext) {
    x != y && (x == PosInf || y == NegInf || (x.Fin? && y.Fin? && x.r > y.r))
  }

  /** Index i comes before index j in a stable descending sort. */
  predicate Beats(s: seq<Ext>, i: nat, j: nat)
    requires i < |s| && j < |s|
  {
    Gt(s[i], s[j]) || (s[i] == s[j] && i < j)
  }

  lemma BeatsIsTotalOrder(s: seq<Ext>, i: nat, j: nat, k: nat)
    requires i < |s| && j < |s| && k < |s|
    ensures !Beats(s, i, i)
    ensures i != j ==> Beats(s, i, j) != Beats(s, j, i)
    ensures Beats(s, i, j) && Beats(s, j, k) ==> Beats(s, i, k)
  {
  }

  ghost predicate IsArgMax(s: seq<Ext>, b: nat) {
    b < |s| && forall j :: 0 <= j < |s| && j != b ==> Beats(s, b, j)
  }

  /** The lowest index of a greatest element. */
  function ArgMax(s: seq<Ext>): (b: nat)
    requires s != []
    ensures IsArgMax(s, b)
  {
    ArgMaxUpTo(s, |s|)
  }

  function ArgMaxUpTo(s: seq<Ext>, n: nat): (b: nat)
    requires 1 <= n <= |s|
    ensures b < n
    ensures forall j :: 0 <= j < n && j != b ==> Beats(s, b, j)
  {
    if n == 1 then 0
    else
      var b := ArgMaxUpTo(s, n - 1);
      var best := if Gt(s[n - 1], s[b]) then n - 1 else b;
      assert forall j :: 0 <= j < n && j != best ==> Beats(s, best, j) by {
        forall j | 0 <= j < n && j != best
          ensures Beats(s, best, j)
        {
          assert j < n - 1 && j != b ==> Beats(s, b, j);
          BeatsIsTotalOrder(s, best, b, j);
        }
      }
      best
  }

  lemma ArgMaxUnique(s: seq<Ext>, b: nat)
    requires IsArgMax(s, b)
    ensures ArgMax(s) == b
  {
    BeatsIsTotalOrder(s, ArgMax(s), b, b);
  }

  /** The indices that k rounds of masked argmax select. */
  function Picks(s: seq<Ext>, k: nat): (p: seq<nat>)
    requires k == 0 || s != []
    ensures |p| == k
    decreases k
  {
    if k == 0 then [] else var b := ArgMax(s); [b] + Picks(s[b := NegInf], k - 1)
  }

  const U32_SIZE: nat := 0x1_0000_0000

  /**
   The post-timing validation: repeatedly take the argmax of the scratch copy, compare it with
   the device's index for that round, and mask it.  It needs an element to look at unless k is
   zero.  It accepts exactly the picks, as 32-bit indices; otherwise it names the first round
   that differs.
   */
  method ValidateTopK(host: seq<Ext>, k: nat, device: seq<nat>) returns (r: Result<(), nat>)
    requires |device| == k && (k == 0 || host != [])
    ensures r.Ok? <==> forall i :: 0 <= i < k ==> device[i] == Picks(host, k)[i] % U32_SIZE
    ensures r.Err? ==>
              && r.error < k && device[r.error] != Picks(host, k)[r.error] % U32_SIZE
              && forall i :: 0 <= i < r.error ==> device[i] == Picks(host, k)[i] % U32_SIZE
  {
    var scratch := new Ext[|host|](i requires 0 <= i < |host| => host[i]);
    assert scratch[..] == host;
    for round := 0 to k
      invariant Remaining(host, k, round, scratch[..])
      invariant forall i :: 0 <= i < round ==> device[i] == Picks(host, k)[i] % U32_SIZE
    {
      var best := ScanMax(scratch);
      RoundStep(host, k, round, scratch[..]);
      if device[round] != best % U32_SIZE {
        return Err(round);
      }
      scratch[best] := NegInf;
    }
    return Ok(());
  }

  /** One scan of the scratch copy. */
  method ScanMax(scratch: array<Ext>) returns (best: nat)
    requires scratch.Length > 0
    ensures best == ArgMax(scratch[..])
  {
    best := 0;
    for candidate := 1 to scratch.Length
      invariant best == ArgMaxUpTo(scratch[..], candidate)
    {
      if Gt(scratch[candidate], scratch[best]) {
        best := candidate;
      }
    }
  }

  /** After `round` rounds the picks still to come are those of the scratch copy. */
  ghost predicate Remaining(host: seq<Ext>, k: nat, round: nat, scratch: seq<Ext>) {
    && |scratch| == |host| && round <= k && (k == 0 || host != [])
    && Picks(host, k)[round..] == Picks(scratch, k - round)
  }

  lemma RoundStep(host: seq<Ext>, k: nat, round: nat, scratch: seq<Ext>)
    requires round < k && Remaining(host, k, round, scratch)
    ensures Picks(host, k)[round] == ArgMax(scratch)
    ensures Remaining(host, k, round + 1, scratch[ArgMax(scratch) := NegInf])
  {
    var p := Picks(host, k);
    assert p[round] == p[round..][0];
    assert p[round + 1..] == p[round..][1..];
  }

  // ----- The stable descending sort -----

  function Insert(s: seq<Ext>, order: seq<nat>, x: nat): (r: seq<nat>)
    requires x < |s| && forall i :: 0 <= i < |order| ==> order[i] < |s|
    ensures |r| == |order| + 1
    ensures forall i :: 0 <= i < |r| ==> r[i] < |s|
    ensures multiset(r) == multiset(order) + multiset{x}
  {
    if order == [] then [x]
    else if Beats(s, order[0], x) then
      assert order == [order[0]] + order[1..];
      [order[0]] + Insert(s, order[1..], x)
    else [x] + order
  }

  /** The indices below n in stable descending order of their elements. */
  function Ranked(s: seq<Ext>, n: nat): (r: seq<nat>)
    requires n <= |s|
    ensures |r| == n
    ensures forall i :: 0 <= i < n ==> r[i] < |s|
  {
    if n == 0 then [] else Insert(s, Ranked(s, n - 1), n - 1)
  }

  ghost predicate SortedBy(s: seq<Ext>, order: seq<nat>) {
    && (forall i :: 0 <= i < |order| ==> order[i] < |s|)
    && (forall i, j :: 0 <= i < j < |order| ==> Beats(s, order[i], order[j]))
  }

  lemma {:induction false} InsertSorted(s: seq<Ext>, order: seq<nat>, x: nat)
    requires x < |s| && SortedBy(s, order) && x !in order
    ensures SortedBy(s, Insert(s, order, x))
  {
    var r := Insert(s, order, x);
    if order != [] {
      if Beats(s, order[0], x) {
        InsertSorted(s, order[1..], x);
        forall j | 1 <= j < |r|
          ensures Beats(s, r[0], r[j])
        {
          assert r[j] in multiset(r[1..]);
          assert r[1..] == Insert(s, order[1..], x);
          assert r[j] == x || r[j] in order[1..];
        }
      } else {
        forall j | 1 <= j < |r|
          ensures Beats(s, x, r[j])
        {
          BeatsIsTotalOrder(s, order[0], x, x);
          BeatsIsTotalOrder(s, x, order[0], order[j - 1]);
        }
      }
    }
  }

  lemma RankedStep(s: seq<Ext>, n: nat, x: nat)
    requires n <= |s| && n == x + 1
    ensures Ranked(s, n) == Insert(s, Ranked(s, x), x)
    ensures multiset(Ranked(s, n)) == multiset(Ranked(s, x)) + multiset{x}
    ensures CountAbove(s, n) == if s[x] == NegInf then CountAbove(s, x) else CountAbove(s, x) + 1
  {
    hide *;
    RankedUnfolds(s, n, x);
    CountUnfolds(s, n);
  }

  lemma RankedUnfolds(s: seq<Ext>, n: nat, x: nat)
    requires n <= |s| && n == x + 1
    ensures Ranked(s, n) == Insert(s, Ranked(s, x), x)
  {
    hide Insert;
  }

  lemma CountUnfolds(s: seq<Ext>, n: nat)
    requires 0 < n <= |s|
    ensures CountAbove(s, n) == if s[n - 1] == NegInf then CountAbove(s, n - 1) else CountAbove(s, n - 1) + 1
  {
  }

  /** `order` holds every index below n exactly once, and nothing else. */
  ghost predicate HoldsOnce(order: seq<nat>, n: nat) {
    forall x: nat :: multiset(order)[x] == if x < n then 1 else 0
  }

  lemma HoldsOneMore(order: seq<nat>, x: nat, r: seq<nat>)
    requires HoldsOnce(order, x) && multiset(r) == multiset(order) + multiset{x}
    ensures HoldsOnce(r, x + 1)
  {
  }

  lemma {:induction false} RankedContents(s: seq<Ext>, n: nat)
    requires n <= |s|
    ensures HoldsOnce(Ranked(s, n), n)
  {
    hide *;
    if n == 0 {
      NothingHeld(s);
    } else {
      RankedContents(s, n - 1);
      RankedStep(s, n, n - 1);
      HoldsOneMore(Ranked(s, n - 1), n - 1, Ranked(s, n));
    }
  }

  lemma NothingHeld(s: seq<Ext>)
    ensures HoldsOnce(Ranked(s, 0), 0)
  {
  }

  lemma RankedBelow(s: seq<Ext>, n: nat)
    requires n <= |s|
    ensures forall i :: 0 <= i < n ==> Ranked(s, n)[i] < n
  {
    RankedContents(s, n);
    forall i | 0 <= i < n
      ensures Ranked(s, n)[i] < n
    {
      assert Ranked(s, n)[i] in multiset(Ranked(s, n));
    }
  }

  /** Ranked really is a sort: it holds every index exactly once, each beating all later ones. */
  lemma {:induction false} RankedIsSort(s: seq<Ext>, n: nat)
    requires n <= |s|
    ensures SortedBy(s, Ranked(s, n))
  {
    hide SortedBy, Beats, Insert, Ranked;
    if n == 0 {
      NothingIsSorted(s);
      NothingRanked(s);
    } else {
      RankedIsSort(s, n - 1);
      RankedBelow(s, n - 1);
      RankedUnfolds(s, n, n - 1);
      InsertSorted(s, Ranked(s, n - 1), n - 1);
    }
  }

  lemma NothingRanked(s: seq<Ext>)
    ensures Ranked(s, 0) == []
  {
  }

  lemma NothingIsSorted(s: seq<Ext>)
    ensures SortedBy(s, [])
  {
  }

  /** How many of the first n elements are above minus infinity. */
  function CountAbove(s: seq<Ext>, n: nat): nat
    requires n <= |s|
  {
    if n == 0 then 0 else CountAbove(s, n - 1) + (if s[n - 1] == NegInf then 0 else 1)
  }

  /** In a ranking, exactly the first c indices carry elements above minus infinity. */
  ghost predicate SplitsAt(s: seq<Ext>, order: seq<nat>, c: nat) {
    && c <= |order|
    && forall i :: 0 <= i < |order| ==> order[i] < |s| && (i < c <==> s[order[i]] != NegInf)
  }

  lemma {:induction false} InsertSplits(s: seq<Ext>, order: seq<nat>, x: nat, c: nat)
    requires x < |s| && SplitsAt(s, order, c)
    requires forall i :: 0 <= i < |order| ==> order[i] < x
    ensures SplitsAt(s, Insert(s, order, x), if s[x] == NegInf then c else c + 1)
  {
    var c' := if s[x] == NegInf then c else c + 1;
    if order == [] {
    } else if Beats(s, order[0], x) {
      var rest := order[1..];
      SplitsTail(s, order, c);
      InsertSplits(s, rest, x, if c > 0 then c - 1 else 0);
      SplitsCons(s, order[0], Insert(s, rest, x), if s[order[0]] == NegInf then c' else c' - 1);
    } else {
      assert s[x] != NegInf;
      SplitsCons(s, x, order, c);
    }
  }

  lemma SplitsTail(s: seq<Ext>, order: seq<nat>, c: nat)
    requires order != [] && SplitsAt(s, order, c)
    ensures SplitsAt(s, order[1..], if c > 0 then c - 1 else 0)
  {
  }

  lemma SplitsCons(s: seq<Ext>, x: nat, order: seq<nat>, c: nat)
    requires x < |s| && SplitsAt(s, order, c) && (s[x] == NegInf ==> c == 0)
    ensures SplitsAt(s, [x] + order, if s[x] == NegInf then 0 else c + 1)
  {
  }

  lemma NothingSplits(s: seq<Ext>)
    ensures SplitsAt(s, Ranked(s, 0), CountAbove(s, 0))
  {
  }

  lemma {:induction false} RankedSplits(s: seq<Ext>, n: nat)
    requires n <= |s|
    ensures SplitsAt(s, Ranked(s, n), CountAbove(s, n))
  {
    hide *;
    if n == 0 {
      NothingSplits(s);
    } else {
      RankedSplits(s, n - 1);
      RankedBelow(s, n - 1);
      RankedStep(s, n, n - 1);
      InsertSplits(s, Ranked(s, n - 1), n - 1, CountAbove(s, n - 1));
    }
  }

  // ----- Masked argmax against the sort -----

  ghost predicate MaskedTo(s: seq<Ext>, order: seq<nat>, r: nat, m: seq<Ext>)
    requires r <= |order| && forall i :: 0 <= i < |order| ==> order[i] < |s|
  {
    && |m| == |s|
    && forall i :: 0 <= i < |s| ==> m[i] == if i in order[..r] then NegInf else s[i]
  }

  /** With the r best indices masked, round r picks index r of the ranking, or zero if only -inf is left. */
  lemma RoundPick(s: seq<Ext>, r: nat, m: seq<Ext>)
    requires r < |s| && MaskedTo(s, Ranked(s, |s|), r, m)
    ensures ArgMax(m) == if r < CountAbove(s, |s|) then Ranked(s, |s|)[r] else 0
  {
    RankedIsSort(s, |s|);
    RankedSplits(s, |s|);
    RankedCovers(s);
    hide Ranked, CountAbove;
    RoundPickOf(s, Ranked(s, |s|), CountAbove(s, |s|), r, m);
  }

  lemma RoundPickOf(s: seq<Ext>, order: seq<nat>, c: nat, r: nat, m: seq<Ext>)
    requires SortedBy(s, order) && SplitsAt(s, order, c) && Covers(order, |s|)
    requires r < |s| && r < |order| && MaskedTo(s, order, r, m)
    ensures ArgMax(m) == if r < c then order[r] else 0
  {
    if r < c {
      NoEarlierOccurrence(s, order, r);
      forall j | 0 <= j < |s| && j != order[r]
        ensures Beats(m, order[r], j)
      {
        var q := IndexOf(order, |s|, j);
        if q < r {
          assert j in order[..r];
        } else if j !in order[..r] {
          assert Beats(s, order[r], order[q]);
        }
      }
      ArgMaxUnique(m, order[r]);
    } else {
      forall j | 0 <= j < |s|
        ensures m[j] == NegInf
      {
        var q := IndexOf(order, |s|, j);
        if q < r {
          assert j in order[..r];
        }
      }
      ArgMaxUnique(m, 0);
    }
  }

  lemma NoEarlierOccurrence(s: seq<Ext>, order: seq<nat>, r: nat)
    requires SortedBy(s, order) && r < |order|
    ensures order[r] !in order[..r]
  {
    forall i | 0 <= i < r
      ensures order[i] != order[r]
    {
      assert Beats(s, order[i], order[r]);
      BeatsIsTotalOrder(s, order[r], order[r], order[r]);
    }
  }

  ghost predicate Covers(order: seq<nat>, n: nat) {
    forall j: nat :: j < n ==> j in order
  }

  lemma IndexOf(order: seq<nat>, n: nat, j: nat) returns (q: nat)
    requires Covers(order, n) && j < n
    ensures q < |order| && order[q] == j
  {
    assert j in order;
    q :| 0 <= q < |order| && order[q] == j;
  }

  lemma RankedCovers(s: seq<Ext>)
    ensures Covers(Ranked(s, |s|), |s|)
  {
    RankedContents(s, |s|);
    forall j: nat | j < |s|
      ensures j in Ranked(s, |s|)
    {
      assert multiset(Ranked(s, |s|))[j] == 1;
    }
  }

  /** What round i picks: an index of the ranking while one above -inf is left, then index zero. */
  function Expected(s: seq<Ext>, i: nat): nat
    requires i < |s|
  {
    if i < CountAbove(s, |s|) then Ranked(s, |s|)[i] else 0
  }

  lemma {:induction false} PicksFromRound(s: seq<Ext>, r: nat, k: nat, m: seq<Ext>)
    requires r <= k <= |s| && MaskedTo(s, Ranked(s, |s|), r, m) && (k == r || s != [])
    ensures forall i :: r <= i < k ==> Picks(m, k - r)[i - r] == Expected(s, i)
    decreases k - r
  {
    hide Ranked, CountAbove, MaskedTo, ArgMax, Picks, Expected;
    if r < k {
      RoundPick(s, r, m);
      NextMask(s, r, m);
      ExpectedIs(s, r);
      var next := m[ArgMax(m) := NegInf];
      PicksFromRound(s, r + 1, k, next);
      PicksStep(m, k - r);
      forall i | r <= i < k
        ensures Picks(m, k - r)[i - r] == Expected(s, i)
      {
        if i > r {
          assert Picks(m, k - r)[i - r] == Picks(next, k - r - 1)[i - (r + 1)];
        }
      }
    }
  }

  lemma ExpectedIs(s: seq<Ext>, i: nat)
    requires i < |s|
    ensures Expected(s, i) == if i < CountAbove(s, |s|) then Ranked(s, |s|)[i] else 0
  {
  }

  lemma PicksStep(m: seq<Ext>, k: nat)
    requires k > 0 && m != []
    ensures Picks(m, k) == [ArgMax(m)] + Picks(m[ArgMax(m) := NegInf], k - 1)
  {
  }

  lemma NextMask(s: seq<Ext>, r: nat, m: seq<Ext>)
    requires r < |s| && MaskedTo(s, Ranked(s, |s|), r, m)
    requires ArgMax(m) == if r < CountAbove(s, |s|) then Ranked(s, |s|)[r] else 0
    ensures MaskedTo(s, Ranked(s, |s|), r + 1, m[ArgMax(m) := NegInf])
  {
    RankedSplits(s, |s|);
    RankedCovers(s);
    hide Ranked, CountAbove, ArgMax;
    NextMaskOf(s, Ranked(s, |s|), CountAbove(s, |s|), r, m);
  }

  lemma NextMaskOf(s: seq<Ext>, order: seq<nat>, c: nat, r: nat, m: seq<Ext>)
    requires SplitsAt(s, order, c) && Covers(order, |s|)
    requires r < |s| && r < |order| && MaskedTo(s, order, r, m)
    ensures MaskedTo(s, order, r + 1, m[if r < c then order[r] else 0 := NegInf])
  {
    assert order[..r + 1] == order[..r] + [order[r]];
    if r >= c {
      var q := IndexOf(order, |s|, 0);
      if q < r {
        assert order[..r][q] in order[..r];
      }
    }
  }

  lemma PicksExpected(s: seq<Ext>, k: nat)
    requires s != [] && k <= |s|
    ensures forall i :: 0 <= i < k ==> Picks(s, k)[i] == Expected(s, i)
  {
    hide Picks, Ranked, Expected;
    PicksFromRound(s, 0, k, s);
  }

  /** The number of rounds for which masked argmax is a sort. */
  function Usable(s: seq<Ext>): nat
    requires s != []
  {
    CountAbove(s, |s|) + (if s[0] == NegInf then 1 else 0)
  }

  /**
   The top-k reference returns the first k indices of the stable descending sort exactly when
   k does not exceed the number of elements above minus infinity (one more is right when
   element zero is itself minus infinity, because an exhausted scan falls back to index zero).
   */
  lemma PicksAreStableSortPrefix(s: seq<Ext>, k: nat)
    requires s != [] && k <= |s|
    ensures Picks(s, k) == Ranked(s, |s|)[..k] <==> k <= Usable(s)
  {
    hide Picks, Ranked, CountAbove, SortedBy, SplitsAt, Beats;
    PicksExpected(s, k);
    RankedSplits(s, |s|);
    RankedIsSort(s, |s|);
    RankedCovers(s);
    var order, c, picks := Ranked(s, |s|), CountAbove(s, |s|), Picks(s, k);
    var z := IndexOf(order, |s|, 0);
    ZeroPlace(s, order, c, z);
    forall r | 0 <= r < |s| && r != z
      ensures order[r] != 0
    {
      NoEarlierOccurrence(s, order, if r < z then z else r);
    }
    if k <= Usable(s) {
      forall i | 0 <= i < k
        ensures picks[i] == order[i]
      {
        assert picks[i] == Expected(s, i);
      }
      assert picks == order[..k];
    } else {
      var r := if s[0] == NegInf then c + 1 else c;
      assert picks[r] == Expected(s, r) == 0;
      assert order[..k][r] == order[r] != 0;
    }
  }

  /** Among the minus infinities of a stable sort, index zero comes first. */
  lemma ZeroPlace(s: seq<Ext>, order: seq<nat>, c: nat, z: nat)
    requires SortedBy(s, order) && SplitsAt(s, order, c) && z < |order| && order[z] == 0 && 0 < |s|
    ensures if s[0] == NegInf then z == c else z < c
  {
    assert c < z ==> Beats(s, order[c], order[z]);
  }

  /** What being a prefix of the sort gives a caller: k distinct indices, values never increasing,
      equal values by lower index, and every index left out beaten by every index picked. */
  lemma TopKMeaning(s: seq<Ext>, k: nat)
    requires s != [] && k <= |s| && k <= Usable(s)
    ensures forall i :: 0 <= i < k ==> Picks(s, k)[i] < |s|
    ensures forall i, j :: 0 <= i < j < k ==>
              && Picks(s, k)[i] != Picks(s, k)[j]
              && Beats(s, Picks(s, k)[i], Picks(s, k)[j])
    ensures forall i, x :: 0 <= i < k && 0 <= x < |s| && x !in Picks(s, k) ==>
              Beats(s, Picks(s, k)[i], x)
  {
    PicksAreStableSortPrefix(s, k);
    RankedIsSort(s, |s|);
    RankedCovers(s);
    var order := Ranked(s, |s|);
    hide Picks, Ranked, Usable;
    forall i, x | 0 <= i < k && 0 <= x < |s| && x !in order[..k]
      ensures Beats(s, order[i], x)
    {
      var q := IndexOf(order, |s|, x);
      assert forall t :: 0 <= t < k ==> order[..k][t] == order[t] != x;
      assert Beats(s, order[i], order[q]);
    }
    forall i, j | 0 <= i < j < k
      ensures order[i] != order[j] && Beats(s, order[i], order[j])
    {
      NoEarlierOccurrence(s, order, j);
    }
  }

  lemma {:induction false} AllCounted(s: seq<Ext>, n: nat)
    requires n <= |s| && forall i :: 0 <= i < |s| ==> s[i] != NegInf
    ensures CountAbove(s, n) == n
  {
    if n > 0 {
      AllCounted(s, n - 1);
    }
  }

  /** Without minus infinities every k up to the length is within the bound. */
  lemma FiniteTopK(s: seq<Ext>, k: nat)
    requires s != [] && k <= |s| && forall i :: 0 <= i < |s| ==> s[i] != NegInf
    ensures Usable(s) == |s| && Picks(s, k) == Ranked(s, |s|)[..k]
  {
    AllCounted(s, |s|);
    PicksAreStableSortPrefix(s, k);
  }

  /** The values that the harness generates. */
  function HostValue(index: nat): Ext {
    Fin(((index * 37 % 1009) as real - 504.0) / 64.0)
  }

  function HostValues(n: nat): (s: seq<Ext>)
    ensures |s| == n && forall i :: 0 <= i < n ==> s[i].Fin?
  {
    seq(n, i requires 0 <= i < n => HostValue(i))
  }

  /** So on its own input the harness compares with the stable sort for every k it accepts. */
  lemma HarnessTopK(n: nat, k: nat)
    requires 0 < n && k <= n
    ensures Picks(HostValues(n), k) == Ranked(HostValues(n), n)[..k]
  {
    FiniteTopK(HostValues(n), k);
  }

  /** The oracle as a function: two equal minus infinities are picked as the same index twice. */
  lemma MaskedArgMaxCanRepeat()
    ensures Picks([NegInf, NegInf], 2) == [0, 0]
    ensures Ranked([NegInf, NegInf], 2) == [0, 1]
  {
    var s := [NegInf, NegInf];
    ArgMaxUnique(s, 0);
    assert s[0 := NegInf] == s;
    assert Picks(s, 1) == [0] + Picks(s, 0);
    assert Ranked(s, 1) == [0];
  }
}
