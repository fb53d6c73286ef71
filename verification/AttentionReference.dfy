/**
 The acceptance test of both attention paths: every element of a GPU output is compared with
 the softmax reference of its row and column.
 */
module AttentionReference {
  import opened Attention
  import opened RealArithmetic
  import opened Wrappers

  /** Row-major input matrices and the softmax scale. */
  datatype Problem = Problem(queries: seq<real>, keys: seq<real>, values: seq<real>,
                             queryRows: nat, headDim: nat, kvRows: nat, valueDim: nat, scale: real) {
    predicate Valid() {
      && |queries| == queryRows * headDim
      && |keys| == kvRows * headDim
      && |values| == kvRows * valueDim
    }

    /** The scaled dot product of a query row and a key row, over their first n elements. */
    function Dot(row: nat, key: nat, n: nat): real
      requires Valid() && row < queryRows && key < kvRows && n <= headDim
    {
      if n == 0 then 0.0
      else
        InRange(row, n - 1, queryRows, headDim);
        InRange(key, n - 1, kvRows, headDim);
        Dot(row, key, n - 1) + queries[row * headDim + (n - 1)] * keys[key * headDim + (n - 1)]
    }

    function Scores(row: nat): seq<real>
      requires Valid() && row < queryRows
    {
      seq(kvRows, key requires 0 <= key < kvRows => Dot(row, key, headDim) * scale)
    }

    function Column(col: nat): seq<real>
      requires Valid() && col < valueDim
    {
      seq(kvRows, key requires 0 <= key < kvRows =>
        InRange(key, col, kvRows, valueDim); values[key * valueDim + col])
    }
  }

  lemma InRange(row: nat, col: nat, rows: nat, cols: nat)
    requires row < rows && col < cols
    ensures 0 <= row * cols + col < rows * cols
  {
    assert (row + 1) * cols <= rows * cols;
    assert (row + 1) * cols == row * cols + cols;
  }

  // ----- The outputs as sums over the matrices -----

  /** The score of a query row and a key row: the scale times the sum of the products of their elements. */
  ghost function Score(p: Problem, row: nat, key: nat): real
    requires p.Valid() && row < p.queryRows && key < p.kvRows
  {
    p.scale * Sum(Products(p, row, key))
  }

  ghost function Products(p: Problem, row: nat, key: nat): (products: seq<real>)
    requires p.Valid() && row < p.queryRows && key < p.kvRows
    ensures |products| == p.headDim
  {
    seq(p.headDim, e requires 0 <= e < p.headDim =>
      InRange(row, e, p.queryRows, p.headDim);
      InRange(key, e, p.kvRows, p.headDim);
      p.queries[row * p.headDim + e] * p.keys[key * p.headDim + e])
  }

  ghost function Weights(exp: real -> real, p: Problem, row: nat): (weights: seq<real>)
    requires p.Valid() && row < p.queryRows
    ensures |weights| == p.kvRows && forall key :: 0 <= key < p.kvRows ==> weights[key] == exp(Score(p, row, key))
  {
    seq(p.kvRows, key requires 0 <= key < p.kvRows => exp(Score(p, row, key)))
  }

  ghost function WeightedValues(exp: real -> real, p: Problem, row: nat, col: nat): (terms: seq<real>)
    requires p.Valid() && row < p.queryRows && col < p.valueDim
    ensures |terms| == p.kvRows
  {
    seq(p.kvRows, key requires 0 <= key < p.kvRows =>
      InRange(key, col, p.kvRows, p.valueDim);
      exp(Score(p, row, key)) * p.values[key * p.valueDim + col])
  }

  /** Attention as it is usually defined: values weighted by the exponentials of the scores, over the sum of weights. */
  ghost function Output(exp: real -> real, p: Problem, row: nat, col: nat): real
    requires IsExp(exp) && p.Valid() && p.kvRows > 0 && row < p.queryRows && col < p.valueDim
  {
    SumPositive(Weights(exp, p, row));
    Sum(WeightedValues(exp, p, row, col)) / Sum(Weights(exp, p, row))
  }

  lemma {:induction false} DotIsSum(p: Problem, row: nat, key: nat, n: nat)
    requires p.Valid() && row < p.queryRows && key < p.kvRows && n <= p.headDim
    ensures p.Dot(row, key, n) == Sum(Products(p, row, key)[..n])
  {
    if n > 0 {
      DotIsSum(p, row, key, n - 1);
      var products := Products(p, row, key);
      SumAppend(products[..n - 1], products[n - 1]);
      assert products[..n] == products[..n - 1] + [products[n - 1]];
      InRange(row, n - 1, p.queryRows, p.headDim);
      InRange(key, n - 1, p.kvRows, p.headDim);
    }
  }

  /** The scores that the loops compute are the scores. */
  lemma ScoresMeaning(p: Problem, row: nat)
    requires p.Valid() && row < p.queryRows
    ensures |p.Scores(row)| == p.kvRows
    ensures forall key :: 0 <= key < p.kvRows ==> p.Scores(row)[key] == Score(p, row, key)
  {
    hide Products, Sum, Problem.Dot;
    forall key | 0 <= key < p.kvRows
      ensures p.Scores(row)[key] == Score(p, row, key)
    {
      DotIsSum(p, row, key, p.headDim);
      assert Products(p, row, key)[..p.headDim] == Products(p, row, key);
    }
  }

  lemma {:induction false} TotalIsSum(exp: real -> real, s: seq<real>, weights: seq<real>)
    requires |weights| == |s| && forall i :: 0 <= i < |s| ==> weights[i] == exp(s[i])
    ensures Total(exp, s, 0.0) == Sum(weights)
  {
    if s != [] {
      TotalIsSum(exp, s[1..], weights[1..]);
      assert s[0] - 0.0 == s[0];
    }
  }

  lemma {:induction false} WeightedIsSum(exp: real -> real, s: seq<real>, v: seq<real>, terms: seq<real>)
    requires |terms| == |s| == |v| && forall i :: 0 <= i < |s| ==> terms[i] == exp(s[i]) * v[i]
    ensures Weighted(exp, s, v, 0.0) == Sum(terms)
  {
    if s != [] {
      WeightedIsSum(exp, s[1..], v[1..], terms[1..]);
      assert s[0] - 0.0 == s[0];
    }
  }

  /** What the validation expects of an element is the output of attention there. */
  lemma ExpectedIsOutput(exp: real -> real, p: Problem, row: nat, col: nat)
    requires IsExp(exp) && p.Valid() && p.kvRows > 0 && row < p.queryRows && col < p.valueDim
    ensures Expected(exp, p.Scores(row), p.Column(col)) == Output(exp, p, row, col)
  {
    hide Score, Problem.Scores, Expected, Sum, Total, Weighted, IsExp;
    var s, v := p.Scores(row), p.Column(col);
    ScoresMeaning(p, row);
    ColumnMeaning(exp, p, row, col);
    TotalIsSum(exp, s, Weights(exp, p, row));
    WeightedIsSum(exp, s, v, WeightedValues(exp, p, row, col));
    AnyReferencePoint(exp, s, v, 0.0);
  }

  lemma ColumnMeaning(exp: real -> real, p: Problem, row: nat, col: nat)
    requires p.Valid() && row < p.queryRows && col < p.valueDim
    ensures var v, terms := p.Column(col), WeightedValues(exp, p, row, col);
            && |v| == p.kvRows
            && forall key :: 0 <= key < p.kvRows ==> terms[key] == exp(Score(p, row, key)) * v[key]
  {
    hide Score;
  }

  datatype Mismatch = LengthMismatch | At(row: nat, col: nat)

  function Tolerance(expected: real): real {
    Max(0.001, Abs(expected) * 0.0001)
  }

  ghost function Error(exp: real -> real, p: Problem, actual: seq<real>, row: nat, col: nat): real
    requires IsExp(exp) && p.Valid() && p.kvRows > 0 && row < p.queryRows && col < p.valueDim
    requires |actual| == p.queryRows * p.valueDim
  {
    InRange(row, col, p.queryRows, p.valueDim);
    Abs(actual[row * p.valueDim + col] - Expected(exp, p.Scores(row), p.Column(col)))
  }

  ghost predicate Within(exp: real -> real, p: Problem, actual: seq<real>, row: nat, col: nat)
    requires IsExp(exp) && p.Valid() && p.kvRows > 0 && row < p.queryRows && col < p.valueDim
    requires |actual| == p.queryRows * p.valueDim
  {
    Error(exp, p, actual, row, col) <= Tolerance(Expected(exp, p.Scores(row), p.Column(col)))
  }

  /** Every element before (row, col) in row-major order is within tolerance, with error at most m. */
  ghost predicate CheckedUpTo(exp: real -> real, p: Problem, actual: seq<real>, row: nat, col: nat, m: real)
    requires IsExp(exp) && p.Valid() && |actual| == p.queryRows * p.valueDim
  {
    p.kvRows > 0 ==>
      forall r: nat, c: nat :: r < p.queryRows && c < p.valueDim && (r < row || (r == row && c < col)) ==>
        Within(exp, p, actual, r, c) && Error(exp, p, actual, r, c) <= m
  }

  /** m is zero or the error of an element before (row, col). */
  ghost predicate Attained(exp: real -> real, p: Problem, actual: seq<real>, row: nat, col: nat, m: real)
    requires IsExp(exp) && p.Valid() && |actual| == p.queryRows * p.valueDim
  {
    || m == 0.0
    || (p.kvRows > 0 &&
        exists r: nat, c: nat :: r < p.queryRows && c < p.valueDim && (r < row || (r == row && c < col))
          && m == Error(exp, p, actual, r, c))
  }

  ghost predicate Progress(exp: real -> real, p: Problem, actual: seq<real>, row: nat, col: nat, m: real)
    requires IsExp(exp) && p.Valid() && |actual| == p.queryRows * p.valueDim
  {
    CheckedUpTo(exp, p, actual, row, col, m) && Attained(exp, p, actual, row, col, m)
  }

  lemma ElementAccepted(exp: real -> real, p: Problem, actual: seq<real>, row: nat, col: nat, m: real, e: real)
    requires IsExp(exp) && p.Valid() && |actual| == p.queryRows * p.valueDim
    requires p.kvRows > 0 && row < p.queryRows && col < p.valueDim
    requires Progress(exp, p, actual, row, col, m)
    requires e == Error(exp, p, actual, row, col) && Within(exp, p, actual, row, col)
    ensures Progress(exp, p, actual, row, col + 1, Max(m, e))
  {
    hide IsExp, Error, Within;
  }

  lemma NothingToCheck(exp: real -> real, p: Problem, actual: seq<real>, row: nat, col: nat)
    requires IsExp(exp) && p.Valid() && |actual| == p.queryRows * p.valueDim
    requires p.kvRows == 0 || (row == 0 && col == 0)
    ensures Progress(exp, p, actual, row, col, 0.0)
  {
  }

  lemma RowFinished(exp: real -> real, p: Problem, actual: seq<real>, row: nat, m: real)
    requires IsExp(exp) && p.Valid() && |actual| == p.queryRows * p.valueDim
    requires Progress(exp, p, actual, row, p.valueDim, m)
    ensures Progress(exp, p, actual, row + 1, 0, m)
  {
    hide IsExp, Error, Within;
  }

  /** How far an element is from the output of attention. */
  ghost function Off(exp: real -> real, p: Problem, actual: seq<real>, row: nat, col: nat): real
    requires IsExp(exp) && p.Valid() && p.kvRows > 0 && row < p.queryRows && col < p.valueDim
    requires |actual| == p.queryRows * p.valueDim
  {
    InRange(row, col, p.queryRows, p.valueDim);
    Abs(actual[row * p.valueDim + col] - Output(exp, p, row, col))
  }

  /** An element is out of tolerance: off by more than 0.001 and by more than 0.0001 of what it should be. */
  ghost predicate Misses(exp: real -> real, p: Problem, actual: seq<real>, row: nat, col: nat)
    requires IsExp(exp) && p.Valid() && p.kvRows > 0 && row < p.queryRows && col < p.valueDim
    requires |actual| == p.queryRows * p.valueDim
  {
    var off := Off(exp, p, actual, row, col);
    off > 0.001 && off * 10000.0 > Abs(Output(exp, p, row, col))
  }

  lemma MissesIff(exp: real -> real, p: Problem, actual: seq<real>, row: nat, col: nat)
    requires IsExp(exp) && p.Valid() && p.kvRows > 0 && row < p.queryRows && col < p.valueDim
    requires |actual| == p.queryRows * p.valueDim
    ensures Misses(exp, p, actual, row, col) <==> !Within(exp, p, actual, row, col)
    ensures Off(exp, p, actual, row, col) == Error(exp, p, actual, row, col)
  {
    hide Output, Expected, IsExp, Problem.Scores, Problem.Column;
    ExpectedIsOutput(exp, p, row, col);
  }

  predicate Before(r: nat, c: nat, row: nat, col: nat) {
    r < row || (r == row && c < col)
  }

  lemma NoneMisses(exp: real -> real, p: Problem, actual: seq<real>, row: nat, col: nat, m: real)
    requires IsExp(exp) && p.Valid() && p.kvRows > 0 && |actual| == p.queryRows * p.valueDim
    requires CheckedUpTo(exp, p, actual, row, col, m)
    ensures forall r: nat, c: nat :: r < p.queryRows && c < p.valueDim && Before(r, c, row, col) ==>
              !Misses(exp, p, actual, r, c) && Off(exp, p, actual, r, c) <= m
  {
    hide IsExp, Misses, Within, Error, Off;
    forall r: nat, c: nat | r < p.queryRows && c < p.valueDim && Before(r, c, row, col)
      ensures !Misses(exp, p, actual, r, c) && Off(exp, p, actual, r, c) <= m
    {
      MissesIff(exp, p, actual, r, c);
    }
  }

  lemma GreatestOff(exp: real -> real, p: Problem, actual: seq<real>, m: real)
    requires IsExp(exp) && p.Valid() && p.kvRows > 0 && |actual| == p.queryRows * p.valueDim
    requires Attained(exp, p, actual, p.queryRows, 0, m)
    ensures m == 0.0 || exists row: nat, col: nat ::
              row < p.queryRows && col < p.valueDim && m == Off(exp, p, actual, row, col)
  {
    hide IsExp, Error, Off;
    if m != 0.0 {
      var r: nat, c: nat :| r < p.queryRows && c < p.valueDim && m == Error(exp, p, actual, r, c);
      MissesIff(exp, p, actual, r, c);
    }
  }

  /**
   The validation loop.  It accepts exactly when every element is within tolerance of the output of
   attention, and then returns the largest error; otherwise it names the first element out of tolerance.  With no
   keys the reference is a NaN, against which no comparison fails, so any output of the right
   length is accepted with error zero.
   */
  method Validate(exp: real -> real, p: Problem, actual: seq<real>) returns (r: Result<real, Mismatch>)
    requires IsExp(exp) && p.Valid()
    ensures |actual| != p.queryRows * p.valueDim <==> r == Err(LengthMismatch)
    ensures r.Ok? ==>
              && CheckedUpTo(exp, p, actual, p.queryRows, 0, r.value)
              && Attained(exp, p, actual, p.queryRows, 0, r.value)
    ensures r.Err? && r.error.At? ==>
              && p.kvRows > 0 && r.error.row < p.queryRows && r.error.col < p.valueDim
              && (exists m :: CheckedUpTo(exp, p, actual, r.error.row, r.error.col, m))
              && !Within(exp, p, actual, r.error.row, r.error.col)
    ensures |actual| == p.queryRows * p.valueDim && p.kvRows > 0 ==>
              (r.Ok? <==> forall row: nat, col: nat :: row < p.queryRows && col < p.valueDim ==>
                 !Misses(exp, p, actual, row, col))
    ensures r.Err? && r.error.At? ==>
              && Misses(exp, p, actual, r.error.row, r.error.col)
              && forall row: nat, col: nat ::
                   row < p.queryRows && col < p.valueDim && Before(row, col, r.error.row, r.error.col) ==>
                     !Misses(exp, p, actual, row, col)
    ensures r.Ok? && p.kvRows > 0 ==>
              && (forall row: nat, col: nat :: row < p.queryRows && col < p.valueDim ==>
                    Off(exp, p, actual, row, col) <= r.value)
              && (r.value == 0.0 || exists row: nat, col: nat ::
                    row < p.queryRows && col < p.valueDim && r.value == Off(exp, p, actual, row, col))
    ensures r.Ok? && p.kvRows == 0 ==> r.value == 0.0
  {
    hide IsExp, CheckedUpTo, Attained, Within, Misses, Off;
    if |actual| != p.queryRows * p.valueDim {
      return Err(LengthMismatch);
    }
    var maxAbsoluteError := 0.0;
    NothingToCheck(exp, p, actual, 0, 0);
    for row := 0 to p.queryRows
      invariant Progress(exp, p, actual, row, 0, maxAbsoluteError)
      invariant p.kvRows == 0 ==> maxAbsoluteError == 0.0
    {
      var scores := RowScores(p, row);
      var mismatch;
      mismatch, maxAbsoluteError := ValidateRow(exp, p, actual, row, scores, maxAbsoluteError);
      if mismatch.Some? {
        ghost var m :| CheckedUpTo(exp, p, actual, row, mismatch.value, m);
        NoneMisses(exp, p, actual, row, mismatch.value, m);
        MissesIff(exp, p, actual, row, mismatch.value);
        return Err(At(row, mismatch.value));
      }
      RowFinished(exp, p, actual, row, maxAbsoluteError);
    }
    if p.kvRows > 0 {
      NoneMisses(exp, p, actual, p.queryRows, 0, maxAbsoluteError);
      GreatestOff(exp, p, actual, maxAbsoluteError);
    }
    return Ok(maxAbsoluteError);
  }

  /** The columns of one row: weights relative to the row maximum, then the weighted means. */
  method ValidateRow(exp: real -> real, p: Problem, actual: seq<real>, row: nat, scores: seq<real>, before: real)
      returns (mismatch: Option<nat>, maxAbsoluteError: real)
    requires IsExp(exp) && p.Valid() && |actual| == p.queryRows * p.valueDim
    requires row < p.queryRows && scores == p.Scores(row)
    requires p.kvRows == 0 ==> before == 0.0
    requires Progress(exp, p, actual, row, 0, before)
    ensures p.kvRows == 0 ==> maxAbsoluteError == 0.0
    ensures mismatch.None? ==> Progress(exp, p, actual, row, p.valueDim, maxAbsoluteError)
    ensures mismatch.Some? ==>
              && p.kvRows > 0 && mismatch.value < p.valueDim
              && (exists m :: CheckedUpTo(exp, p, actual, row, mismatch.value, m))
              && !Within(exp, p, actual, row, mismatch.value)
  {
    hide IsExp, CheckedUpTo, Attained, Weighted, Total, Problem.Dot;
    maxAbsoluteError := before;
    var maxScore, total := 0.0, 0.0;
    if p.kvRows > 0 {
      maxScore := MaxOf(scores);
      total := Total(exp, scores, maxScore);
      TotalPositive(exp, scores, maxScore);
    }
    for col := 0 to p.valueDim
      invariant Progress(exp, p, actual, row, col, maxAbsoluteError)
      invariant p.kvRows == 0 ==> maxAbsoluteError == 0.0
    {
      InRange(row, col, p.queryRows, p.valueDim);
      if total != 0.0 {
        var expected := Weighted(exp, scores, p.Column(col), maxScore) / total;
        assert expected == Expected(exp, p.Scores(row), p.Column(col));
        var error := Abs(actual[row * p.valueDim + col] - expected);
        if error > Tolerance(expected) {
          return Some(col), maxAbsoluteError;
        }
        ElementAccepted(exp, p, actual, row, col, maxAbsoluteError, error);
        maxAbsoluteError := Max(maxAbsoluteError, error);
      } else {
        NothingToCheck(exp, p, actual, row, col + 1);
      }
    }
    mismatch := None;
  }

  /** One row of the score matrix, filled key by key. */
  method RowScores(p: Problem, row: nat) returns (scores: seq<real>)
    requires p.Valid() && row < p.queryRows
    ensures scores == p.Scores(row)
  {
    var buffer := new real[p.kvRows](_ => 0.0);
    for key := 0 to p.kvRows
      invariant forall k :: 0 <= k < key ==> buffer[k] == p.Scores(row)[k]
    {
      var score := DotProduct(p, row, key);
      buffer[key] := score * p.scale;
    }
    return buffer[..];
  }

  method DotProduct(p: Problem, row: nat, key: nat) returns (score: real)
    requires p.Valid() && row < p.queryRows && key < p.kvRows
    ensures score == p.Dot(row, key, p.headDim)
  {
    score := 0.0;
    for e := 0 to p.headDim
      invariant score == p.Dot(row, key, e)
    {
      InRange(row, e, p.queryRows, p.headDim);
      InRange(key, e, p.kvRows, p.headDim);
      score := score + p.queries[row * p.headDim + e] * p.keys[key * p.headDim + e];
    }
  }
}
