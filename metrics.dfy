/** The three error measures every adapter reports on each partition:
    `mean_squared_error`, `mean_absolute_error` and `r2_score` as scikit-learn 1.4
    defines them, computed here over exact reals. */
module Metrics {
  import opened Wrappers

  function Abs(x: real): (r: real)
    ensures r >= 0.0 && (r == x || r == -x)
  {
    if x >= 0.0 then x else -x
  }

  function Square(x: real): (r: real)
    ensures r >= 0.0
  {
    x * x
  }

  lemma SquarePositive(x: real)
    requires x != 0.0
    ensures Square(x) > 0.0
  {
    var m := if x > 0.0 then x else -x;
    calc {
      Square(x);
      == m * m;
      > 0.0 * m;
      == 0.0;
    }
  }

  function Sum(a: seq<real>): real
  {
    if a == [] then 0.0 else a[0] + Sum(a[1..])
  }

  /** Sum of absolute residuals. */
  function SumAbsErr(actual: seq<real>, predicted: seq<real>): (r: real)
    requires |actual| == |predicted|
    ensures r >= 0.0
  {
    if actual == [] then 0.0
    else Abs(actual[0] - predicted[0]) + SumAbsErr(actual[1..], predicted[1..])
  }

  /** Sum of squared residuals. */
  function SumSqErr(actual: seq<real>, predicted: seq<real>): (r: real)
    requires |actual| == |predicted|
    ensures r >= 0.0
  {
    if actual == [] then 0.0
    else Square(actual[0] - predicted[0]) + SumSqErr(actual[1..], predicted[1..])
  }

  /** Sum of squared deviations from `m` (the total sum of squares when `m` is the mean). */
  function SumSqDev(a: seq<real>, m: real): (r: real)
    ensures r >= 0.0
  {
    if a == [] then 0.0 else Square(a[0] - m) + SumSqDev(a[1..], m)
  }

  function Mean(a: seq<real>): real
    requires |a| > 0
  {
    Sum(a) / |a| as real
  }

  /** The three scores of one partition. `r2 == None` stands for the NaN that
      `r2_score` returns, with a warning, when given fewer than two samples. */
  datatype Scores = Scores(mse: real, mae: real, r2: Option<real>)

  /** `r2_score` with its default `force_finite=True`: a constant ground truth gives
      1 for a perfect prediction and 0 otherwise. */
  function R2(actual: seq<real>, predicted: seq<real>): (r: Option<real>)
    requires |actual| == |predicted|
    ensures r.Some? <==> |actual| >= 2
    ensures r.Some? ==> r.value <= 1.0
  {
    if |actual| < 2 then None
    else
      var residual := SumSqErr(actual, predicted);
      var total := SumSqDev(actual, Mean(actual));
      if total == 0.0 then Some(if residual == 0.0 then 1.0 else 0.0)
      else
        assert residual / total >= 0.0;
        Some(1.0 - residual / total)
  }

  /** The scores of one partition. scikit-learn refuses zero-sample input, so the
      adapters only score non-empty partitions. */
  function Score(actual: seq<real>, predicted: seq<real>): (s: Scores)
    requires |actual| == |predicted| > 0
    ensures s.mse >= 0.0 && s.mae >= 0.0
    ensures s.r2.Some? <==> |actual| >= 2
    ensures s.r2.Some? ==> s.r2.value <= 1.0
  {
    var n := |actual| as real;
    Scores(SumSqErr(actual, predicted) / n, SumAbsErr(actual, predicted) / n, R2(actual, predicted))
  }

  /** The residual sums vanish exactly when the prediction is the ground truth. */
  lemma {:induction false} ResidualsZeroIff(actual: seq<real>, predicted: seq<real>)
    requires |actual| == |predicted|
    ensures SumSqErr(actual, predicted) == 0.0 <==> actual == predicted
    ensures SumAbsErr(actual, predicted) == 0.0 <==> actual == predicted
  {
    if actual != [] {
      ResidualsZeroIff(actual[1..], predicted[1..]);
      var d := actual[0] - predicted[0];
      if d != 0.0 {
        SquarePositive(d);
      }
      assert actual == [actual[0]] + actual[1..];
      assert predicted == [predicted[0]] + predicted[1..];
      if actual == predicted {
        assert d == 0.0 && actual[1..] == predicted[1..];
      } else if d == 0.0 {
        assert actual[1..] != predicted[1..];
      } else {
        assert Square(d) > 0.0;
      }
    }
  }

  /** A perfect prediction scores MAE 0, MSE 0 and, from two samples on, R² 1. */
  lemma PerfectPrediction(y: seq<real>)
    requires |y| > 0
    ensures Score(y, y).mae == 0.0 && Score(y, y).mse == 0.0
    ensures |y| >= 2 ==> Score(y, y).r2 == Some(1.0)
  {
    ResidualsZeroIff(y, y);
  }

  /** MSE and MAE are zero only for a perfect prediction. */
  lemma ZeroErrorMeansPerfect(actual: seq<real>, predicted: seq<real>)
    requires |actual| == |predicted| > 0
    ensures Score(actual, predicted).mse == 0.0 <==> actual == predicted
    ensures Score(actual, predicted).mae == 0.0 <==> actual == predicted
  {
    ResidualsZeroIff(actual, predicted);
    var n := |actual| as real;
    assert SumSqErr(actual, predicted) / n == 0.0 <==> SumSqErr(actual, predicted) == 0.0;
    assert SumAbsErr(actual, predicted) / n == 0.0 <==> SumAbsErr(actual, predicted) == 0.0;
  }
}
