/** The seasonal adapter's normalisation: scikit-learn's `MinMaxScaler` with its
    default feature range (0, 1), followed by a factor of 10 (line 131), and the
    inverse applied to its predictions (lines 155-160). */
module Scaling {

  /** Smallest value of a non-empty sequence. */
  function Min(s: seq<real>): (r: real)
    requires |s| > 0
    ensures r in s && forall i :: 0 <= i < |s| ==> r <= s[i]
  {
    if |s| == 1 then s[0]
    else
      var m := Min(s[1..]);
      if s[0] <= m then s[0] else m
  }

  /** Largest value of a non-empty sequence. */
  function Max(s: seq<real>): (r: real)
    requires |s| > 0
    ensures r in s && forall i :: 0 <= i < |s| ==> s[i] <= r
  {
    if |s| == 1 then s[0]
    else
      var m := Max(s[1..]);
      if s[0] >= m then s[0] else m
  }

  /** The state of a fitted `MinMaxScaler`: the minimum and maximum it saw. */
  datatype MinMaxScaler = MinMaxScaler(dataMin: real, dataMax: real)

  /** `fit`: records the extremes of a non-empty column (scikit-learn refuses an empty one). */
  function Fit(values: seq<real>): (sc: MinMaxScaler)
    requires |values| > 0
    ensures sc.dataMin in values && sc.dataMax in values
    ensures forall i :: 0 <= i < |values| ==> sc.dataMin <= values[i] <= sc.dataMax
  {
    MinMaxScaler(Min(values), Max(values))
  }

  /** The divisor: the data range, replaced by 1 when it is zero (a constant column),
      as scikit-learn's `_handle_zeros_in_scale` does. */
  function Span(sc: MinMaxScaler): (r: real)
    ensures r != 0.0
    ensures sc.dataMin <= sc.dataMax ==> r > 0.0
  {
    if sc.dataMax - sc.dataMin == 0.0 then 1.0 else sc.dataMax - sc.dataMin
  }

  /** `transform` for the feature range (0, 1). scikit-learn computes it as
      `x * scale_ + min_` with `scale_ = 1 / span` and `min_ = -dataMin * scale_`,
      which is the same value over exact reals. */
  function Transform(sc: MinMaxScaler, x: real): real
  {
    (x - sc.dataMin) / Span(sc)
  }

  /** `inverse_transform` for the feature range (0, 1). */
  function InverseTransform(sc: MinMaxScaler, y: real): real
  {
    y * Span(sc) + sc.dataMin
  }

  /** `scaler.transform(x) * 10` (line 131). */
  function Normalize(sc: MinMaxScaler, x: real): real
  {
    Transform(sc, x) * 10.0
  }

  /** `scaler.inverse_transform(y / 10)` (lines 155-160). */
  function Denormalize(sc: MinMaxScaler, y: real): real
  {
    InverseTransform(sc, y / 10.0)
  }

  function NormalizeAll(sc: MinMaxScaler, s: seq<real>): (r: seq<real>)
    ensures |r| == |s|
  {
    seq(|s|, i requires 0 <= i < |s| => Normalize(sc, s[i]))
  }

  function DenormalizeAll(sc: MinMaxScaler, s: seq<real>): (r: seq<real>)
    ensures |r| == |s|
  {
    seq(|s|, i requires 0 <= i < |s| => Denormalize(sc, s[i]))
  }

  /** Unscaling undoes scaling and scaling undoes unscaling, for every scaler state
      (the zero-range guard keeps the divisor non-zero). */
  lemma RoundTrip(sc: MinMaxScaler, x: real, y: real)
    ensures Denormalize(sc, Normalize(sc, x)) == x
    ensures Normalize(sc, Denormalize(sc, y)) == y
  {
    UnscaleScaled(sc, x);
    ScaleUnscaled(sc, y);
  }

  /** `inverse_transform` undoes `transform` and the other way round, for every
      scaler state. */
  lemma TransformRoundTrip(sc: MinMaxScaler, x: real, y: real)
    ensures InverseTransform(sc, Transform(sc, x)) == x
    ensures Transform(sc, InverseTransform(sc, y)) == y
  {
    var d := Span(sc);
    DivMulCancel(x - sc.dataMin, d);
    var z := InverseTransform(sc, y);
    assert z - sc.dataMin == y * d;
    MulDivCancel(y, d);
  }

  lemma UnscaleScaled(sc: MinMaxScaler, x: real)
    ensures Denormalize(sc, Normalize(sc, x)) == x
  {
    var d := Span(sc);
    var t := (x - sc.dataMin) / d;
    var n := Normalize(sc, x);
    assert n == t * 10.0;
    DivMulCancel(t, 10.0);
    assert n / 10.0 == t;
    DivMulCancel(x - sc.dataMin, d);
    assert t * d == x - sc.dataMin;
  }

  lemma ScaleUnscaled(sc: MinMaxScaler, y: real)
    ensures Normalize(sc, Denormalize(sc, y)) == y
  {
    var d := Span(sc);
    var u := y / 10.0;
    var p := u * d;
    var z := Denormalize(sc, y);
    assert z == p + sc.dataMin;
    assert z - sc.dataMin == p;
    MulDivCancel(u, d);
    assert p / d == u;
    DivMulCancel(y, 10.0);
    assert u * 10.0 == y;
  }

  lemma DivMulCancel(a: real, d: real)
    requires d != 0.0
    ensures (a / d) * d == a && a * d / d == a
  {
  }

  lemma MulDivCancel(a: real, d: real)
    requires d != 0.0
    ensures (a * d) / d == a
  {
  }

  /** The round trip, applied to a whole series. */
  lemma RoundTripAll(sc: MinMaxScaler, s: seq<real>)
    ensures DenormalizeAll(sc, NormalizeAll(sc, s)) == s
    ensures NormalizeAll(sc, DenormalizeAll(sc, s)) == s
  {
    forall i | 0 <= i < |s|
      ensures DenormalizeAll(sc, NormalizeAll(sc, s))[i] == s[i]
      ensures NormalizeAll(sc, DenormalizeAll(sc, s))[i] == s[i]
    {
      RoundTrip(sc, s[i], s[i]);
    }
  }

  lemma DivAtMostOne(a: real, d: real)
    requires 0.0 <= a <= d && d > 0.0
    ensures 0.0 <= a / d <= 1.0
  {
    if a / d > 1.0 {
      calc {
        a;
        == (a / d) * d;
        > 1.0 * d;
        == d;
      }
    }
  }

  /** Scaling with a fitted scaler preserves order. */
  lemma NormalizeMonotone(sc: MinMaxScaler, x: real, y: real)
    requires sc.dataMin <= sc.dataMax
    requires x <= y
    ensures Normalize(sc, x) <= Normalize(sc, y)
  {
    var d := Span(sc);
    assert (x - sc.dataMin) / d <= (y - sc.dataMin) / d;
  }

  /** A value within the fitted extremes is scaled into [0, 10]. */
  lemma NormalizedBetween(sc: MinMaxScaler, x: real)
    requires sc.dataMin <= x <= sc.dataMax
    ensures 0.0 <= Normalize(sc, x) <= 10.0
  {
    var d := Span(sc);
    if sc.dataMin == sc.dataMax {
      assert x - sc.dataMin == 0.0;
    } else {
      DivAtMostOne(x - sc.dataMin, d);
    }
  }

  lemma DivSelf(d: real)
    requires d != 0.0
    ensures d / d == 1.0
  {
    calc {
      d / d;
      == (1.0 * d) / d;
      == 1.0;
    }
  }

  /** The series the seasonal model is fitted on lies in [0, 10]: its minimum maps to 0
      and, when the series is not constant, its maximum maps to 10. */
  lemma NormalizedRange(values: seq<real>)
    requires |values| > 0
    ensures var sc := Fit(values);
      && (forall i :: 0 <= i < |values| ==> 0.0 <= Normalize(sc, values[i]) <= 10.0)
      && Normalize(sc, sc.dataMin) == 0.0
      && (sc.dataMin < sc.dataMax ==> Normalize(sc, sc.dataMax) == 10.0)
  {
    var sc := Fit(values);
    forall i | 0 <= i < |values| ensures 0.0 <= Normalize(sc, values[i]) <= 10.0 {
      NormalizedBetween(sc, values[i]);
    }
    if sc.dataMin < sc.dataMax {
      DivSelf(sc.dataMax - sc.dataMin);
    }
  }
}
