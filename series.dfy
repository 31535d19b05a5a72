/** Series preparation: missing-value removal, the chronological split
    arithmetic and the sliding feature windows (utils/predictive_models.py). */
module Series {
  import opened Wrappers

  /** A timestamp of the series index, as a count of some fixed unit. */
  type Date = int

  /** One row of a raw pandas Series: a timestamp and a value that may be NaN (None). */
  datatype Obs = Obs(date: Date, value: Option<real>)

  /** One row of a series after `dropna()`. */
  datatype Point = Point(date: Date, value: real)

  /** `serie.dropna()`: keeps, in order, the rows whose value is present. */
  function DropNa(s: seq<Obs>): (r: seq<Point>)
    ensures |r| <= |s|
  {
    if s == [] then []
    else
      var rest := DropNa(s[1..]);
      match s[0].value
      case None => rest
      case Some(v) => [Point(s[0].date, v)] + rest
  }

  /** `serie.index` */
  function Index(s: seq<Point>): (r: seq<Date>)
    ensures |r| == |s| && forall i :: 0 <= i < |s| ==> r[i] == s[i].date
  {
    seq(|s|, i requires 0 <= i < |s| => s[i].date)
  }

  /** `serie.values` */
  function Values(s: seq<Point>): (r: seq<real>)
    ensures |r| == |s| && forall i :: 0 <= i < |s| ==> r[i] == s[i].value
  {
    seq(|s|, i requires 0 <= i < |s| => s[i].value)
  }

  ghost predicate StrictlyIncreasing(d: seq<Date>)
  {
    forall i, j :: 0 <= i < j < |d| ==> d[i] < d[j]
  }

  ghost predicate ObsIncreasing(s: seq<Obs>)
  {
    forall i, j :: 0 <= i < j < |s| ==> s[i].date < s[j].date
  }

  /** A point is kept by `dropna()` exactly when the input holds a row with that date
      and that value present. */
  lemma {:induction false} DropNaKeepsPresent(s: seq<Obs>, p: Point)
    ensures p in DropNa(s) <==> Obs(p.date, Some(p.value)) in s
  {
    if s != [] {
      DropNaKeepsPresent(s[1..], p);
      assert s == [s[0]] + s[1..];
    }
  }

  /** A row with no missing value is never dropped, and the rows kept stay in order. */
  lemma {:induction false} DropNaKeepsComplete(s: seq<Obs>)
    requires forall i :: 0 <= i < |s| ==> s[i].value.Some?
    ensures |DropNa(s)| == |s|
    ensures forall i :: 0 <= i < |s| ==> DropNa(s)[i] == Point(s[i].date, s[i].value.value)
  {
    if s != [] {
      DropNaKeepsComplete(s[1..]);
    }
  }

  /** Every date kept by `dropna()` is a date of the input at or after its first row. */
  lemma {:induction false} DropNaDatesFrom(s: seq<Obs>, d: Date)
    requires forall i :: 0 <= i < |s| ==> d < s[i].date
    ensures forall i :: 0 <= i < |DropNa(s)| ==> d < DropNa(s)[i].date
  {
    if s != [] {
      DropNaDatesFrom(s[1..], d);
    }
  }

  ghost predicate PointsIncreasing(r: seq<Point>)
  {
    forall i, j :: 0 <= i < j < |r| ==> r[i].date < r[j].date
  }

  /** The tail of an increasing series is increasing. */
  lemma TailIncreasing(s: seq<Obs>)
    requires s != [] && ObsIncreasing(s)
    ensures ObsIncreasing(s[1..])
    ensures forall i :: 0 <= i < |s[1..]| ==> s[0].date < s[1..][i].date
  {
    var tail := s[1..];
    forall i, j | 0 <= i < j < |tail| ensures tail[i].date < tail[j].date {
      assert tail[i] == s[i + 1] && tail[j] == s[j + 1];
    }
    forall i | 0 <= i < |tail| ensures s[0].date < tail[i].date {
      assert tail[i] == s[i + 1];
    }
  }

  /** A point dated before every point of an increasing sequence can lead it. */
  lemma ConsIncreasing(p: Point, rest: seq<Point>)
    requires PointsIncreasing(rest)
    requires forall i :: 0 <= i < |rest| ==> p.date < rest[i].date
    ensures PointsIncreasing([p] + rest)
  {
    var r := [p] + rest;
    forall i, j | 0 <= i < j < |r| ensures r[i].date < r[j].date {
      assert r[j] == rest[j - 1];
      if i > 0 {
        assert r[i] == rest[i - 1];
      }
    }
  }

  lemma {:induction false} DropNaKeepsOrderPoints(s: seq<Obs>)
    requires ObsIncreasing(s)
    ensures PointsIncreasing(DropNa(s))
  {
    if s != [] {
      TailIncreasing(s);
      DropNaKeepsOrderPoints(s[1..]);
      DropNaDatesFrom(s[1..], s[0].date);
      if s[0].value.Some? {
        ConsIncreasing(Point(s[0].date, s[0].value.value), DropNa(s[1..]));
      }
    }
  }

  /** `dropna()` keeps a strictly increasing index strictly increasing. */
  lemma DropNaKeepsOrder(s: seq<Obs>)
    requires ObsIncreasing(s)
    ensures StrictlyIncreasing(Index(DropNa(s)))
  {
    DropNaKeepsOrderPoints(s);
  }

  // ---------------------------------------------------------------------
  // Python's int() and slice bounds

  /** Python `int(x)` on a float: truncation toward zero. */
  function TruncToInt(x: real): (r: int)
    ensures x >= 0.0 ==> r as real <= x < r as real + 1.0
    ensures x < 0.0 ==> r as real - 1.0 < x <= r as real
  {
    if x >= 0.0 then x.Floor else -((-x).Floor)
  }

  /** `split_idx = int(len * (1 - test_size))` (lines 44 and 135). */
  function SplitIndex(n: nat, testSize: real): int
  {
    TruncToInt(n as real * (1.0 - testSize))
  }

  /** The position a Python slice bound `k` denotes in a sequence of length `n`:
      a negative bound counts from the end, and bounds are clamped to `[0, n]`. */
  function SliceBound(k: int, n: nat): (r: nat)
    ensures r <= n
    ensures 0 <= k <= n ==> r == k
    ensures k > n ==> r == n
    ensures k < 0 ==> r == if n + k < 0 then 0 else n + k
  {
    if k < 0 then (if n + k < 0 then 0 else n + k)
    else if k > n then n
    else k
  }

  /** `x[:split_idx]` */
  function TrainPart<T>(s: seq<T>, testSize: real): seq<T>
  {
    s[..SliceBound(SplitIndex(|s|, testSize), |s|)]
  }

  /** `x[split_idx:]` */
  function TestPart<T>(s: seq<T>, testSize: real): seq<T>
  {
    s[SliceBound(SplitIndex(|s|, testSize), |s|)..]
  }

  /** Whatever `test_size` is, the two halves of the split put back together give the input. */
  lemma SplitPartition<T>(s: seq<T>, testSize: real)
    ensures TrainPart(s, testSize) + TestPart(s, testSize) == s
    ensures |TrainPart(s, testSize)| + |TestPart(s, testSize)| == |s|
  {
    var k := SliceBound(SplitIndex(|s|, testSize), |s|);
    assert s[..k] + s[k..] == s;
  }

  /** Element `k` of the train part is element `k` of the input; element `k` of the
      test part is the element right after the train part's `k` elements. */
  lemma SplitIndexing<T>(s: seq<T>, testSize: real)
    ensures forall k :: 0 <= k < |TrainPart(s, testSize)| ==> TrainPart(s, testSize)[k] == s[k]
    ensures forall k :: 0 <= k < |TestPart(s, testSize)| ==>
      TestPart(s, testSize)[k] == s[|TrainPart(s, testSize)| + k]
  {
  }

  /** For a test fraction in `[0, 1]` the split index needs no clamping:
      `0 <= split_idx <= n`, the train part is the prefix `[0, split_idx)` and the test
      part the suffix `[split_idx, n)`. */
  lemma SplitIndexInRange<T>(s: seq<T>, testSize: real)
    requires 0.0 <= testSize <= 1.0
    ensures 0 <= SplitIndex(|s|, testSize) <= |s|
    ensures TrainPart(s, testSize) == s[..SplitIndex(|s|, testSize)]
    ensures TestPart(s, testSize) == s[SplitIndex(|s|, testSize)..]
  {
    SplitIndexBounds(|s|, testSize);
  }

  /** `0 <= int(n * (1 - test_size)) <= n` for a test fraction in `[0, 1]`. */
  lemma SplitIndexBounds(n: nat, testSize: real)
    requires 0.0 <= testSize <= 1.0
    ensures 0 <= SplitIndex(n, testSize) <= n
  {
    var x := n as real * (1.0 - testSize);
    ScaleBetween(n as real, 1.0 - testSize);
    assert 0.0 <= x <= n as real;
  }

  /** Scaling a non-negative number by a fraction in `[0, 1]` stays between 0 and it. */
  lemma ScaleBetween(n: real, f: real)
    requires 0.0 <= n && 0.0 <= f <= 1.0
    ensures 0.0 <= n * f <= n
  {
    calc {
      n - n * f;
      == n * (1.0 - f);
      >= 0.0 * (1.0 - f);
      == 0.0;
    }
  }

  /** A negative `test_size` leaves no test part; one above 1 shrinks the training
      part by Python's negative slicing rather than emptying it. */
  lemma SplitOutOfRange<T>(s: seq<T>, testSize: real)
    ensures testSize < 0.0 ==> TestPart(s, testSize) == [] && TrainPart(s, testSize) == s
    ensures testSize > 1.0 && |s| > 0 ==> SplitIndex(|s|, testSize) <= 0
  {
    var n := |s| as real;
    if testSize < 0.0 {
      calc {
        n * (1.0 - testSize) - n;
        == n * (-testSize);
        >= 0.0 * (-testSize);
        == 0.0;
      }
      assert SplitIndex(|s|, testSize) >= |s|;
    }
    if testSize > 1.0 {
      calc {
        n * (1.0 - testSize);
        == -(n * (testSize - 1.0));
        <= -(0.0 * (testSize - 1.0));
        == 0.0;
      }
    }
  }

  // ---------------------------------------------------------------------
  // Sliding windows (lines 35-41)

  /** `len(range(lookback, n))` */
  function WindowCount(n: nat, lookback: nat): nat
  {
    if lookback < n then n - lookback else 0
  }

  /** The feature rows `serie[i-lookback:i]` for `i` in `range(lookback, n)`. */
  function FeatureWindows(v: seq<real>, lookback: nat): (w: seq<seq<real>>)
  {
    seq(WindowCount(|v|, lookback), k requires 0 <= k < WindowCount(|v|, lookback) => v[k..k + lookback])
  }

  /** The labels `serie[i]` for `i` in `range(lookback, n)`. */
  function Labels(v: seq<real>, lookback: nat): seq<real>
  {
    seq(WindowCount(|v|, lookback), k requires 0 <= k < WindowCount(|v|, lookback) => v[k + lookback])
  }

  /** There are `n - lookback` windows (none when `lookback >= n`); window `k` holds
      `lookback` features taken from `serie[k .. k+lookback)`. */
  lemma WindowsShape(v: seq<real>, lookback: nat)
    ensures |FeatureWindows(v, lookback)| == |Labels(v, lookback)|
    ensures lookback < |v| ==> |FeatureWindows(v, lookback)| == |v| - lookback
    ensures lookback >= |v| ==> FeatureWindows(v, lookback) == []
    ensures forall k :: 0 <= k < |FeatureWindows(v, lookback)| ==>
      |FeatureWindows(v, lookback)[k]| == lookback && FeatureWindows(v, lookback)[k] == v[k..k + lookback]
  {
  }

  /** The labels, in order, are exactly the series from position `lookback` on. */
  lemma LabelsAreSuffix(v: seq<real>, lookback: nat)
    ensures Labels(v, lookback) == if lookback < |v| then v[lookback..] else []
  {
    if lookback < |v| {
      assert forall k :: 0 <= k < |v| - lookback ==> Labels(v, lookback)[k] == v[lookback..][k];
    }
  }

  /** Adjacent windows line up: the label of window `k` is the last feature of window `k+1`. */
  lemma AdjacentWindowsLineUp(v: seq<real>, lookback: nat, k: nat)
    requires 1 <= lookback
    requires k + 1 < WindowCount(|v|, lookback)
    ensures FeatureWindows(v, lookback)[k + 1][lookback - 1] == Labels(v, lookback)[k]
  {
  }
}
