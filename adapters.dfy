/** The three model adapters of utils/predictive_models.py as functions of their
    inputs: the estimators themselves (scikit-learn's `LinearRegression` and
    `RandomForestRegressor`, statsmodels' `SARIMAX`) are a `Library` value supplied
    by the caller, so that only the bookkeeping around them is modelled: windows,
    splits, scaling, the shape of the prediction bundle and the failure paths. */
module Adapters {
  import opened Wrappers
  import opened Series
  import opened Metrics
  import opened Scaling

  /** The exceptions the adapters can end in. `ValueError` is scikit-learn refusing a
      zero-sample array; `FitError` is an estimator's own failure; `TypeError` is
      subscripting `None`. */
  datatype Error = ValueError | FitError | TypeError

  /** The regressor an adapter builds, with the hyperparameters of lines 55 and 93. */
  datatype RegressorSpec = LinearRegression | RandomForest(nEstimators: nat, randomState: int, maxDepth: nat)

  const LinearModel: RegressorSpec := LinearRegression
  const ForestModel: RegressorSpec := RandomForest(100, 42, 10)

  /** The seasonal model's configuration (lines 141-148). */
  datatype SarimaSpec = SarimaSpec(
    order: (nat, nat, nat),
    seasonalOrder: (nat, nat, nat, nat),
    enforceStationarity: bool,
    enforceInvertibility: bool,
    maxIter: nat)

  const SeasonalModel: SarimaSpec := SarimaSpec((1, 1, 1), (1, 1, 1, 12), false, false, 200)

  /** A fitted regressor: the value it predicts for one feature row. */
  type Predictor = seq<real> -> real

  /** A fitted seasonal model: its in-sample fitted value at each training position
      and its forecast `h` steps past the end of the training data. */
  datatype SarimaFit = SarimaFit(fitted: nat -> real, forecast: nat -> real)

  /** The estimators, as deterministic functions (the forest's seed is fixed).
      `None` means that fitting raised. */
  datatype Library = Library(
    fitRegressor: (RegressorSpec, seq<seq<real>>, seq<real>) -> Option<Predictor>,
    fitSarima: (SarimaSpec, seq<real>) -> Option<SarimaFit>)

  /** The `'predictions'` dictionary every adapter returns. */
  datatype Bundle = Bundle(
    train: seq<real>,
    test: seq<real>,
    yTrain: seq<real>,
    yTest: seq<real>,
    dates: seq<Date>)

  /** The `'metrics'` dictionary: scores on the training and on the test partition. */
  datatype Evaluation = Evaluation(train: Scores, test: Scores)

  /** An adapter's result without the fitted estimator object. */
  datatype TrainResult = TrainResult(predictions: Bundle, metrics: Evaluation)

  /** The result of `prepare_data`. */
  datatype Prepared = Prepared(
    xTrain: seq<seq<real>>,
    xTest: seq<seq<real>>,
    yTrain: seq<real>,
    yTest: seq<real>,
    dates: seq<Date>)

  /** One prediction per ground-truth value, and one date per ground-truth value. */
  ghost predicate WellShaped(b: Bundle)
  {
    && |b.train| == |b.yTrain|
    && |b.test| == |b.yTest|
    && |b.dates| == |b.yTrain| + |b.yTest|
  }

  /** `model.predict(rows)` */
  function PredictRows(f: Predictor, rows: seq<seq<real>>): (r: seq<real>)
    ensures |r| == |rows| && forall i :: 0 <= i < |rows| ==> r[i] == f(rows[i])
  {
    seq(|rows|, i requires 0 <= i < |rows| => f(rows[i]))
  }

  /** The metrics dictionary of a bundle whose partitions are both non-empty. */
  function Evaluate(b: Bundle): (e: Evaluation)
    requires WellShaped(b) && |b.yTrain| > 0 && |b.yTest| > 0
  {
    Evaluation(Score(b.yTrain, b.train), Score(b.yTest, b.test))
  }

  // ---------------------------------------------------------------------
  // prepare_data (lines 24-48)

  /** `serie.index[lookback:]`, with Python's clamping of the slice start. */
  function AlignedDates(d: seq<Date>, lookback: nat): seq<Date>
  {
    d[if lookback < |d| then lookback else |d|..]
  }

  /** The windowing and splitting of `prepare_data`, on the values `v` and the index
      `d` of the series once missing values are dropped. */
  function Windowed(v: seq<real>, d: seq<Date>, lookback: nat, testSize: real): Prepared
  {
    var x := FeatureWindows(v, lookback);
    var y := Labels(v, lookback);
    Prepared(TrainPart(x, testSize), TestPart(x, testSize), TrainPart(y, testSize), TestPart(y, testSize),
             AlignedDates(d, lookback))
  }

  /** What `prepare_data` returns. */
  function Prepare(serie: seq<Obs>, lookback: nat, testSize: real): Prepared
  {
    var points := DropNa(serie);
    Windowed(Values(points), Index(points), lookback, testSize)
  }

  /** The prepared data line up: one label per feature row in each partition, the
      labels in order are the series from `lookback` on, and the dates are the index
      from `lookback` on, one per label. */
  lemma PrepareShape(serie: seq<Obs>, lookback: nat, testSize: real)
    ensures var p := Prepare(serie, lookback, testSize);
      var v := Values(DropNa(serie));
      && |p.xTrain| == |p.yTrain| && |p.xTest| == |p.yTest|
      && p.yTrain + p.yTest == (if lookback < |v| then v[lookback..] else [])
      && |p.dates| == |p.yTrain| + |p.yTest|
      && p.dates == (if lookback < |v| then Index(DropNa(serie))[lookback..] else [])
  {
    var points := DropNa(serie);
    WindowedShape(Values(points), Index(points), lookback, testSize);
  }

  /** The features of training row `k` are `serie[k .. k+lookback)` and those of test
      row `k` the same window shifted by the size of the training part. */
  lemma PrepareWindows(serie: seq<Obs>, lookback: nat, testSize: real)
    ensures var p := Prepare(serie, lookback, testSize);
      var v := Values(DropNa(serie));
      && (forall k :: 0 <= k < |p.xTrain| ==> p.xTrain[k] == v[k..k + lookback])
      && (forall k :: 0 <= k < |p.xTest| ==> p.xTest[k] == v[|p.xTrain| + k..|p.xTrain| + k + lookback])
  {
    PrepareFeatures(Values(DropNa(serie)), lookback, testSize);
  }

  /** `PrepareShape` for any values `v` with one date each. */
  lemma WindowedShape(v: seq<real>, d: seq<Date>, lookback: nat, testSize: real)
    requires |d| == |v|
    ensures var p := Windowed(v, d, lookback, testSize);
      && |p.xTrain| == |p.yTrain| && |p.xTest| == |p.yTest|
      && p.yTrain + p.yTest == (if lookback < |v| then v[lookback..] else [])
      && |p.dates| == |p.yTrain| + |p.yTest|
      && p.dates == (if lookback < |d| then d[lookback..] else [])
  {
    var p := Windowed(v, d, lookback, testSize);
    PrepareLabels(v, lookback, testSize);
    if lookback < |d| {
      assert p.dates == d[lookback..];
    } else {
      assert p.dates == [];
    }
  }

  /** The labels of `Windowed`, and the sizes of both partitions. */
  lemma PrepareLabels(v: seq<real>, lookback: nat, testSize: real)
    ensures var x := FeatureWindows(v, lookback);
      var y := Labels(v, lookback);
      && |TrainPart(x, testSize)| == |TrainPart(y, testSize)|
      && |TestPart(x, testSize)| == |TestPart(y, testSize)|
      && TrainPart(y, testSize) + TestPart(y, testSize) == (if lookback < |v| then v[lookback..] else [])
      && |TrainPart(y, testSize)| + |TestPart(y, testSize)| == WindowCount(|v|, lookback)
  {
    var y := Labels(v, lookback);
    LabelsAreSuffix(v, lookback);
    SplitPartition(y, testSize);
  }

  /** The feature rows of `Windowed`. */
  lemma PrepareFeatures(v: seq<real>, lookback: nat, testSize: real)
    ensures var x := FeatureWindows(v, lookback);
      var train := TrainPart(x, testSize);
      var test := TestPart(x, testSize);
      && (forall k :: 0 <= k < |train| ==> train[k] == v[k..k + lookback])
      && (forall k :: 0 <= k < |test| ==> test[k] == v[|train| + k..|train| + k + lookback])
  {
    var x := FeatureWindows(v, lookback);
    SplitIndexing(x, testSize);
  }

  /** For a test fraction in [0, 1] the training part holds exactly the first
      `int(len(X) * (1 - test_size))` windows. */
  lemma PrepareSplitIndex(serie: seq<Obs>, lookback: nat, testSize: real)
    requires 0.0 <= testSize <= 1.0
    ensures var p := Prepare(serie, lookback, testSize);
      |p.xTrain| == |p.yTrain| == SplitIndex(WindowCount(|DropNa(serie)|, lookback), testSize)
  {
    var v := Values(DropNa(serie));
    WindowsShape(v, lookback);
    SplitIndexInRange(FeatureWindows(v, lookback), testSize);
  }

  /** No look-ahead: on a strictly increasing index, the date of every training label
      is earlier than the date of every test label. */
  lemma PrepareTrainBeforeTest(serie: seq<Obs>, lookback: nat, testSize: real, i: nat, j: nat)
    requires ObsIncreasing(serie)
    requires i < |Prepare(serie, lookback, testSize).yTrain|
    requires j < |Prepare(serie, lookback, testSize).yTest|
    ensures var p := Prepare(serie, lookback, testSize);
      p.dates[i] < p.dates[|p.yTrain| + j]
  {
    PrepareShape(serie, lookback, testSize);
    DropNaKeepsOrder(serie);
    var p := Prepare(serie, lookback, testSize);
    var d := Index(DropNa(serie));
    assert p.dates[i] == d[lookback + i];
    assert p.dates[|p.yTrain| + j] == d[lookback + |p.yTrain| + j];
  }

  // ---------------------------------------------------------------------
  // train_linear_regression / train_random_forest (lines 50-124)

  /** What the two windowed adapters return for prepared data: scikit-learn's input
      validation raises `ValueError` on a partition with no rows and on rows with no
      features (`lookback == 0`), the estimator may raise while fitting, and otherwise
      the bundle holds the fitted model's predictions on both partitions. */
  function WindowedOutcome(p: Prepared, spec: RegressorSpec, lib: Library): Result<TrainResult, Error>
    requires |p.xTrain| == |p.yTrain| && |p.xTest| == |p.yTest|
    requires |p.dates| == |p.yTrain| + |p.yTest|
  {
    if |p.xTrain| == 0 || |p.xTrain[0]| == 0 then Failure(ValueError)
    else match lib.fitRegressor(spec, p.xTrain, p.yTrain)
      case None => Failure(FitError)
      case Some(f) =>
        if |p.xTest| == 0 then Failure(ValueError)
        else
          var b := Bundle(PredictRows(f, p.xTrain), PredictRows(f, p.xTest), p.yTrain, p.yTest, p.dates);
          Success(TrainResult(b, Evaluate(b)))
  }

  /** A windowed adapter run on a raw series. */
  function RegressorOutcome(serie: seq<Obs>, lookback: nat, testSize: real, spec: RegressorSpec, lib: Library)
    : Result<TrainResult, Error>
  {
    PrepareShape(serie, lookback, testSize);
    WindowedOutcome(Prepare(serie, lookback, testSize), spec, lib)
  }

  /** A windowed adapter fails exactly when a partition is empty, the windows are
      empty (`lookback == 0`) or fitting raises;
      when it succeeds, its bundle is well shaped, its ground truth is the series from
      `lookback` on, its predictions are the fitted model's on each window, and its
      metrics score those predictions. */
  lemma RegressorOutcomeShape(serie: seq<Obs>, lookback: nat, testSize: real, spec: RegressorSpec, lib: Library)
    ensures var p := Prepare(serie, lookback, testSize);
      var r := RegressorOutcome(serie, lookback, testSize, spec, lib);
      && (r.Failure? <==>
            || |p.xTrain| == 0 || lookback == 0 || |p.xTest| == 0
            || lib.fitRegressor(spec, p.xTrain, p.yTrain).None?)
      && (r.Success? ==>
            var b := r.value.predictions;
            var v := Values(DropNa(serie));
            && WellShaped(b)
            && |b.yTrain| > 0 && |b.yTest| > 0
            && lookback < |v|
            && b.yTrain + b.yTest == v[lookback..]
            && b.dates == Index(DropNa(serie))[lookback..]
            && b.train == PredictRows(lib.fitRegressor(spec, p.xTrain, p.yTrain).value, p.xTrain)
            && b.test == PredictRows(lib.fitRegressor(spec, p.xTrain, p.yTrain).value, p.xTest)
            && r.value.metrics == Evaluate(b))
  {
    PrepareShape(serie, lookback, testSize);
    PrepareWindows(serie, lookback, testSize);
  }

  /** A windowed adapter succeeds only on a series with more than `lookback` values,
      and its bundle is then well shaped: a corollary of `RegressorOutcomeShape`,
      proved on its own so that callers need not carry that lemma's whole statement. */
  lemma RegressorSuccessShaped(serie: seq<Obs>, lookback: nat, testSize: real, spec: RegressorSpec, lib: Library)
    requires RegressorOutcome(serie, lookback, testSize, spec, lib).Success?
    ensures lookback < |DropNa(serie)|
    ensures WellShaped(RegressorOutcome(serie, lookback, testSize, spec, lib).value.predictions)
  {
    var v := Values(DropNa(serie));
    var x := FeatureWindows(v, lookback);
    WindowsShape(v, lookback);
    SplitPartition(x, testSize);
    PrepareShape(serie, lookback, testSize);
  }

  // ---------------------------------------------------------------------
  // train_sarima (lines 126-193)

  /** The first `n` values of a fitted model's in-sample or forecast sequence. */
  function Steps(f: nat -> real, n: nat): (r: seq<real>)
    ensures |r| == n && forall i :: 0 <= i < n ==> r[i] == f(i)
  {
    seq(n, i requires 0 <= i < n => f(i))
  }

  /** What `train_sarima` returns once the scaler has been fitted to the non-empty
      series `values`: `None` when the fit raises or when a partition is empty
      (`inverse_transform` and the metric functions refuse zero samples, and the
      `except` clause catches it). */
  function SeasonalOutcome(points: seq<Point>, testSize: real, lib: Library): Option<TrainResult>
    requires |points| > 0
  {
    var values := Values(points);
    var sc := Fit(values);
    var normalized := NormalizeAll(sc, values);
    var train := TrainPart(normalized, testSize);
    var test := TestPart(normalized, testSize);
    SplitPartition(normalized, testSize);
    SplitPartition(values, testSize);
    match lib.fitSarima(SeasonalModel, train)
    case None => None
    case Some(fit) =>
      if |train| == 0 || |test| == 0 then None
      else
        var b := Bundle(DenormalizeAll(sc, Steps(fit.fitted, |train|)), DenormalizeAll(sc, Steps(fit.forecast, |test|)),
                        TrainPart(values, testSize), TestPart(values, testSize), Index(points));
        Some(TrainResult(b, Evaluate(b)))
  }

  /** `train_sarima` on a raw series: an empty series makes the scaler's fit raise,
      which happens before the `try` block and so propagates. */
  function SarimaOutcome(serie: seq<Obs>, testSize: real, lib: Library): Result<Option<TrainResult>, Error>
  {
    var points := DropNa(serie);
    if |points| == 0 then Failure(ValueError) else Success(SeasonalOutcome(points, testSize, lib))
  }

  /** The seasonal adapter raises only on an empty series and yields `None` exactly
      when fitting fails or a partition is empty. Its ground truth is the whole series
      split at `int(n * (1 - test_size))`, its dates are the whole index, and its
      predictions are the fitted model's in-sample values and its forecast of as many
      steps as the test part holds, both scaled back to the original units. */
  lemma SarimaOutcomeShape(serie: seq<Obs>, testSize: real, lib: Library)
    ensures var points := DropNa(serie);
      var values := Values(points);
      var r := SarimaOutcome(serie, testSize, lib);
      && (r.Failure? <==> |points| == 0)
      && (r.Success? ==>
            var normalized := NormalizeAll(Fit(values), values);
            (r.value.None? <==>
               || lib.fitSarima(SeasonalModel, TrainPart(normalized, testSize)).None?
               || |TrainPart(values, testSize)| == 0
               || |TestPart(values, testSize)| == 0))
      && (r.Success? && r.value.Some? ==>
            var b := r.value.value.predictions;
            && WellShaped(b)
            && b.yTrain + b.yTest == values
            && b.dates == Index(points)
            && |b.test| == |TestPart(values, testSize)|
            && b.yTrain == TrainPart(values, testSize)
            && r.value.value.metrics == Evaluate(b)
            && (var sc := Fit(values);
                var fit := lib.fitSarima(SeasonalModel, TrainPart(NormalizeAll(sc, values), testSize)).value;
                && b.train == DenormalizeAll(sc, Steps(fit.fitted, |TrainPart(values, testSize)|))
                && b.test == DenormalizeAll(sc, Steps(fit.forecast, |TestPart(values, testSize)|))))
  {
    var points := DropNa(serie);
    if |points| > 0 {
      var values := Values(points);
      var normalized := NormalizeAll(Fit(values), values);
      SplitPartition(normalized, testSize);
      SplitPartition(values, testSize);
      if SeasonalOutcome(points, testSize, lib).Some? {
        SeasonalBundle(points, testSize, lib);
      }
    }
  }

  /** Every bundle the seasonal adapter returns is well shaped: a corollary of
      `SarimaOutcomeShape`, proved on its own so that callers need not carry that
      lemma's whole statement. */
  lemma SarimaSuccessShaped(serie: seq<Obs>, testSize: real, lib: Library)
    ensures var r := SarimaOutcome(serie, testSize, lib);
      r.Success? && r.value.Some? ==> WellShaped(r.value.value.predictions)
  {
    var points := DropNa(serie);
    if |points| > 0 {
      var values := Values(points);
      SplitPartition(NormalizeAll(Fit(values), values), testSize);
      SplitPartition(values, testSize);
    }
  }

  /** The seasonal model fitted on the normalised training part reproduces it exactly
      in sample and forecasts exactly the normalised test part. */
  ghost predicate ReproducesSeries(values: seq<real>, testSize: real, lib: Library)
    requires |values| > 0
  {
    var normalized := NormalizeAll(Fit(values), values);
    var train := TrainPart(normalized, testSize);
    var fit := lib.fitSarima(SeasonalModel, train);
    && fit.Some?
    && Steps(fit.value.fitted, |train|) == train
    && Steps(fit.value.forecast, |normalized| - |train|) == TestPart(normalized, testSize)
  }

  /** A seasonal model that reproduces the normalised series exactly yields predictions
      equal to the ground truth in original units: the scaling is undone exactly. */
  lemma SarimaPerfectFitRecoversSeries(serie: seq<Obs>, testSize: real, lib: Library)
    requires |DropNa(serie)| > 0
    requires ReproducesSeries(Values(DropNa(serie)), testSize, lib)
    ensures var r := SarimaOutcome(serie, testSize, lib);
      r.Success? && (r.value.Some? ==>
        r.value.value.predictions.train == r.value.value.predictions.yTrain
        && r.value.value.predictions.test == r.value.value.predictions.yTest)
  {
    var points := DropNa(serie);
    if SeasonalOutcome(points, testSize, lib).Some? {
      SeasonalPerfectFit(points, testSize, lib);
    }
  }

  /** `SarimaPerfectFitRecoversSeries` once missing values are dropped. */
  lemma SeasonalPerfectFit(points: seq<Point>, testSize: real, lib: Library)
    requires |points| > 0
    requires SeasonalOutcome(points, testSize, lib).Some?
    requires ReproducesSeries(Values(points), testSize, lib)
    ensures var b := SeasonalOutcome(points, testSize, lib).value.predictions;
      b.train == b.yTrain && b.test == b.yTest
  {
    var values := Values(points);
    var sc := Fit(values);
    var normalized := NormalizeAll(sc, values);
    var fit := lib.fitSarima(SeasonalModel, TrainPart(normalized, testSize)).value;
    SeasonalBundle(points, testSize, lib);
    NormalizeSplit(sc, values, testSize);
    DenormalizePart(sc, Steps(fit.fitted, |TrainPart(normalized, testSize)|), TrainPart(values, testSize));
    DenormalizePart(sc, Steps(fit.forecast, |TestPart(normalized, testSize)|), TestPart(values, testSize));
  }

  /** Normalising commutes with the chronological split. */
  lemma NormalizeSplit(sc: MinMaxScaler, values: seq<real>, testSize: real)
    ensures TrainPart(NormalizeAll(sc, values), testSize) == NormalizeAll(sc, TrainPart(values, testSize))
    ensures TestPart(NormalizeAll(sc, values), testSize) == NormalizeAll(sc, TestPart(values, testSize))
    ensures |TestPart(NormalizeAll(sc, values), testSize)| == |NormalizeAll(sc, values)| - |TrainPart(NormalizeAll(sc, values), testSize)|
  {
    SplitIndexing(values, testSize);
    SplitIndexing(NormalizeAll(sc, values), testSize);
    SplitPartition(values, testSize);
    SplitPartition(NormalizeAll(sc, values), testSize);
  }

  /** Unscaling the normalised image of a series gives the series back. */
  lemma DenormalizePart(sc: MinMaxScaler, pred: seq<real>, part: seq<real>)
    requires pred == NormalizeAll(sc, part)
    ensures DenormalizeAll(sc, pred) == part
  {
    RoundTripAll(sc, part);
  }

  /** The bundle of a successful seasonal run, spelled out. */
  lemma SeasonalBundle(points: seq<Point>, testSize: real, lib: Library)
    requires |points| > 0
    requires SeasonalOutcome(points, testSize, lib).Some?
    ensures var values := Values(points);
      var sc := Fit(values);
      var normalized := NormalizeAll(sc, values);
      var train := TrainPart(normalized, testSize);
      var fit := lib.fitSarima(SeasonalModel, train).value;
      && lib.fitSarima(SeasonalModel, train).Some?
      && SeasonalOutcome(points, testSize, lib).value.predictions
         == Bundle(DenormalizeAll(sc, Steps(fit.fitted, |train|)),
                   DenormalizeAll(sc, Steps(fit.forecast, |TestPart(normalized, testSize)|)),
                   TrainPart(values, testSize), TestPart(values, testSize), Index(points))
  {
  }

  // ---------------------------------------------------------------------
  // The comparison table (lines 217-231)

  const LinearName: string := "Linear Regression"
  const ForestName: string := "Random Forest"
  const SarimaName: string := "SARIMA"

  /** The registry entry's keys, in the order the dictionary literal inserts them. */
  const ModelNames: seq<string> := [LinearName, ForestName, SarimaName]

  /** One row of the comparison table. */
  datatype Row = Row(
    model: string,
    maeTrain: real, mseTrain: real, r2Train: Option<real>,
    maeTest: real, mseTest: real, r2Test: Option<real>)

  function RowOf(name: string, r: TrainResult): Row
  {
    var m := r.metrics;
    Row(name, m.train.mae, m.train.mse, m.train.r2, m.test.mae, m.test.mse, m.test.r2)
  }

  /** The rows `compare_models` builds from the entries named in `order`, skipping `None`. */
  function TableRows(entry: map<string, Option<TrainResult>>, order: seq<string>): seq<Row>
    requires forall i :: 0 <= i < |order| ==> order[i] in entry
  {
    if order == [] then []
    else
      var last := order[|order| - 1];
      TableRows(entry, order[..|order| - 1]) + (if entry[last].Some? then [RowOf(last, entry[last].value)] else [])
  }

  /** Each row of the table is the metrics row of a present result, in the order of
      `order`, and every present result has its row. */
  lemma {:induction false} TableRowsPresent(entry: map<string, Option<TrainResult>>, order: seq<string>)
    requires forall i :: 0 <= i < |order| ==> order[i] in entry
    ensures |TableRows(entry, order)| <= |order|
    ensures forall row :: row in TableRows(entry, order) ==>
      row.model in order && entry[row.model].Some? && row == RowOf(row.model, entry[row.model].value)
    ensures forall i :: 0 <= i < |order| && entry[order[i]].Some? ==>
      RowOf(order[i], entry[order[i]].value) in TableRows(entry, order)
  {
    if order != [] {
      var init := order[..|order| - 1];
      TableRowsPresent(entry, init);
      forall i | 0 <= i < |order| && entry[order[i]].Some?
        ensures RowOf(order[i], entry[order[i]].value) in TableRows(entry, order)
      {
        if i < |order| - 1 {
          assert order[i] == init[i];
        }
      }
    }
  }

  /** The registry entry `compare_models` stores. */
  function Entry(lr: TrainResult, rf: TrainResult, sarima: Option<TrainResult>): (e: map<string, Option<TrainResult>>)
    ensures e.Keys == {LinearName, ForestName, SarimaName}
    ensures e[LinearName] == Some(lr) && e[ForestName] == Some(rf) && e[SarimaName] == sarima
    ensures forall i :: 0 <= i < |ModelNames| ==> ModelNames[i] in e
  {
    assert LinearName[0] == 'L' && ForestName[0] == 'R' && SarimaName[0] == 'S';
    map[LinearName := Some(lr), ForestName := Some(rf), SarimaName := sarima]
  }

  /** The comparison table has a row for linear regression, then one for the random
      forest, then one for SARIMA when it did not fail: three rows, or two. */
  lemma ComparisonRows(lr: TrainResult, rf: TrainResult, sarima: Option<TrainResult>)
    ensures TableRows(Entry(lr, rf, sarima), ModelNames)
      == [RowOf(LinearName, lr), RowOf(ForestName, rf)] + (if sarima.Some? then [RowOf(SarimaName, sarima.value)] else [])
    ensures |TableRows(Entry(lr, rf, sarima), ModelNames)| == if sarima.Some? then 3 else 2
  {
    var e := Entry(lr, rf, sarima);
    assert ModelNames[..2][..1] == [LinearName];
    assert ModelNames[..2] == [LinearName, ForestName];
    assert ModelNames[..1][..0] == [];
    assert TableRows(e, [LinearName]) == [RowOf(LinearName, lr)];
  }
}
