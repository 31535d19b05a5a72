# Forecasting bookkeeping of the hydrocarbon dashboard, in Dafny

This project models the forecasting engine of the Guatemalan hydrocarbon
import/consumption dashboard: the `PredictiveModels` class of
`utils/predictive_models.py`. For one named monthly series it

- drops missing values and turns the series into sliding windows of `lookback`
  (12) past values, each labelled with the next value (`prepare_data`);
- splits windows, or the raw series for SARIMA, chronologically at
  `int(n * (1 - test_size))`;
- fits a linear regression, a random forest (100 trees, depth 10, seed 42) and
  a SARIMA(1,1,1)(1,1,1,12) model. SARIMA runs on the series min-max scaled and
  multiplied by 10, and its predictions are scaled back;
- builds one prediction bundle `{train, test, y_train, y_test, dates}` and one
  set of MAE/MSE/R² scores per model;
- stores the three results in a registry `series -> model -> result`. A failed
  SARIMA fit is stored as `None`;
- returns a comparison table and answers `get_predictions` lookups.

Modules:

- `Wrappers` (wrappers.dfy): `Option` and `Result`.
- `Series` (series.dfy): `dropna`, Python's `int()` and slice bounds, the split
  and the sliding windows.
- `Metrics` (metrics.dfy): scikit-learn's `mean_squared_error`,
  `mean_absolute_error` and `r2_score`, over exact reals.
- `Scaling` (scaling.dfy): `MinMaxScaler` and the ×10 normalisation.
- `Adapters` (adapters.dfy): the adapters as functions of their inputs, the
  bundle and result types, and the comparison rows.
- `Models` (predictive_models.dfy): the class, with the `self.models` and
  `self.scaler` fields, the windowing loop, and the methods that change state.

The estimators are one `Library` value that the caller passes in. It holds two
deterministic functions. One fits a regressor and yields a predictor. The other
fits SARIMA and yields its fitted values and forecasts. Either returns `None`
when fitting raises. Every member is then proved for all possible estimators.

## Model

| member | source | states |
|---|---|---|
| `Series.DropNa` | utils/predictive_models.py:32 | `dropna()` never grows the series |
| `Series.DropNaKeepsPresent` | utils/predictive_models.py:32 | a point is kept if and only if the input has a row with that date and that value present |
| `Series.DropNaKeepsComplete` | utils/predictive_models.py:32 | a series with no missing value comes through `dropna()` unchanged, row for row |
| `Series.DropNaKeepsOrder` | utils/predictive_models.py:32 | `dropna()` keeps a strictly increasing date index strictly increasing |
| `Series.TruncToInt` | utils/predictive_models.py:44 | Python `int()` truncates toward zero: the result is within 1 of the argument, on its side of zero |
| `Series.SliceBound` | utils/predictive_models.py:45-46 | a slice bound is clamped to `[0, n]`, and a negative bound counts from the end |
| `Series.SplitPartition` | utils/predictive_models.py:44-46 | for any `test_size`, train followed by test is exactly the input, and their lengths add up to it |
| `Series.SplitIndexing` | utils/predictive_models.py:45-46 | train element `k` is input element `k`; test element `k` is input element `len(train) + k` |
| `Series.SplitIndexInRange` | utils/predictive_models.py:44-46 | for `0 <= test_size <= 1`: `0 <= split_idx <= n`, train is the prefix `[0, split_idx)` and test is the suffix |
| `Series.SplitOutOfRange` | utils/predictive_models.py:44-46 | a negative `test_size` leaves no test part; a `test_size` above 1 gives a non-positive split index |
| `Series.WindowsShape` | utils/predictive_models.py:35-41 | exactly `n - lookback` windows (none when `lookback >= n`); window `k` is `serie[k .. k+lookback)` |
| `Series.LabelsAreSuffix` | utils/predictive_models.py:36-38 | the labels, in order, are the series from position `lookback` on |
| `Series.AdjacentWindowsLineUp` | utils/predictive_models.py:36-38 | the label of window `k` is the last feature of window `k+1` |
| `Metrics.SumAbsErr` | utils/predictive_models.py:66 | the sum of absolute residuals is never negative |
| `Metrics.SumSqErr` | utils/predictive_models.py:65 | the sum of squared residuals is never negative |
| `Metrics.R2` | utils/predictive_models.py:67 | R² is defined exactly when there are at least two samples (otherwise NaN), and is at most 1 |
| `Metrics.Score` | utils/predictive_models.py:63-74 | the scores of one partition: MSE and MAE are non-negative, and R² is as above |
| `Metrics.ResidualsZeroIff` | utils/predictive_models.py:65-66 | the residual sums are zero if and only if the prediction equals the ground truth |
| `Metrics.PerfectPrediction` | utils/predictive_models.py:65-72 | a perfect prediction scores MAE 0 and MSE 0, and R² 1 from two samples on |
| `Metrics.ZeroErrorMeansPerfect` | utils/predictive_models.py:65-72 | MSE (and MAE) is 0 if and only if the prediction is exact |
| `Scaling.Min` | utils/predictive_models.py:131 | the scaler's minimum is a value of the series and bounds it from below |
| `Scaling.Max` | utils/predictive_models.py:131 | the scaler's maximum is a value of the series and bounds it from above |
| `Scaling.Fit` | utils/predictive_models.py:131 | the fitted scaler's extremes are values of the series and bracket every value |
| `Scaling.Span` | utils/predictive_models.py:131 | the divisor is never zero: a zero range is replaced by 1 |
| `Scaling.TransformRoundTrip` | utils/predictive_models.py:131-160 | `inverse_transform(transform(x)) == x` and `transform(inverse_transform(y)) == y`, for every scaler state, the zero-range guard included |
| `Scaling.RoundTrip` | utils/predictive_models.py:131-160 | unscaling undoes scaling (`(y/10)·span + min` after `(x−min)/span·10`) and the other way round, for every scaler state |
| `Scaling.RoundTripAll` | utils/predictive_models.py:155-160 | the round trip holds element by element on whole series, in both directions |
| `Scaling.NormalizeMonotone` | utils/predictive_models.py:131 | scaling preserves order |
| `Scaling.NormalizedBetween` | utils/predictive_models.py:131 | a value between the fitted extremes is scaled into `[0, 10]` |
| `Scaling.NormalizedRange` | utils/predictive_models.py:131 | the normalised series lies in `[0, 10]`; its minimum maps to 0 and, unless the series is constant, its maximum maps to 10 |
| `Series.SplitIndex` | utils/predictive_models.py:44 | `int(n * (1 - test_size))`; its range is stated by `SplitIndexInRange` and `SplitOutOfRange` |
| `Series.TrainPart` | utils/predictive_models.py:45-46 | `X[:split_idx]`; that it is the prefix, partitions the input with `TestPart` and keeps element order is stated by `SplitPartition`, `SplitIndexing` and `SplitIndexInRange` |
| `Series.TestPart` | utils/predictive_models.py:45-46 | `X[split_idx:]`; stated by `SplitPartition`, `SplitIndexing` and `SplitIndexInRange` |
| `Series.WindowCount` | utils/predictive_models.py:36 | `len(range(lookback, n))`; `WindowsShape` states it is `n - lookback`, or 0 when `lookback >= n` |
| `Series.FeatureWindows` | utils/predictive_models.py:35-41 | the feature rows of the windowing loop; their count and contents are stated by `WindowsShape` |
| `Series.Labels` | utils/predictive_models.py:36-38 | the label of each window; stated by `LabelsAreSuffix` and `AdjacentWindowsLineUp` |
| `Scaling.Transform` | utils/predictive_models.py:131 | `MinMaxScaler.transform` for the range (0, 1); `TransformRoundTrip` states that `InverseTransform` undoes it |
| `Scaling.InverseTransform` | utils/predictive_models.py:155-160 | `MinMaxScaler.inverse_transform`; `TransformRoundTrip` states that it undoes `Transform` and that `Transform` undoes it |
| `Scaling.Normalize` | utils/predictive_models.py:131 | `scaler.fit_transform(...) * 10` on one value; inverted by `Denormalize` (`RoundTrip`), order-preserving (`NormalizeMonotone`), into `[0, 10]` (`NormalizedBetween`) |
| `Scaling.Denormalize` | utils/predictive_models.py:155-160 | `inverse_transform(y / 10)` on one value; inverts `Normalize` (`RoundTrip`) |
| `Scaling.NormalizeAll` | utils/predictive_models.py:131 | the scaled series, one value per input value; its range is stated by `NormalizedRange`, its inverse by `RoundTripAll` |
| `Scaling.DenormalizeAll` | utils/predictive_models.py:155-160 | the unscaled predictions, one per input value; inverts `NormalizeAll` (`RoundTripAll`) |
| `Adapters.AlignedDates` | utils/predictive_models.py:48 | `serie.index[lookback:]` with Python's clamping; `PrepareShape` and `WindowedShape` state it is the index from `lookback` on, or empty |
| `Adapters.Windowed` | utils/predictive_models.py:35-48 | the windows, labels, split and dates of `prepare_data` over a value column and its index; stated by `WindowedShape`, `PrepareLabels` and `PrepareFeatures` |
| `Adapters.WindowedShape` | utils/predictive_models.py:35-48 | one label per feature row in both partitions, labels train-then-test are the values from `lookback` on, and the dates are the index from `lookback` on (empty when `lookback >= n`), one per label |
| `Adapters.PrepareLabels` | utils/predictive_models.py:36-46 | `y_train ++ y_test` is the value column from position `lookback` on |
| `Adapters.PrepareFeatures` | utils/predictive_models.py:35-46 | train row `k` is the window starting at `k`, test row `k` the window starting at `len(X_train) + k` |
| `Adapters.Prepare` | utils/predictive_models.py:24-48 | `prepare_data` on the `dropna()`ed series; stated by `PrepareShape`, `PrepareWindows`, `PrepareSplitIndex` and `PrepareTrainBeforeTest` |
| `Adapters.Evaluate` | utils/predictive_models.py:63-74 | the six scores of a bundle: each partition's ground truth against its predictions, non-negative errors, R² as `Metrics.R2` |
| `Adapters.WindowedOutcome` | utils/predictive_models.py:52-86 | the `try` block of a windowed adapter on prepared data; its failure cases and bundle are stated by `RegressorOutcomeShape` |
| `Adapters.RegressorOutcome` | utils/predictive_models.py:50-86 | `prepare_data` then the windowed adapter; stated by `RegressorOutcomeShape` and `RegressorSuccessShaped` |
| `Adapters.Steps` | utils/predictive_models.py:151-152 | the first `n` steps of a fitted-value or forecast stream, step `i` at position `i` |
| `Adapters.SeasonalOutcome` | utils/predictive_models.py:128-193 | the `try` block of `train_sarima` on a non-empty series; `SarimaOutcomeShape` states that it is `None` iff the fit raises or a partition is empty, that `y_train ++ y_test` is the series and the dates its whole index, and `SarimaPerfectFitRecoversSeries` that the scaling round trip through it gives the ground truth back |
| `Adapters.SarimaOutcome` | utils/predictive_models.py:126-193 | `train_sarima`: `ValueError` on an empty series, else the seasonal outcome; stated by `SarimaOutcomeShape`, `SarimaSuccessShaped` and `SarimaPerfectFitRecoversSeries` |
| `Adapters.RowOf` | utils/predictive_models.py:219-229 | one table row: the model name and the six metrics of its result; stated by `TableRowsPresent` |
| `Adapters.TableRows` | utils/predictive_models.py:217-229 | the rows of the present results, in key order; stated by `TableRowsPresent` and `ComparisonRows` |
| `Adapters.PredictRows` | utils/predictive_models.py:59-60 | `predict` gives one value per feature row: the fitted model's value for that row |
| `Adapters.Entry` | utils/predictive_models.py:210-214 | the stored entry has exactly the keys Linear Regression, Random Forest and SARIMA, each mapped to its own result, and so holds every name the table iterates over |
| `Adapters.PrepareShape` | utils/predictive_models.py:24-48 | `prepare_data` pairs one label with each feature row in both partitions; the labels, train then test, are the series from `lookback` on; the dates are `index[lookback:]` of the dropped series, one per label |
| `Adapters.PrepareWindows` | utils/predictive_models.py:35-46 | train row `k` is the window `serie[k .. k+lookback)` and test row `k` the window at `len(X_train) + k` |
| `Adapters.PrepareSplitIndex` | utils/predictive_models.py:44-46 | for `0 <= test_size <= 1` the training part holds exactly `int(len(X)*(1-test_size))` windows |
| `Adapters.PrepareTrainBeforeTest` | utils/predictive_models.py:44-48 | on an increasing index every training label is dated before every test label |
| `Adapters.RegressorOutcomeShape` | utils/predictive_models.py:50-86 | the windowed adapter fails iff a partition is empty, `lookback == 0` (zero-feature rows, which scikit-learn refuses) or the fit raises. On success: the bundle is well shaped, y_train ++ y_test is the series from `lookback` on, dates are `index[lookback:]`, predictions come from the fitted model, metrics score them |
| `Adapters.RegressorSuccessShaped` | utils/predictive_models.py:50-86 | a windowed adapter succeeds only on a series longer than `lookback`, and its bundle is then well shaped |
| `Adapters.SarimaOutcomeShape` | utils/predictive_models.py:126-193 | SARIMA raises only on an empty series and gives `None` iff the fit raises or a partition is empty. On success: y_train ++ y_test is the whole series, dates are the whole index, the train predictions are the de-normalised fitted values and the test predictions the de-normalised `len(test)`-step forecast of the fit on the normalised train part, metrics score them |
| `Adapters.SarimaSuccessShaped` | utils/predictive_models.py:126-193 | every bundle SARIMA returns has one prediction per ground-truth value and one date per value |
| `Adapters.SarimaPerfectFitRecoversSeries` | utils/predictive_models.py:151-163 | if the fitted model reproduces the normalised series, the unscaled predictions equal the ground truth exactly |
| `Adapters.TableRowsPresent` | utils/predictive_models.py:217-229 | each table row belongs to a present result and carries its six metrics; every present result has a row; no more rows than models |
| `Adapters.ComparisonRows` | utils/predictive_models.py:210-231 | the table is LR, then RF, then SARIMA if it did not fail: 3 rows, or 2 |
| `Models.BuildComparison` | utils/predictive_models.py:217-229 | the loop builds exactly the rows of the present results, in key order |
| `Models.PredictiveModels.constructor` | utils/predictive_models.py:17-22 | the registry starts empty, the scaler unfitted, with the given `test_size` |
| `Models.PredictiveModels.PrepareData` | utils/predictive_models.py:24-48 | the windowing loop and the split give what `Adapters.Prepare` describes |
| `Models.PredictiveModels.TrainRegressor` | utils/predictive_models.py:50-86 | runs `prepare_data` and the windowed adapter, with the outcome described by `RegressorOutcomeShape`; `train_random_forest` (lines 88-124) is the same code with the forest's spec |
| `Models.PredictiveModels.TrainSarima` | utils/predictive_models.py:126-193 | refits `self.scaler` on every non-empty series; on an empty one `fit` resets it to unfitted before raising `ValueError`; returns the SARIMA outcome |
| `Models.PredictiveModels.CompareModels` | utils/predictive_models.py:195-233 | on success it overwrites only `models[name]`, with the three results, leaves the scaler fitted on the series, and returns their table; an exception (the linear regression's first, then the forest's) is propagated unchanged and leaves the registry and scaler unchanged; it keeps the registry invariant; a failed SARIMA makes the as-written lookup raise |
| `Models.PredictiveModels.GetPredictions` | utils/predictive_models.py:235-239 | as written: `None` iff a name is missing, `TypeError` iff the stored result is `None`, otherwise the stored bundle |
| `Models.PredictiveModels.GetPredictionsGuarded` | utils/predictive_models.py:235-239 | as intended: agrees with the code wherever it does not raise, gives `None` where it raises, and returns only well-shaped bundles |
| `Models.ComparisonEntryValid` | utils/predictive_models.py:205-214 | once both windowed adapters succeed, SARIMA cannot raise and the entry stored has the three keys, both windowed results, and only well-shaped bundles |
| `Models.StoredLookups` | utils/predictive_models.py:210-239 | after `compare_models` stores an entry, both windowed lookups return their bundles, a failed SARIMA lookup raises, and a successful one returns its bundle |
| `Models.FailedSarimaLookupRaises` | utils/predictive_models.py:213 | a stored failed SARIMA result makes `get_predictions(name, 'SARIMA')` raise |

## Left out

- Estimator internals: the numerics of scikit-learn's `LinearRegression` and
  `RandomForestRegressor` and of statsmodels' `SARIMAX` are not modelled. They
  are function fields of the `Library` parameter. The fitted estimator object
  (the `'model'` key of each result) is not kept.
- Floating point: values, metrics and scaling are exact reals. A product
  `len * (1 - test_size)` that lies within rounding error of an integer may be
  truncated differently by binary floating point. A NaN `test_size` and
  infinite values are not represented.
- `Adapters.SeasonalOutcome` checks for an empty partition after calling the
  fit. In the source, the exception comes from `SARIMAX`, `inverse_transform`
  or the metric functions. Every one of them lands in the same `except`, so the
  result is the same `None`.
- `Models.PredictiveModels.TrainRegressor`: it raises `ValueError` on an empty
  partition, because scikit-learn refuses zero-sample arrays. Which exception
  type the library raises there is not modelled further.
- Lookback validation: the source does not check that `lookback < len(serie)`,
  and this model follows the code, not a stricter contract. Such a series gives
  zero windows, and the windowed adapters then raise `ValueError`. A `lookback`
  of 0 gives feature rows with no columns, which scikit-learn also refuses with
  `ValueError`; the model raises it for that case too. A negative `lookback` is
  not modelled (`lookback` is a `nat`).
- R² on a constant ground truth follows scikit-learn 1.4 (`force_finite=True`):
  1 for an exact prediction, otherwise 0. With fewer than two samples the score
  is NaN, shown as `None`.
- `Models.PredictiveModels.GetPredictions` returns the stored bundle as a value.
  The source returns a reference to the stored `'predictions'` dict, so a caller
  that changed it would change the registry. The dashboard's callers only read
  it, so this aliasing is not modelled.
- The `self.predictions` and `self.metrics` fields of `__init__` are never read
  or written afterwards, so they are left out.
- `print` logging and `warnings.filterwarnings` are side effects only. The
  comparison table is a sequence of rows, not a pandas `DataFrame`.
- Dates are integers, not pandas timestamps.
- app.py (Streamlit UI and caching), utils/visualization_utils.py (charts),
  generate_report.py (PDF report), utils/data_loader.py (Excel loading) and
  config.py (constants) are presentation or I/O, and are not part of this model.

## Findings

| source | as written | input that shows it | evidently intended | confidence | as-written member | corrected member |
|---|---|---|---|---|---|---|
| utils/predictive_models.py:237-238 | `get_predictions` checks only that the model key is present, then subscripts the stored value | run `compare_models` on a series whose SARIMA fit raises (stored as `None` at line 213), then call `get_predictions(name, 'SARIMA')`: subscripting `None` raises `TypeError` | return `None` when there is no result for the model, as for a missing key | high; not executed | `Models.PredictiveModels.GetPredictions` (shown by `Models.FailedSarimaLookupRaises`) | `Models.PredictiveModels.GetPredictionsGuarded` |
