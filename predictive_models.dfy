/** The `PredictiveModels` class of utils/predictive_models.py: a registry of
    per-series results, the windowing loop of `prepare_data`, the adapters that
    call it, the scaler the seasonal adapter refits, and the comparison run. */
module Models {
  import opened Wrappers
  import opened Series
  import opened Scaling
  import opened Adapters

  /** The `lookback` that `compare_models` leaves at its default. */
  const DefaultLookback: nat := 12

  /** A registry entry as `compare_models` writes it: exactly the three model names,
      the two windowed results always present, and every present bundle well shaped. */
  ghost predicate EntryValid(e: map<string, Option<TrainResult>>)
  {
    && e.Keys == {LinearName, ForestName, SarimaName}
    && e[LinearName].Some? && e[ForestName].Some?
    && forall m :: m in e && e[m].Some? ==> WellShaped(e[m].value.predictions)
  }

  /** Every entry of the registry is valid. */
  ghost predicate RegistryValid(models: map<string, map<string, Option<TrainResult>>>)
  {
    forall s :: s in models ==> EntryValid(models[s])
  }

  /** Storing a valid entry keeps the registry valid. */
  lemma StoreKeepsValid(models: map<string, map<string, Option<TrainResult>>>, name: string,
                        e: map<string, Option<TrainResult>>)
    requires RegistryValid(models) && EntryValid(e)
    ensures RegistryValid(models[name := e])
  {
  }

  /** An entry built from well-shaped results is valid. */
  lemma EntryOfShaped(lr: TrainResult, rf: TrainResult, sarima: Option<TrainResult>)
    requires WellShaped(lr.predictions) && WellShaped(rf.predictions)
    requires sarima.Some? ==> WellShaped(sarima.value.predictions)
    ensures EntryValid(Entry(lr, rf, sarima))
  {
  }

  /** When both windowed adapters succeed the series is not empty, so the seasonal
      adapter does not raise, and the entry built from the three results is valid. */
  lemma ComparisonEntryValid(serie: seq<Obs>, testSize: real, lib: Library)
    requires RegressorOutcome(serie, DefaultLookback, testSize, LinearModel, lib).Success?
    requires RegressorOutcome(serie, DefaultLookback, testSize, ForestModel, lib).Success?
    ensures SarimaOutcome(serie, testSize, lib).Success?
    ensures EntryValid(Entry(RegressorOutcome(serie, DefaultLookback, testSize, LinearModel, lib).value,
                             RegressorOutcome(serie, DefaultLookback, testSize, ForestModel, lib).value,
                             SarimaOutcome(serie, testSize, lib).value))
  {
    RegressorSuccessShaped(serie, DefaultLookback, testSize, LinearModel, lib);
    RegressorSuccessShaped(serie, DefaultLookback, testSize, ForestModel, lib);
    SarimaSuccessShaped(serie, testSize, lib);
    EntryOfShaped(RegressorOutcome(serie, DefaultLookback, testSize, LinearModel, lib).value,
                  RegressorOutcome(serie, DefaultLookback, testSize, ForestModel, lib).value,
                  SarimaOutcome(serie, testSize, lib).value);
  }

  /** The loop of `compare_models` that turns the stored entry into table rows. */
  method BuildComparison(entry: map<string, Option<TrainResult>>, order: seq<string>) returns (rows: seq<Row>)
    requires forall i :: 0 <= i < |order| ==> order[i] in entry
    ensures rows == TableRows(entry, order)
  {
    rows := [];
    for i := 0 to |order|
      invariant rows == TableRows(entry, order[..i])
    {
      assert order[..i + 1][..i] == order[..i];
      var result := entry[order[i]];
      if result.Some? {
        rows := rows + [RowOf(order[i], result.value)];
      }
    }
    assert order[..|order|] == order;
  }

  class PredictiveModels {
    const testSize: real
    /** `self.models`: series name -> model name -> result, `None` for a failed SARIMA run. */
    var models: map<string, map<string, Option<TrainResult>>>
    /** `self.scaler`, `None` until the seasonal adapter first fits it. */
    var scaler: Option<MinMaxScaler>

    ghost predicate Valid()
      reads this`models
    {
      RegistryValid(models)
    }

    /** `__init__`: an empty registry and an unfitted scaler. */
    constructor (testSize: real)
      ensures this.testSize == testSize
      ensures models == map[] && scaler == None
      ensures Valid()
    {
      this.testSize := testSize;
      models := map[];
      scaler := None;
    }

    /** `prepare_data`: drops missing values, slides the window over the series,
        then splits windows and labels chronologically. */
    method PrepareData(serie: seq<Obs>, lookback: nat) returns (p: Prepared)
      ensures p == Prepare(serie, lookback, testSize)
    {
      var points := DropNa(serie);
      var values := Values(points);
      var xs: seq<seq<real>> := [];
      var ys: seq<real> := [];
      var i := lookback;
      while i < |values|
        invariant lookback <= i
        invariant i == lookback || i <= |values|
        invariant |xs| == |ys| == i - lookback
        invariant forall k :: 0 <= k < |xs| ==> xs[k] == values[k..k + lookback]
        invariant forall k :: 0 <= k < |ys| ==> ys[k] == values[k + lookback]
      {
        xs := xs + [values[i - lookback..i]];
        ys := ys + [values[i]];
        i := i + 1;
      }
      assert xs == FeatureWindows(values, lookback);
      assert ys == Labels(values, lookback);
      var split := SliceBound(SplitIndex(|xs|, testSize), |xs|);
      p := Prepared(xs[..split], xs[split..], ys[..split], ys[split..],
                    Index(points)[if lookback < |values| then lookback else |values|..]);
    }

    /** `train_linear_regression` and `train_random_forest`: the same code with a
        different estimator. */
    method TrainRegressor(serie: seq<Obs>, lookback: nat, spec: RegressorSpec, lib: Library)
      returns (r: Result<TrainResult, Error>)
      ensures r == RegressorOutcome(serie, lookback, testSize, spec, lib)
    {
      var p := PrepareData(serie, lookback);
      PrepareShape(serie, lookback, testSize);
      r := WindowedOutcome(p, spec, lib);
    }

    /** `train_sarima`: refits `self.scaler` on the series, then runs the seasonal
        model. On an empty series `fit` resets the scaler to unfitted before it
        refuses the zero samples, and that `ValueError` is raised outside the `try`. */
    method TrainSarima(serie: seq<Obs>, lib: Library) returns (r: Result<Option<TrainResult>, Error>)
      modifies this`scaler
      ensures r == SarimaOutcome(serie, testSize, lib)
      ensures scaler == if |DropNa(serie)| == 0 then None else Some(Fit(Values(DropNa(serie))))
    {
      var points := DropNa(serie);
      if |points| == 0 {
        scaler := None;
        return Failure(ValueError);
      }
      scaler := Some(Fit(Values(points)));
      r := Success(SeasonalOutcome(points, testSize, lib));
    }

    /** `compare_models`: runs the three adapters (lookback 12), overwrites the
        registry entry of `name` with exactly the three results, and returns the
        comparison rows, leaving the scaler fitted on the series. An exception from a
        windowed adapter, the linear regression's first, propagates and leaves the
        object as it was. */
    method CompareModels(serie: seq<Obs>, name: string, lib: Library) returns (r: Result<seq<Row>, Error>)
      requires Valid()
      modifies this`models, this`scaler
      ensures Valid()
      ensures var lr := RegressorOutcome(serie, DefaultLookback, testSize, LinearModel, lib);
        var rf := RegressorOutcome(serie, DefaultLookback, testSize, ForestModel, lib);
        var sarima := SarimaOutcome(serie, testSize, lib);
        && (r.Failure? <==> lr.Failure? || rf.Failure?)
        && (r.Failure? ==> r.error == (if lr.Failure? then lr.error else rf.error))
        && (r.Failure? ==> models == old(models) && scaler == old(scaler))
        && (r.Success? ==>
              && sarima.Success?
              && scaler == Some(Fit(Values(DropNa(serie))))
              && models == old(models)[name := Entry(lr.value, rf.value, sarima.value)]
              && r.value == TableRows(models[name], ModelNames)
              && GetPredictionsGuarded(name, LinearName) == Some(lr.value.predictions)
              && GetPredictionsGuarded(name, ForestName) == Some(rf.value.predictions)
              && (sarima.value.None? ==> GetPredictions(name, SarimaName) == Failure(TypeError)))
    {
      var lr := TrainRegressor(serie, DefaultLookback, LinearModel, lib);
      if lr.Failure? {
        return Failure(lr.error);
      }
      var rf := TrainRegressor(serie, DefaultLookback, ForestModel, lib);
      if rf.Failure? {
        return Failure(rf.error);
      }
      ComparisonEntryValid(serie, testSize, lib);
      var sarima := TrainSarima(serie, lib);
      var entry := Entry(lr.value, rf.value, sarima.value);
      StoreKeepsValid(models, name, entry);
      models := models[name := entry];
      StoredLookups(this, name, lr.value, rf.value, sarima.value);
      var rows := BuildComparison(models[name], ModelNames);
      r := Success(rows);
    }

    /** `get_predictions` as written: `None` when either name is missing, the stored
        bundle otherwise, and a `TypeError` when the stored result is the `None` of a
        failed SARIMA run, since only the key's presence is checked. */
    function GetPredictions(serieName: string, modelName: string): (r: Result<Option<Bundle>, Error>)
      reads this`models
      ensures r == Success(None) <==> !(serieName in models && modelName in models[serieName])
      ensures r == Failure(TypeError) <==>
        serieName in models && modelName in models[serieName] && models[serieName][modelName].None?
      ensures r.Success? && r.value.Some? ==>
        serieName in models && modelName in models[serieName] && models[serieName][modelName].Some?
        && r.value.value == models[serieName][modelName].value.predictions
      ensures serieName in models && modelName in models[serieName] && models[serieName][modelName].Some? ==>
        r == Success(Some(models[serieName][modelName].value.predictions))
    {
      if serieName in models && modelName in models[serieName] then
        match models[serieName][modelName]
        case None => Failure(TypeError)
        case Some(result) => Success(Some(result.predictions))
      else Success(None)
    }

    /** `get_predictions` as evidently intended: never raises, answers `None` where the
        code as written raises, and agrees with it everywhere else; on a valid registry
        every bundle it returns is well shaped. */
    function GetPredictionsGuarded(serieName: string, modelName: string): (r: Option<Bundle>)
      reads this`models
      ensures GetPredictions(serieName, modelName).Success? ==> r == GetPredictions(serieName, modelName).value
      ensures GetPredictions(serieName, modelName).Failure? ==> r == None
      ensures Valid() && r.Some? ==> WellShaped(r.value)
    {
      if serieName in models && modelName in models[serieName] && models[serieName][modelName].Some? then
        Some(models[serieName][modelName].value.predictions)
      else None
    }
  }

  /** The defect: once a failed SARIMA run is stored, looking its predictions up raises. */
  lemma FailedSarimaLookupRaises(pm: PredictiveModels, name: string)
    requires name in pm.models && SarimaName in pm.models[name] && pm.models[name][SarimaName] == None
    ensures pm.GetPredictions(name, SarimaName) == Failure(TypeError)
    ensures pm.GetPredictionsGuarded(name, SarimaName) == None
  {
  }

  /** What `get_predictions` answers for a series whose entry `compare_models` just stored. */
  lemma StoredLookups(pm: PredictiveModels, name: string, lr: TrainResult, rf: TrainResult, sarima: Option<TrainResult>)
    requires name in pm.models && pm.models[name] == Entry(lr, rf, sarima)
    ensures pm.GetPredictionsGuarded(name, LinearName) == Some(lr.predictions)
    ensures pm.GetPredictionsGuarded(name, ForestName) == Some(rf.predictions)
    ensures sarima.None? ==> pm.GetPredictions(name, SarimaName) == Failure(TypeError)
    ensures sarima.Some? ==> pm.GetPredictionsGuarded(name, SarimaName) == Some(sarima.value.predictions)
  {
  }
}
