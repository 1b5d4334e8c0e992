/**
 * The evaluation script: the same lagged table prepared for a random
 * 80/20 split (encoder fitted on the whole table) and for a temporal split
 * at 2019 (encoder fitted on the training years only), the fixed
 * seven-column feature order shared with the prediction endpoint, the
 * overfitting classification and the condition for the recommendation.
 */
module Evaluation {
  import opened Wrappers
  import opened Sequences
  import opened Lagging
  import opened Training
  import Encoding
  import App

  /** `feature_columns` of the evaluation script. */
  const EvalFeatureColumns: seq<string> := [
    "Country_Encoded",
    "Population_Growth_Rate_Lag1",
    "Exports_Growth_Rate_Lag1",
    "Imports_Growth_Rate_Lag1",
    "Investment_Growth_Rate_Lag1",
    "Consumption_Growth_Rate_Lag1",
    "Govt_Spend_Growth_Rate_Lag1"
  ]

  const EvalTarget: string := "GDP_Growth_Rate"

  const EvalSplitYear: int := 2019

  /** The seven columns are the encoded country and then the six lag features, all present after renaming. */
  lemma EvalColumnsPresent()
    ensures EvalFeatureColumns == ["Country_Encoded"] + ShortLagNames
    ensures forall f :: f in EvalFeatureColumns ==> f in RenamedColumns
    ensures EvalTarget in RenamedColumns
  {
  }

  lemma EvalColumnsOrder()
    ensures |EvalFeatureColumns| == 1 + IndicatorCount && EvalFeatureColumns[0] == "Country_Encoded"
    ensures forall k :: 0 <= k < IndicatorCount ==> EvalFeatureColumns[k + 1] == ShortLagNames[k]
  {
  }

  /** Every row's country is one of `classes`. */
  predicate AllKnown(df: seq<Shifted>, classes: seq<string>) {
    forall t :: t in df ==> t.obs.country in classes
  }

  /** `prepare_features` of the evaluation script, with an encoder fitted to `classes`. */
  function EvalPrepare(df: seq<Shifted>, classes: seq<string>): (r: Result<Prepared, PrepareError>)
    requires TableShape(df)
    ensures r.Err? <==> !AllKnown(df, classes)
    ensures r.Err? ==> r.error.EncodingFailed?
    ensures r.Ok? ==> |r.value.x| == |df| && |r.value.y| == |df|
  {
    EvalColumnsPresent();
    PrepareWithUnseen(df, classes, EvalFeatureColumns, EvalTarget);
    PrepareWith(df, classes, EvalFeatureColumns, EvalTarget)
  }

  /** A row's lag values under the field names of a prediction request. */
  function LagRecord(r: Shifted): (v: App.Validated)
    requires RowShape(r) && AllPresent(r.lags)
    ensures App.HasNumbers(v)
    ensures forall k :: 0 <= k < IndicatorCount ==> v.numbers[App.NumericFields[k]] == r.lags[k].value
  {
    App.Validated(r.obs.country, map[
      "Population" := r.lags[0].value,
      "Exports" := r.lags[1].value,
      "Imports" := r.lags[2].value,
      "Investment" := r.lags[3].value,
      "Consumption" := r.lags[4].value,
      "Govt_Spend" := r.lags[5].value])
  }

  function AsValues(v: seq<real>): seq<Value> {
    seq(|v|, j requires 0 <= j < |v| => Number(Some(v[j])))
  }

  /** The code the fitted encoder gives row `i`. */
  function CodeOf(df: seq<Shifted>, classes: seq<string>, i: nat): (code: nat)
    requires Encoding.Encode(classes, CountryNames(df)).Ok? && i < |df|
    ensures code < |classes| && classes[code] == df[i].obs.country
  {
    Encoding.Encode(classes, CountryNames(df)).value[i]
  }

  /**
   * A feature row of the evaluation has seven cells: the country's code
   * and then its six lags, in the order of `EvalFeatureColumns`; the target
   * is the row's GDP growth.
   */
  lemma EvalRowCells(df: seq<Shifted>, classes: seq<string>, i: nat)
    requires TableShape(df) && EvalPrepare(df, classes).Ok? && i < |df|
    ensures Encoding.Encode(classes, CountryNames(df)).Ok?
    ensures var p := EvalPrepare(df, classes).value;
      |p.x[i]| == 7
      && p.x[i][0] == Number(Some(CodeOf(df, classes, i) as real))
      && (forall k :: 0 <= k < IndicatorCount ==> p.x[i][k + 1] == Number(df[i].lags[k]))
      && p.y[i] == Number(df[i].obs.gdpGrowth)
  {
    PreparedCodeCell(df, classes, EvalFeatureColumns, EvalTarget, i, 0);
    var p := EvalPrepare(df, classes).value;
    EvalColumnsOrder();
    forall k | 0 <= k < IndicatorCount ensures p.x[i][k + 1] == Number(df[i].lags[k]) {
      PreparedLagCell(df, classes, EvalFeatureColumns, EvalTarget, i, k + 1, k);
    }
  }

  /**
   * For a row with all six lags present and a fitted (sorted, duplicate-free)
   * class list, the evaluation's feature row is exactly the vector the
   * prediction endpoint assembles for a request with that country and those
   * six values.
   */
  lemma EvalRowMatchesPredict(df: seq<Shifted>, classes: seq<string>, i: nat)
    requires TableShape(df) && EvalPrepare(df, classes).Ok? && i < |df|
    requires Encoding.StrictlySorted(classes) && AllPresent(df[i].lags)
    ensures Encoding.IndexOf(classes, df[i].obs.country).Some?
    ensures EvalPrepare(df, classes).value.x[i]
      == AsValues(App.FeatureVector(Encoding.IndexOf(classes, df[i].obs.country).value, LagRecord(df[i])))
  {
    EvalRowCells(df, classes, i);
    var c := CodeOf(df, classes, i);
    Encoding.IndexOfClass(classes, c);
    RequestVector(EvalPrepare(df, classes).value.x[i], c, df[i]);
  }

  /** Seven cells holding a code and then a row's six lags spell out the endpoint's feature vector. */
  lemma RequestVector(cells: seq<Value>, code: nat, r: Shifted)
    requires RowShape(r) && AllPresent(r.lags)
    requires |cells| == 7 && cells[0] == Number(Some(code as real))
    requires forall k :: 0 <= k < IndicatorCount ==> cells[k + 1] == Number(r.lags[k])
    ensures cells == AsValues(App.FeatureVector(code, LagRecord(r)))
  {
    var v := App.FeatureVector(code, LagRecord(r));
    forall j | 1 <= j < 7 ensures cells[j] == AsValues(v)[j] {
      assert v[(j - 1) + 1] == LagRecord(r).numbers[App.NumericFields[j - 1]];
    }
  }

  /**
   * The random-split path: the encoder is fitted on the whole lagged table,
   * so it cannot meet an unseen country and every row is prepared.
   */
  function RandomPathFeatures(lagged: seq<Shifted>): (r: Result<Prepared, PrepareError>)
    requires TableShape(lagged)
    ensures r.Ok? && |r.value.x| == |lagged| && |r.value.y| == |lagged|
  {
    ClassesOf(lagged);
    EvalPrepare(lagged, Encoding.SortedDistinct(CountryNames(lagged)))
  }

  /** The temporal path: split at 2019, fit on the earlier years, reuse the encoder on the later ones. */
  function TemporalPathFeatures(lagged: seq<Shifted>): (r: Result<(Prepared, Prepared), PrepareError>)
    requires TableShape(lagged)
    ensures r.Ok? ==>
      |r.value.0.x| + |r.value.1.x| == |lagged|
      && |r.value.0.x| == |TemporalSplit(lagged, EvalSplitYear).0|
  {
    var parts := TemporalSplit(lagged, EvalSplitYear);
    assert TableShape(parts.0) && TableShape(parts.1) by {
      assert forall i :: 0 <= i < |parts.0| ==> parts.0[i] in lagged;
      assert forall i :: 0 <= i < |parts.1| ==> parts.1[i] in lagged;
    }
    FitAndApply(parts.0, parts.1, EvalFeatureColumns, EvalTarget)
  }

  /**
   * The classes of the temporal path are a subset of those of the random
   * path, and the temporal path fails exactly when some country appears
   * only from 2019 on.
   */
  lemma TemporalPathScope(lagged: seq<Shifted>)
    requires TableShape(lagged)
    ensures var parts := TemporalSplit(lagged, EvalSplitYear);
      forall c :: c in Encoding.SortedDistinct(CountryNames(parts.0)) ==> c in Encoding.SortedDistinct(CountryNames(lagged))
    ensures var parts := TemporalSplit(lagged, EvalSplitYear);
      TemporalPathFeatures(lagged).Err? <==>
        exists t :: t in parts.1 && forall u :: u in parts.0 ==> u.obs.country != t.obs.country
  {
    var parts := TemporalSplit(lagged, EvalSplitYear);
    assert forall i :: 0 <= i < |parts.0| ==> parts.0[i] in lagged;
    assert forall i :: 0 <= i < |parts.1| ==> parts.1[i] in lagged;
    ClassesOf(parts.0);
    ClassesOf(lagged);
    EvalColumnsPresent();
    FitOnTrainRejectsUnseen(parts.0, parts.1, EvalFeatureColumns, EvalTarget);
  }

  /** A fresh encoder fitted while preparing `train`, then applied to `test`. */
  method FitThenApply(train: seq<Shifted>, test: seq<Shifted>) returns (r: Result<(Prepared, Prepared), PrepareError>)
    requires TableShape(train) && TableShape(test)
    ensures r == FitAndApply(train, test, EvalFeatureColumns, EvalTarget)
  {
    var trained, encoder := PrepareFeatures(train, null, true, EvalFeatureColumns, EvalTarget);
    ghost var classes := Encoding.SortedDistinct(CountryNames(train));
    assert trained == PrepareWith(train, classes, EvalFeatureColumns, EvalTarget);
    var tested, _ := PrepareFeatures(test, encoder, false, EvalFeatureColumns, EvalTarget);
    assert tested == PrepareWith(test, classes, EvalFeatureColumns, EvalTarget);
    match trained
    case Err(e) => r := Err(e);
    case Ok(a) =>
      match tested
      case Err(e) => r := Err(e);
      case Ok(b) => r := Ok((a, b));
  }

  /** The temporal path as written: split on the year, then fit on the training years and apply to the test years. */
  method PrepareTemporal(lagged: seq<Shifted>) returns (temporal: Result<(Prepared, Prepared), PrepareError>)
    requires TableShape(lagged)
    ensures temporal == TemporalPathFeatures(lagged)
  {
    var parts := TemporalSplit(lagged, EvalSplitYear);
    assert forall i :: 0 <= i < |parts.0| ==> parts.0[i] in lagged;
    assert forall i :: 0 <= i < |parts.1| ==> parts.1[i] in lagged;
    temporal := FitThenApply(parts.0, parts.1);
  }

  /**
   * The feature preparation of the evaluation script as written: lag once,
   * prepare the whole table for the random split with a fresh encoder,
   * then prepare the temporal split with a second one.
   */
  method PrepareBothPaths(df: seq<Observation>)
    returns (random: Result<Prepared, PrepareError>, temporal: Result<(Prepared, Prepared), PrepareError>)
    requires WellFormed(df)
    ensures (LaggedShape(df); random == RandomPathFeatures(LaggedFeatures(df)))
    ensures (LaggedShape(df); temporal == TemporalPathFeatures(LaggedFeatures(df)))
  {
    var lagged := CreateLaggedFeatures(df);
    LaggedShape(df);
    var encoderRandom;
    random, encoderRandom := PrepareFeatures(lagged, null, true, EvalFeatureColumns, EvalTarget);
    temporal := PrepareTemporal(lagged);
  }

  /** The verdict of the overfitting check. */
  datatype FitStatus = GoodGeneralization | SlightOverfitting | SignificantOverfitting

  /** The if/elif chain on `train_r2 - test_r2`. */
  function OverfitStatus(trainR2: real, testR2: real): (s: FitStatus)
    ensures s == GoodGeneralization <==> trainR2 - testR2 < 0.1
    ensures s == SlightOverfitting <==> 0.1 <= trainR2 - testR2 < 0.2
    ensures s == SignificantOverfitting <==> trainR2 - testR2 >= 0.2
  {
    var gap := trainR2 - testR2;
    if gap < 0.1 then GoodGeneralization
    else if gap < 0.2 then SlightOverfitting
    else SignificantOverfitting
  }

  function Severity(s: FitStatus): (n: nat)
    ensures n <= 2
  {
    match s
    case GoodGeneralization => 0
    case SlightOverfitting => 1
    case SignificantOverfitting => 2
  }

  /** A larger gap never yields a milder verdict. */
  lemma OverfitMonotone(train1: real, test1: real, train2: real, test2: real)
    requires train1 - test1 <= train2 - test2
    ensures Severity(OverfitStatus(train1, test1)) <= Severity(OverfitStatus(train2, test2))
  {
  }

  /** The R² difference reported under "Recommendation", when that block runs. */
  function Recommendation(randomTestR2: real, temporalTestR2: real): (diff: Option<real>)
    ensures diff.Some? <==> randomTestR2 > temporalTestR2
    ensures diff.Some? ==> diff.value > 0.0 && randomTestR2 == temporalTestR2 + diff.value
  {
    if randomTestR2 > temporalTestR2 then Some(randomTestR2 - temporalTestR2) else None
  }
}
