/**
 * The training-side table operations: the temporal train/test split, the
 * preparation of features (country encoding, renaming of the lag columns,
 * column selection) and the order in which the training pipeline applies
 * them, with the country encoder fitted on the training part only.
 */
module Training {
  import opened Wrappers
  import opened Sequences
  import opened Lagging
  import Encoding

  /**
   * `temporal_train_test_split`: rows strictly before `splitYear` train,
   * the others test; both parts keep the input order.
   */
  function TemporalSplit(df: seq<Shifted>, splitYear: int): (parts: (seq<Shifted>, seq<Shifted>))
    ensures forall i :: 0 <= i < |parts.0| ==> parts.0[i].obs.year < splitYear
    ensures forall i :: 0 <= i < |parts.1| ==> parts.1[i].obs.year >= splitYear
    ensures forall r :: r in parts.0 <==> r in df && r.obs.year < splitYear
    ensures forall r :: r in parts.1 <==> r in df && r.obs.year >= splitYear
    ensures multiset(parts.0) + multiset(parts.1) == multiset(df)
    ensures |parts.0| + |parts.1| == |df|
    ensures IsSubseq(parts.0, df) && IsSubseq(parts.1, df)
  {
    var before := (r: Shifted) => r.obs.year < splitYear;
    var after := (r: Shifted) => r.obs.year >= splitYear;
    FilterMembers(before, df);
    FilterMembers(after, df);
    FilterPartition(before, after, df);
    FilterIsSubseq(before, df);
    FilterIsSubseq(after, df);
    var train := Filter(before, df);
    var test := Filter(after, df);
    assert forall i :: 0 <= i < |train| ==> train[i] in train;
    assert forall i :: 0 <= i < |test| ==> test[i] in test;
    assert |multiset(train) + multiset(test)| == |multiset(df)|;
    (train, test)
  }

  /** No row lands in both parts of a split. */
  lemma SplitDisjoint(df: seq<Shifted>, splitYear: int)
    ensures var parts := TemporalSplit(df, splitYear);
      multiset(parts.0) * multiset(parts.1) == multiset{}
  {
    var parts := TemporalSplit(df, splitYear);
    forall r ensures (multiset(parts.0) * multiset(parts.1))[r] == 0 {
      if r in parts.0 {
        assert r !in parts.1;
      }
    }
    assert multiset(parts.0) * multiset(parts.1) == multiset{};
  }

  /** The `feature_mapping` dictionary of `prepare_features`. */
  const FeatureMapping: map<string, string> := map[
    "Population_Growth_Rate_Lag1" := "Population_Growth_Rate_Lag1",
    "Exports of goods and services_Growth_Rate_Lag1" := "Exports_Growth_Rate_Lag1",
    "Imports of goods and services_Growth_Rate_Lag1" := "Imports_Growth_Rate_Lag1",
    "Gross capital formation_Growth_Rate_Lag1" := "Investment_Growth_Rate_Lag1",
    "Final consumption expenditure_Growth_Rate_Lag1" := "Consumption_Growth_Rate_Lag1",
    "Government_Expenditure_Growth_Rate_Lag1" := "Govt_Spend_Growth_Rate_Lag1"
  ]

  /** The feature names of the lag columns, in `LaggedIndicators` order. */
  const ShortLagNames: seq<string> := [
    "Population_Growth_Rate_Lag1",
    "Exports_Growth_Rate_Lag1",
    "Imports_Growth_Rate_Lag1",
    "Investment_Growth_Rate_Lag1",
    "Consumption_Growth_Rate_Lag1",
    "Govt_Spend_Growth_Rate_Lag1"
  ]

  /** `df.rename(columns=feature_mapping)` on one column name: names outside the mapping stay. */
  function Rename(column: string): (r: string)
    ensures column !in FeatureMapping ==> r == column
  {
    if column in FeatureMapping then FeatureMapping[column] else column
  }

  /** The mapping renames exactly the six lag columns, each to its feature name, and no two to the same name. */
  lemma RenameLagColumns()
    ensures forall k :: 0 <= k < IndicatorCount ==>
      LagColumn(LaggedIndicators[k]) in FeatureMapping && Rename(LagColumn(LaggedIndicators[k])) == ShortLagNames[k]
    ensures forall name :: name in FeatureMapping ==>
      exists k :: 0 <= k < IndicatorCount && name == LagColumn(LaggedIndicators[k])
    ensures forall a, b :: a in FeatureMapping && b in FeatureMapping && FeatureMapping[a] == FeatureMapping[b] ==> a == b
  {
    LagColumnNames();
    MappingInjective();
  }

  /** The six lag column names, spelled out. */
  lemma LagColumnNames()
    ensures LagColumn(LaggedIndicators[0]) == "Population_Growth_Rate_Lag1"
    ensures LagColumn(LaggedIndicators[1]) == "Exports of goods and services_Growth_Rate_Lag1"
    ensures LagColumn(LaggedIndicators[2]) == "Imports of goods and services_Growth_Rate_Lag1"
    ensures LagColumn(LaggedIndicators[3]) == "Gross capital formation_Growth_Rate_Lag1"
    ensures LagColumn(LaggedIndicators[4]) == "Final consumption expenditure_Growth_Rate_Lag1"
    ensures LagColumn(LaggedIndicators[5]) == "Government_Expenditure_Growth_Rate_Lag1"
  {
  }

  lemma MappingInjective()
    ensures forall a, b :: a in FeatureMapping && b in FeatureMapping && FeatureMapping[a] == FeatureMapping[b] ==> a == b
  {
  }

  /** The columns of the lagged table once `Country_Encoded` is added, before renaming. */
  function FrameColumns(): (names: seq<string>)
    ensures |names| == 3 + 2 * IndicatorCount + 1
  {
    ["Country", "Year", "GDP_Growth_Rate"]
    + LaggedIndicators
    + seq(IndicatorCount, k requires 0 <= k < IndicatorCount => LagColumn(LaggedIndicators[k]))
    + ["Country_Encoded"]
  }

  /** The column names after `rename`. */
  const RenamedColumns: seq<string> := [
    "Country", "Year", "GDP_Growth_Rate",
    "Population_Growth_Rate",
    "Exports of goods and services_Growth_Rate",
    "Imports of goods and services_Growth_Rate",
    "Gross capital formation_Growth_Rate",
    "Final consumption expenditure_Growth_Rate",
    "Government_Expenditure_Growth_Rate",
    "Population_Growth_Rate_Lag1",
    "Exports_Growth_Rate_Lag1",
    "Imports_Growth_Rate_Lag1",
    "Investment_Growth_Rate_Lag1",
    "Consumption_Growth_Rate_Lag1",
    "Govt_Spend_Growth_Rate_Lag1",
    "Country_Encoded"
  ]

  /** Renaming the frame's columns gives `RenamedColumns`. */
  lemma RenamedFrame()
    ensures |RenamedColumns| == |FrameColumns()|
    ensures forall i :: 0 <= i < |RenamedColumns| ==> RenamedColumns[i] == Rename(FrameColumns()[i])
  {
    RenamedLagPart();
    RenamedKeptPart();
  }

  lemma RenamedLagPart()
    ensures forall i :: 3 + IndicatorCount <= i < 3 + 2 * IndicatorCount ==>
      RenamedColumns[i] == Rename(FrameColumns()[i])
  {
    var names := FrameColumns();
    RenameLagColumns();
    ShortNamesPlaced();
    forall i | 3 + IndicatorCount <= i < 3 + 2 * IndicatorCount ensures RenamedColumns[i] == Rename(names[i]) {
      var k := i - 3 - IndicatorCount;
      assert names[i] == LagColumn(LaggedIndicators[k]);
      assert RenamedColumns[i] == ShortLagNames[k];
    }
  }

  lemma RenamedKeptPart()
    ensures forall i :: 0 <= i < 3 + IndicatorCount ==> RenamedColumns[i] == Rename(FrameColumns()[i])
    ensures RenamedColumns[|RenamedColumns| - 1] == Rename(FrameColumns()[|RenamedColumns| - 1])
  {
    var names := FrameColumns();
    KeptNames();
    forall i | 0 <= i < 3 + IndicatorCount ensures RenamedColumns[i] == Rename(names[i]) {
      assert names[i] == RenamedColumns[i];
    }
    assert names[|names| - 1] == RenamedColumns[|names| - 1];
  }

  /** The columns other than the six lag columns are not in the mapping. */
  lemma KeptNames()
    ensures forall i :: 0 <= i < 3 + IndicatorCount ==> RenamedColumns[i] !in FeatureMapping
    ensures RenamedColumns[|RenamedColumns| - 1] !in FeatureMapping
  {
  }

  /** The renamed frame has no duplicate column, so every name selects one column. */
  lemma RenamedDistinct()
    ensures forall i, j :: 0 <= i < j < |RenamedColumns| ==> RenamedColumns[i] != RenamedColumns[j]
  {
  }

  /** A cell of the prepared frame: text or a possibly missing number. */
  datatype Value = Str(s: string) | Number(x: Cell)

  predicate RowShape(r: Shifted) {
    |r.obs.indicators| == IndicatorCount && |r.lags| == IndicatorCount
  }

  predicate TableShape(df: seq<Shifted>) {
    forall i :: 0 <= i < |df| ==> RowShape(df[i])
  }

  /** The cells of one row, in `FrameColumns` order, with `code` in `Country_Encoded`. */
  function FrameValues(r: Shifted, code: nat): (vs: seq<Value>)
    requires RowShape(r)
    ensures |vs| == |RenamedColumns|
    ensures vs[2] == Number(r.obs.gdpGrowth) && vs[|vs| - 1] == Number(Some(code as real))
    ensures forall k :: 0 <= k < IndicatorCount ==> vs[3 + IndicatorCount + k] == Number(r.lags[k])
  {
    [Str(r.obs.country), Number(Some(r.obs.year as real)), Number(r.obs.gdpGrowth)]
    + seq(IndicatorCount, k requires 0 <= k < IndicatorCount => Number(r.obs.indicators[k]))
    + seq(IndicatorCount, k requires 0 <= k < IndicatorCount => Number(r.lags[k]))
    + [Number(Some(code as real))]
  }

  /** Column `name` of the renamed frame at one row; None when the frame has no such column. */
  function ColumnValue(r: Shifted, code: nat, name: string): (v: Option<Value>)
    requires RowShape(r)
    ensures v.None? <==> name !in RenamedColumns
  {
    match Encoding.IndexOf(RenamedColumns, name)
    case None => None
    case Some(p) => Some(FrameValues(r, code)[p])
  }

  lemma ShortNamesPlaced()
    ensures forall k :: 0 <= k < IndicatorCount ==> RenamedColumns[3 + IndicatorCount + k] == ShortLagNames[k]
    ensures RenamedColumns[2] == "GDP_Growth_Rate" && RenamedColumns[|RenamedColumns| - 1] == "Country_Encoded"
  {
  }

  /** Every column name of the renamed frame selects the cell at its own position. */
  lemma ColumnAt(r: Shifted, code: nat, p: nat)
    requires RowShape(r) && p < |RenamedColumns|
    ensures ColumnValue(r, code, RenamedColumns[p]) == Some(FrameValues(r, code)[p])
  {
    RenamedDistinct();
  }

  /** After renaming, each lag is reached by its feature name, and the encoded country by `Country_Encoded`. */
  lemma ColumnsAfterRename(r: Shifted, code: nat)
    requires RowShape(r)
    ensures ColumnValue(r, code, "Country_Encoded") == Some(Number(Some(code as real)))
    ensures ColumnValue(r, code, "GDP_Growth_Rate") == Some(Number(r.obs.gdpGrowth))
    ensures forall k :: 0 <= k < IndicatorCount ==> ColumnValue(r, code, ShortLagNames[k]) == Some(Number(r.lags[k]))
  {
    ShortNamesPlaced();
    forall k | 0 <= k < IndicatorCount
      ensures ColumnValue(r, code, ShortLagNames[k]) == Some(Number(r.lags[k]))
    {
      ColumnAt(r, code, 3 + IndicatorCount + k);
    }
    ColumnAt(r, code, |RenamedColumns| - 1);
    ColumnAt(r, code, 2);
  }

  /** What `prepare_features` returns besides the encoder: the selected features and the target. */
  datatype Prepared = Prepared(x: seq<seq<Value>>, y: seq<Value>)

  datatype PrepareError =
    | EncodingFailed(cause: Encoding.EncodeError)
    | MissingColumns(names: seq<string>)

  function CountryNames(df: seq<Shifted>): seq<string> {
    seq(|df|, i requires 0 <= i < |df| => df[i].obs.country)
  }

  /** `df[features]` then `df[target]`: an absent feature column fails first, then an absent target. */
  function Select(df: seq<Shifted>, codes: seq<nat>, features: seq<string>, target: string)
    : (r: Result<Prepared, PrepareError>)
    requires TableShape(df) && |codes| == |df|
    ensures r.Err? <==> (exists f :: f in features && f !in RenamedColumns) || target !in RenamedColumns
    ensures r.Err? ==> r.error.MissingColumns? && r.error.names != []
    ensures r.Err? && (exists f :: f in features && f !in RenamedColumns) ==>
      forall f :: f in r.error.names <==> f in features && f !in RenamedColumns
    ensures r.Err? && (forall f :: f in features ==> f in RenamedColumns) ==> r.error.names == [target]
    ensures r.Ok? ==> |r.value.x| == |df| && |r.value.y| == |df|
    ensures r.Ok? ==> forall i :: 0 <= i < |df| ==>
      |r.value.x[i]| == |features|
      && (forall j :: 0 <= j < |features| ==> Some(r.value.x[i][j]) == ColumnValue(df[i], codes[i], features[j]))
      && Some(r.value.y[i]) == ColumnValue(df[i], codes[i], target)
  {
    var absent := (f: string) => f !in RenamedColumns;
    var missing := Filter(absent, features);
    FilterMembers(absent, features);
    if missing != [] then
      assert missing[0] in missing;
      Err(MissingColumns(missing))
    else if target !in RenamedColumns then
      Err(MissingColumns([target]))
    else
      Ok(Prepared(
        seq(|df|, i requires 0 <= i < |df| =>
          seq(|features|, j requires 0 <= j < |features| => ColumnValue(df[i], codes[i], features[j]).value)),
        seq(|df|, i requires 0 <= i < |df| => ColumnValue(df[i], codes[i], target).value)))
  }

  /** Every feature column and the target column exist after the renaming. */
  predicate Selectable(features: seq<string>, target: string) {
    (forall f :: f in features ==> f in RenamedColumns) && target in RenamedColumns
  }

  /** `prepare_features` given the outcome of encoding the Country column. */
  function Prepare(df: seq<Shifted>, encoded: Result<seq<nat>, Encoding.EncodeError>,
                   features: seq<string>, target: string): (r: Result<Prepared, PrepareError>)
    requires TableShape(df)
    requires encoded.Ok? ==> |encoded.value| == |df|
    ensures (r.Err? && r.error.EncodingFailed?) <==> encoded.Err?
    ensures encoded.Err? ==> r.error.cause == encoded.error
    ensures r.Err? && r.error.MissingColumns? <==> encoded.Ok? && !Selectable(features, target)
    ensures r.Ok? ==> encoded.Ok? && |r.value.x| == |df| && |r.value.y| == |df|
  {
    match encoded
    case Err(e) => Err(EncodingFailed(e))
    case Ok(codes) => Select(df, codes, features, target)
  }

  /** `prepare_features` with an encoder already fitted to `classes`. */
  function PrepareWith(df: seq<Shifted>, classes: seq<string>, features: seq<string>, target: string)
    : (r: Result<Prepared, PrepareError>)
    requires TableShape(df)
    ensures r.Ok? ==> |r.value.x| == |df| && |r.value.y| == |df|
  {
    Prepare(df, Encoding.Encode(classes, CountryNames(df)), features, target)
  }

  /** The cells of row `i` of a successful preparation are read from the renamed frame with the row's code. */
  lemma PreparedRow(df: seq<Shifted>, classes: seq<string>, features: seq<string>, target: string, i: nat)
    requires TableShape(df) && PrepareWith(df, classes, features, target).Ok? && i < |df|
    ensures Encoding.Encode(classes, CountryNames(df)).Ok?
    ensures var p := PrepareWith(df, classes, features, target).value;
      var code := Encoding.Encode(classes, CountryNames(df)).value[i];
      |p.x[i]| == |features|
      && (forall j :: 0 <= j < |features| ==> Some(p.x[i][j]) == ColumnValue(df[i], code, features[j]))
      && Some(p.y[i]) == ColumnValue(df[i], code, target)
  {
  }

  /** In row `i` of a successful preparation, a selected lag feature holds that lag. */
  lemma PreparedLagCell(df: seq<Shifted>, classes: seq<string>, features: seq<string>, target: string,
                        i: nat, j: nat, k: nat)
    requires TableShape(df) && PrepareWith(df, classes, features, target).Ok? && i < |df|
    requires j < |features| && k < IndicatorCount && features[j] == ShortLagNames[k]
    ensures PrepareWith(df, classes, features, target).value.x[i][j] == Number(df[i].lags[k])
  {
    PreparedRow(df, classes, features, target, i);
    ColumnsAfterRename(df[i], Encoding.Encode(classes, CountryNames(df)).value[i]);
  }

  /** In row `i` of a successful preparation, a selected `Country_Encoded` holds the row's code, and the target `GDP_Growth_Rate` the row's growth. */
  lemma PreparedCodeCell(df: seq<Shifted>, classes: seq<string>, features: seq<string>, target: string,
                         i: nat, j: nat)
    requires TableShape(df) && PrepareWith(df, classes, features, target).Ok? && i < |df|
    requires j < |features| && features[j] == "Country_Encoded"
    ensures Encoding.Encode(classes, CountryNames(df)).Ok?
    ensures |PrepareWith(df, classes, features, target).value.x[i]| == |features|
    ensures PrepareWith(df, classes, features, target).value.x[i][j]
      == Number(Some(Encoding.Encode(classes, CountryNames(df)).value[i] as real))
    ensures target == "GDP_Growth_Rate" ==>
      PrepareWith(df, classes, features, target).value.y[i] == Number(df[i].obs.gdpGrowth)
  {
    PreparedRow(df, classes, features, target, i);
    ColumnsAfterRename(df[i], Encoding.Encode(classes, CountryNames(df)).value[i]);
  }

  /** The encoded column of a successful preparation holds each row's index in the class list. */
  lemma PreparedCodes(df: seq<Shifted>, classes: seq<string>, features: seq<string>, target: string)
    requires TableShape(df) && PrepareWith(df, classes, features, target).Ok?
    requires "Country_Encoded" in features
    ensures forall i :: 0 <= i < |df| ==> df[i].obs.country in classes
    ensures var p := PrepareWith(df, classes, features, target).value;
      forall i, j :: 0 <= i < |df| && 0 <= j < |features| && features[j] == "Country_Encoded" ==>
        Encoding.IndexOf(classes, df[i].obs.country).Some?
        && p.x[i][j] == Number(Some(Encoding.IndexOf(classes, df[i].obs.country).value as real))
  {
    var names := CountryNames(df);
    var encoded := Encoding.Encode(classes, names);
    assert encoded.Ok?;
    var p := PrepareWith(df, classes, features, target).value;
    forall i, j | 0 <= i < |df| && 0 <= j < |features| && features[j] == "Country_Encoded"
      ensures Encoding.IndexOf(classes, df[i].obs.country).Some?
        && p.x[i][j] == Number(Some(Encoding.IndexOf(classes, df[i].obs.country).value as real))
    {
      var code := encoded.value[i];
      assert code == Encoding.IndexOf(classes, names[i]).value;
      ColumnsAfterRename(df[i], code);
      assert p.x[i][j] == Number(Some(code as real));
    }
  }

  /**
   * A fitted encoder rejects the table exactly when one of its countries is
   * not among the classes, and reports precisely those countries.
   */
  lemma PrepareWithUnseen(df: seq<Shifted>, classes: seq<string>, features: seq<string>, target: string)
    requires TableShape(df)
    ensures var r := PrepareWith(df, classes, features, target);
      (r.Err? && r.error.EncodingFailed?) <==> exists t :: t in df && t.obs.country !in classes
    ensures var r := PrepareWith(df, classes, features, target);
      r.Err? && r.error.EncodingFailed? ==>
        r.error.cause.UnseenLabels?
        && forall c :: c in r.error.cause.labels <==> (exists t :: t in df && t.obs.country == c) && c !in classes
  {
    var names := CountryNames(df);
    forall c ensures c in names <==> exists t :: t in df && t.obs.country == c {
      if c in names {
        var i :| 0 <= i < |names| && names[i] == c;
        assert df[i] in df;
      }
      if t :| t in df && t.obs.country == c {
        var i :| 0 <= i < |df| && df[i] == t;
        assert names[i] == c;
      }
    }
    assert |names| == |df| && forall i :: 0 <= i < |df| ==> names[i] == df[i].obs.country && df[i] in df;
    assert (forall i :: 0 <= i < |names| ==> names[i] in classes) <==> forall t :: t in df ==> t.obs.country in classes;
  }

  /**
   * `prepare_features` as written: with no encoder a fresh one is created
   * and fitted whatever `fitEncoder` says; otherwise the given encoder is
   * fitted again or only applied.
   */
  method PrepareFeatures(df: seq<Shifted>, encoder: Encoding.LabelEncoder?, fitEncoder: bool,
                         features: seq<string>, target: string)
    returns (r: Result<Prepared, PrepareError>, enc: Encoding.LabelEncoder)
    requires TableShape(df)
    modifies encoder
    ensures encoder == null ==> fresh(enc)
    ensures encoder != null ==> enc == encoder
    ensures encoder == null || fitEncoder ==>
      enc.fitted && enc.classes == Encoding.SortedDistinct(CountryNames(df))
      && r == PrepareWith(df, enc.classes, features, target)
    ensures encoder != null && !fitEncoder ==>
      enc.fitted == old(encoder.fitted) && enc.classes == old(encoder.classes)
      && r == Prepare(df, if enc.fitted then Encoding.Encode(enc.classes, CountryNames(df))
                          else Err(Encoding.NotFitted), features, target)
  {
    var fit := fitEncoder;
    if encoder == null {
      enc := new Encoding.LabelEncoder();
      fit := true;
    } else {
      enc := encoder;
    }
    var names := CountryNames(df);
    var encoded: Result<seq<nat>, Encoding.EncodeError>;
    if fit {
      var codes := enc.FitTransform(names);
      encoded := Ok(codes);
    } else {
      encoded := enc.Transform(names);
    }
    r := Prepare(df, encoded, features, target);
  }

  /** Fit the encoder on `train` and prepare both parts with it (`prepare_features` twice). */
  function FitAndApply(train: seq<Shifted>, test: seq<Shifted>, features: seq<string>, target: string)
    : (r: Result<(Prepared, Prepared), PrepareError>)
    requires TableShape(train) && TableShape(test)
    ensures r.Ok? ==> |r.value.0.x| == |r.value.0.y| == |train| && |r.value.1.x| == |r.value.1.y| == |test|
  {
    var classes := Encoding.SortedDistinct(CountryNames(train));
    match PrepareWith(train, classes, features, target)
    case Err(e) => Err(e)
    case Ok(a) =>
      match PrepareWith(test, classes, features, target)
      case Err(e) => Err(e)
      case Ok(b) => Ok((a, b))
  }

  /** The classes fitted on a table are its countries. */
  lemma ClassesOf(df: seq<Shifted>)
    ensures forall c :: c in Encoding.SortedDistinct(CountryNames(df)) <==> exists u :: u in df && u.obs.country == c
  {
    var names := CountryNames(df);
    forall c ensures c in names <==> exists u :: u in df && u.obs.country == c {
      if c in names {
        var i :| 0 <= i < |names| && names[i] == c;
        assert df[i] in df;
      }
      if u :| u in df && u.obs.country == c {
        var i :| 0 <= i < |df| && df[i] == u;
        assert names[i] == c;
      }
    }
  }

  /**
   * With the selected columns present, fitting on `train` and reusing the
   * encoder on `test` fails exactly when a test row's country never occurs in
   * `train`, and then names those countries.
   */
  lemma FitOnTrainRejectsUnseen(train: seq<Shifted>, test: seq<Shifted>, features: seq<string>, target: string)
    requires TableShape(train) && TableShape(test)
    requires forall f :: f in features ==> f in RenamedColumns
    requires target in RenamedColumns
    ensures var r := FitAndApply(train, test, features, target);
      r.Err? <==> exists t :: t in test && forall u :: u in train ==> u.obs.country != t.obs.country
    ensures var r := FitAndApply(train, test, features, target);
      r.Err? ==>
        r.error.EncodingFailed? && r.error.cause.UnseenLabels?
        && forall c :: c in r.error.cause.labels <==>
             (exists t :: t in test && t.obs.country == c) && forall u :: u in train ==> u.obs.country != c
  {
    FitAndApplyOutcome(train, test, features, target);
    EncodeWithTrainClasses(train, test, features, target);
  }

  /** The test half of `FitOnTrainRejectsUnseen`, stated for the test preparation alone. */
  lemma EncodeWithTrainClasses(train: seq<Shifted>, test: seq<Shifted>, features: seq<string>, target: string)
    requires TableShape(test)
    ensures var rt := PrepareWith(test, Encoding.SortedDistinct(CountryNames(train)), features, target);
      (rt.Err? && rt.error.EncodingFailed?) <==>
        exists t :: t in test && forall u :: u in train ==> u.obs.country != t.obs.country
    ensures var rt := PrepareWith(test, Encoding.SortedDistinct(CountryNames(train)), features, target);
      rt.Err? && rt.error.EncodingFailed? ==>
        rt.error.cause.UnseenLabels?
        && forall c :: c in rt.error.cause.labels <==>
             (exists t :: t in test && t.obs.country == c) && forall u :: u in train ==> u.obs.country != c
  {
    var classes := Encoding.SortedDistinct(CountryNames(train));
    PrepareWithUnseen(test, classes, features, target);
    var rt := PrepareWith(test, classes, features, target);
    forall t | t in test ensures t.obs.country !in classes <==> forall u :: u in train ==> u.obs.country != t.obs.country {
      AbsentFromClasses(train, t.obs.country);
    }
    if rt.Err? && rt.error.EncodingFailed? {
      var labels := rt.error.cause.labels;
      forall c ensures c in labels <==> (exists t :: t in test && t.obs.country == c) && forall u :: u in train ==> u.obs.country != c {
        AbsentFromClasses(train, c);
      }
    }
  }

  /** A name is not among the classes fitted on `df` exactly when no row of `df` has it. */
  lemma AbsentFromClasses(df: seq<Shifted>, c: string)
    ensures c !in Encoding.SortedDistinct(CountryNames(df)) <==> forall u :: u in df ==> u.obs.country != c
  {
    ClassesOf(df);
  }

  /** With the columns present, the train half succeeds, so only the test half can fail, and only in encoding. */
  lemma FitAndApplyOutcome(train: seq<Shifted>, test: seq<Shifted>, features: seq<string>, target: string)
    requires TableShape(train) && TableShape(test)
    requires forall f :: f in features ==> f in RenamedColumns
    requires target in RenamedColumns
    ensures var classes := Encoding.SortedDistinct(CountryNames(train));
      var r := FitAndApply(train, test, features, target);
      var rt := PrepareWith(test, classes, features, target);
      (r.Err? <==> rt.Err?) && (r.Err? ==> r.error == rt.error && rt.error.EncodingFailed?)
  {
    Encoding.FitThenEncode(CountryNames(train));
  }

  /** Steps 2 to 4 of the training pipeline: lag, split, fit the encoder on train, reuse it on test. */
  function TrainTestFeatures(df: seq<Observation>, splitYear: int, features: seq<string>, target: string)
    : (r: Result<(Prepared, Prepared), PrepareError>)
    requires WellFormed(df)
    ensures r.Ok? ==>
      |r.value.0.x| + |r.value.1.x| == |LaggedFeatures(df)|
      && |r.value.0.y| + |r.value.1.y| == |LaggedFeatures(df)|
  {
    LaggedShape(df);
    var lagged := LaggedFeatures(df);
    var parts := TemporalSplit(lagged, splitYear);
    assert |parts.0| + |parts.1| == |lagged|;
    FitAndApply(parts.0, parts.1, features, target)
  }

  /** Every row of the lagged table has six indicator and six lag cells. */
  lemma LaggedShape(df: seq<Observation>)
    requires WellFormed(df)
    ensures TableShape(LaggedFeatures(df))
    ensures forall t :: t in LaggedFeatures(df) ==> RowShape(t)
  {
    var out := LaggedFeatures(df);
    var sorted := SortByCountryYear(df);
    var ix := LaggedOrigin(df);
    SortedWellFormed(df);
    forall j | 0 <= j < |out| ensures RowShape(out[j]) {
      assert out[j].lags == sorted[ix[j] - 1].indicators;
    }
  }

  /** A test-period country absent from the training years aborts the training pipeline. */
  lemma TestOnlyCountryAborts(df: seq<Observation>, splitYear: int, features: seq<string>, target: string)
    requires WellFormed(df)
    requires forall f :: f in features ==> f in RenamedColumns
    requires target in RenamedColumns
    ensures var parts := TemporalSplit(LaggedFeatures(df), splitYear);
      TrainTestFeatures(df, splitYear, features, target).Err? <==>
        exists t :: t in parts.1 && forall u :: u in parts.0 ==> u.obs.country != t.obs.country
    ensures var r := TrainTestFeatures(df, splitYear, features, target);
      r.Err? ==> r.error.EncodingFailed? && r.error.cause.UnseenLabels?
  {
    LaggedShape(df);
    var parts := TemporalSplit(LaggedFeatures(df), splitYear);
    FitOnTrainRejectsUnseen(parts.0, parts.1, features, target);
  }

  /** Steps 2 to 4 of the training pipeline as written, with one encoder object shared by both calls. */
  method PrepareTrainTest(df: seq<Observation>, splitYear: int, features: seq<string>, target: string)
    returns (r: Result<(Prepared, Prepared), PrepareError>)
    requires WellFormed(df)
    ensures r == TrainTestFeatures(df, splitYear, features, target)
  {
    var lagged := CreateLaggedFeatures(df);
    LaggedShape(df);
    var parts := TemporalSplit(lagged, splitYear);
    var train, encoder := PrepareFeatures(parts.0, null, true, features, target);
    var test, _ := PrepareFeatures(parts.1, encoder, false, features, target);
    match train
    case Err(e) => r := Err(e);
    case Ok(a) =>
      match test
      case Err(e) => r := Err(e);
      case Ok(b) => r := Ok((a, b));
  }
}
