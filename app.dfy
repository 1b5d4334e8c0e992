/**
 * The prediction service's decision logic: request validation, the choice
 * between the fallback formula, the unknown-country rejection and a model
 * prediction, and the two read-only query handlers. Values in the JSON body
 * are of an abstract type `V`; Python's `str()` and `float()` on them are the
 * parameters `str` and `parse`; `parse` yields None where the conversion
 * raises `ValueError` or `TypeError`, the exceptions the validator catches.
 */
module App {
  import opened Wrappers
  import opened Text
  import opened Sequences
  import Encoding

  const RequiredFields: seq<string> :=
    ["Country", "Population", "Exports", "Imports", "Investment", "Consumption", "Govt_Spend"]

  /** Checked in this order; the first failing field alone is reported. */
  const NumericFields: seq<string> :=
    ["Population", "Exports", "Imports", "Investment", "Consumption", "Govt_Spend"]

  const RangeLow: real := -100.0
  const RangeHigh: real := 100.0

  datatype ValidationError =
    | EmptyBody
    | MissingFields(names: seq<string>)
    | InvalidCountry
    | EmptyCountry
    | NotANumber(field: string)
    | OutOfRange(field: string, value: real)

  /** The validated_data dict: the trimmed Country and the converted numeric fields. */
  datatype Validated = Validated(country: string, numbers: map<string, real>)

  predicate InRange(v: real) {
    RangeLow <= v <= RangeHigh
  }

  /** `[field for field in fields if field not in body]`. */
  function Missing<V>(fields: seq<string>, body: map<string, V>): (r: seq<string>)
    ensures forall f :: f in r <==> f in fields && f !in body
    ensures IsSubseq(r, fields)
  {
    var absent := (f: string) => f !in body;
    FilterMembers(absent, fields);
    FilterIsSubseq(absent, fields);
    Filter(absent, fields)
  }

  /** The check one numeric field gets: conversion first, then the inclusive range. */
  function FieldError(field: string, parsed: Option<real>): (e: Option<ValidationError>)
    ensures e.None? <==> parsed.Some? && -100.0 <= parsed.value <= 100.0
    ensures e.Some? ==> (e.value.NotANumber? || e.value.OutOfRange?) && e.value.field == field
    ensures e.Some? && e.value.OutOfRange? ==> parsed == Some(e.value.value)
  {
    match parsed
    case None => Some(NotANumber(field))
    case Some(v) => if InRange(v) then None else Some(OutOfRange(field, v))
  }

  /** The numeric-field loop from position `i` on, with `acc` the values stored so far. */
  function CheckFields<V>(fields: seq<string>, i: nat, body: map<string, V>, parse: V -> Option<real>,
                          acc: map<string, real>): Result<map<string, real>, ValidationError>
    requires i <= |fields| && forall f :: f in fields ==> f in body
    decreases |fields| - i
  {
    if i == |fields| then Ok(acc)
    else match FieldError(fields[i], parse(body[fields[i]]))
      case Some(e) => Err(e)
      case None => CheckFields(fields, i + 1, body, parse, acc[fields[i] := parse(body[fields[i]]).value])
  }

  /** The position of the first field from `i` on whose check fails, or `|fields|` if none fails. */
  function FirstFailing<V>(fields: seq<string>, i: nat, body: map<string, V>, parse: V -> Option<real>): (k: nat)
    requires i <= |fields| && forall f :: f in fields ==> f in body
    ensures i <= k <= |fields|
    ensures forall j :: i <= j < k ==> FieldError(fields[j], parse(body[fields[j]])).None?
    ensures k < |fields| ==> FieldError(fields[k], parse(body[fields[k]])).Some?
    decreases |fields| - i
  {
    if i == |fields| || FieldError(fields[i], parse(body[fields[i]])).Some? then i
    else FirstFailing(fields, i + 1, body, parse)
  }

  /**
   * The loop reports the first failing field's error; when no field fails it
   * stores every field's converted value and keeps the earlier entries.
   */
  lemma {:induction false} CheckFieldsOutcome<V>(fields: seq<string>, i: nat, body: map<string, V>,
                                                 parse: V -> Option<real>, acc: map<string, real>)
    requires i <= |fields| && forall f :: f in fields ==> f in body
    ensures var k := FirstFailing(fields, i, body, parse);
      k < |fields| ==>
        CheckFields(fields, i, body, parse, acc) == Err(FieldError(fields[k], parse(body[fields[k]])).value)
    ensures var k := FirstFailing(fields, i, body, parse);
      var r := CheckFields(fields, i, body, parse, acc);
      k == |fields| ==>
        r.Ok?
        && (forall f :: f in r.value <==> f in acc || f in fields[i..])
        && (forall j :: i <= j < |fields| ==> parse(body[fields[j]]) == Some(r.value[fields[j]]))
        && (forall f :: f in acc && f !in fields[i..] ==> r.value[f] == acc[f])
    decreases |fields| - i
  {
    if i < |fields| && FieldError(fields[i], parse(body[fields[i]])).None? {
      var acc' := acc[fields[i] := parse(body[fields[i]]).value];
      CheckFieldsOutcome(fields, i + 1, body, parse, acc');
      var k := FirstFailing(fields, i, body, parse);
      if k == |fields| {
        var r := CheckFields(fields, i, body, parse, acc);
        assert r == CheckFields(fields, i + 1, body, parse, acc');
        assert forall f :: f in fields[i..] <==> f == fields[i] || f in fields[i + 1..];
        forall f | f in acc && f !in fields[i..] ensures r.value[f] == acc[f] {
          assert f != fields[i];
          assert f !in fields[i + 1..];
        }
        if fields[i] !in fields[i + 1..] {
          assert r.value[fields[i]] == acc'[fields[i]];
        } else {
          var j :| 0 <= j < |fields[i + 1..]| && fields[i + 1..][j] == fields[i];
          assert fields[i + 1 + j] == fields[i];
        }
      }
    }
  }

  /** The first two rules: a non-empty body, then every required field present. */
  function CheckBody<V>(data: Option<map<string, V>>): (r: Result<map<string, V>, ValidationError>)
    ensures (r == Err(EmptyBody)) <==> (data.None? || data.value == map[])
    ensures (r.Err? && r.error.MissingFields?) <==>
      (data.Some? && data.value != map[] && exists f :: f in RequiredFields && f !in data.value)
    ensures r.Err? ==> r.error.EmptyBody? || r.error.MissingFields?
    ensures r.Err? && r.error.MissingFields? ==>
      data.Some? && (forall f :: f in r.error.names <==> f in RequiredFields && f !in data.value)
      && IsSubseq(r.error.names, RequiredFields)
    ensures r.Ok? ==> data.Some? && r.value == data.value && forall f :: f in RequiredFields ==> f in r.value
  {
    if data.None? || data.value == map[] then Err(EmptyBody)
    else
      var missing := Missing(RequiredFields, data.value);
      if missing != [] then
        assert missing[0] in missing;
        Err(MissingFields(missing))
      else
        Ok(data.value)
  }

  /** The Country rule: `str(...)` must succeed and leave something after stripping. */
  function CheckCountry<V>(value: V, str: V -> Option<string>): (r: Result<string, ValidationError>)
    ensures r == Err(InvalidCountry) <==> str(value).None?
    ensures r == Err(EmptyCountry) <==> str(value).Some? && AllSpace(str(value).value)
    ensures r.Err? ==> r.error.InvalidCountry? || r.error.EmptyCountry?
    ensures r.Ok? ==> str(value).Some? && r.value == Strip(str(value).value) && r.value != []
  {
    match str(value)
    case None => Err(InvalidCountry)
    case Some(s) =>
      var country := Strip(s);
      if country == [] then Err(EmptyCountry) else Ok(country)
  }

  /** The numeric rules, field by field in NumericFields order. */
  function CheckNumbers<V>(body: map<string, V>, parse: V -> Option<real>): (r: Result<map<string, real>, ValidationError>)
    requires forall f :: f in NumericFields ==> f in body
    ensures var k := FirstFailing(NumericFields, 0, body, parse);
      r.Err? <==> k < |NumericFields|
    ensures var k := FirstFailing(NumericFields, 0, body, parse);
      r.Err? ==> r.error == FieldError(NumericFields[k], parse(body[NumericFields[k]])).value
    ensures r.Ok? ==> forall f :: f in r.value <==> f in NumericFields
    ensures r.Ok? ==> forall f :: f in NumericFields ==> parse(body[f]) == Some(r.value[f]) && InRange(r.value[f])
  {
    NumericFieldsOutcome(body, parse);
    CheckFields(NumericFields, 0, body, parse, map[])
  }

  /** `CheckFieldsOutcome` for the whole list of numeric fields and an empty record. */
  lemma NumericFieldsOutcome<V>(body: map<string, V>, parse: V -> Option<real>)
    requires forall f :: f in NumericFields ==> f in body
    ensures var k := FirstFailing(NumericFields, 0, body, parse);
      var r := CheckFields(NumericFields, 0, body, parse, map[]);
      (r.Err? <==> k < |NumericFields|)
      && (r.Err? ==> r.error == FieldError(NumericFields[k], parse(body[NumericFields[k]])).value)
      && (r.Ok? ==> forall f :: f in r.value <==> f in NumericFields)
      && (r.Ok? ==> forall j :: 0 <= j < |NumericFields| ==> parse(body[NumericFields[j]]) == Some(r.value[NumericFields[j]]))
  {
    CheckFieldsOutcome(NumericFields, 0, body, parse, map[]);
    assert NumericFields[0..] == NumericFields;
  }

  /** `validate_prediction_input` as a value: the first failing rule decides. */
  function Validate<V>(data: Option<map<string, V>>, str: V -> Option<string>, parse: V -> Option<real>)
    : (r: Result<Validated, ValidationError>)
    ensures (r == Err(EmptyBody)) <==> (data.None? || data.value == map[])
    ensures (r.Err? && r.error.MissingFields?) <==>
      (data.Some? && data.value != map[] && exists f :: f in RequiredFields && f !in data.value)
    ensures r.Err? && r.error.MissingFields? ==>
      data.Some? && (forall f :: f in r.error.names <==> f in RequiredFields && f !in data.value)
      && IsSubseq(r.error.names, RequiredFields)
    ensures r == Err(InvalidCountry) ==>
      data.Some? && "Country" in data.value && str(data.value["Country"]).None?
    ensures r == Err(EmptyCountry) ==>
      data.Some? && "Country" in data.value && str(data.value["Country"]).Some?
      && AllSpace(str(data.value["Country"]).value)
    ensures r.Ok? ==>
      data.Some? && (forall f :: f in RequiredFields ==> f in data.value)
      && str(data.value["Country"]).Some?
      && r.value.country == Strip(str(data.value["Country"]).value) && r.value.country != []
      && (forall f :: f in r.value.numbers <==> f in NumericFields)
      && (forall f :: f in NumericFields ==>
            parse(data.value[f]) == Some(r.value.numbers[f]) && InRange(r.value.numbers[f]))
    ensures r.Ok? ==> HasNumbers(r.value)
  {
    match CheckBody(data)
    case Err(e) => Err(e)
    case Ok(body) =>
      assert "Country" in RequiredFields;
      match CheckCountry(body["Country"], str)
      case Err(e) => Err(e)
      case Ok(country) =>
        assert forall f :: f in NumericFields ==> f in RequiredFields;
        match CheckNumbers(body, parse)
        case Err(e) => Err(e)
        case Ok(numbers) => Ok(Validated(country, numbers))
  }

  /**
   * The converse of the success case: every field present, a Country that
   * is not blank and six convertible values within [-100, 100] (bounds
   * included) are accepted.
   */
  lemma ValidateAcceptsWellFormed<V>(data: Option<map<string, V>>, str: V -> Option<string>, parse: V -> Option<real>)
    requires data.Some? && forall f :: f in RequiredFields ==> f in data.value
    requires str(data.value["Country"]).Some? && !AllSpace(str(data.value["Country"]).value)
    requires forall f :: f in NumericFields ==> parse(data.value[f]).Some? && InRange(parse(data.value[f]).value)
    ensures Validate(data, str, parse).Ok?
  {
    var body := data.value;
    assert "Country" in RequiredFields;
    assert body != map[];
    assert CheckBody(data) == Ok(body);
    assert forall f :: f in NumericFields ==> f in RequiredFields;
    assert forall k :: 0 <= k < |NumericFields| ==> FieldError(NumericFields[k], parse(body[NumericFields[k]])).None?;
  }

  /**
   * A request that passes the structural checks and whose first failing
   * numeric field is `NumericFields[k]` is rejected for that field alone.
   */
  lemma ValidateReportsFirstFailingField<V>(data: Option<map<string, V>>, str: V -> Option<string>,
                                            parse: V -> Option<real>, k: nat)
    requires data.Some? && forall f :: f in RequiredFields ==> f in data.value
    requires str(data.value["Country"]).Some? && Strip(str(data.value["Country"]).value) != []
    requires k < |NumericFields|
    requires forall j :: 0 <= j < k ==> FieldError(NumericFields[j], parse(data.value[NumericFields[j]])).None?
    requires FieldError(NumericFields[k], parse(data.value[NumericFields[k]])).Some?
    ensures Validate(data, str, parse) == Err(FieldError(NumericFields[k], parse(data.value[NumericFields[k]])).value)
  {
    var body := data.value;
    assert "Country" in body;
    assert CheckBody(data) == Ok(body);
    assert forall f :: f in NumericFields ==> f in body;
    var first := FirstFailing(NumericFields, 0, body, parse);
    assert first == k;
  }

  /** A numeric error is only ever reported after the structural checks passed, for the first failing field. */
  lemma ValidateNumericErrorIsFirst<V>(data: Option<map<string, V>>, str: V -> Option<string>, parse: V -> Option<real>)
    requires var r := Validate(data, str, parse); r.Err? && (r.error.NotANumber? || r.error.OutOfRange?)
    ensures data.Some? && (forall f :: f in RequiredFields ==> f in data.value)
    ensures str(data.value["Country"]).Some? && Strip(str(data.value["Country"]).value) != []
    ensures var k := FirstFailing(NumericFields, 0, data.value, parse);
      k < |NumericFields|
      && Validate(data, str, parse) == Err(FieldError(NumericFields[k], parse(data.value[NumericFields[k]])).value)
  {
    assert CheckBody(data).Ok?;
    var body := data.value;
    assert "Country" in RequiredFields;
    assert CheckCountry(body["Country"], str).Ok?;
    assert forall f :: f in NumericFields ==> f in RequiredFields;
  }

  /** `validate_prediction_input` as written: the loop fills validated_data field by field. */
  method ValidatePredictionInput<V>(data: Option<map<string, V>>, str: V -> Option<string>, parse: V -> Option<real>)
    returns (r: Result<Validated, ValidationError>)
    ensures r == Validate(data, str, parse)
  {
    var checked := CheckBody(data);
    if checked.Err? {
      return Err(checked.error);
    }
    var body := checked.value;
    assert "Country" in RequiredFields;
    var country := CheckCountry(body["Country"], str);
    if country.Err? {
      return Err(country.error);
    }
    assert forall f :: f in NumericFields ==> f in RequiredFields;
    var validated: map<string, real> := map[];
    var i := 0;
    while i < |NumericFields|
      invariant 0 <= i <= |NumericFields|
      invariant CheckNumbers(body, parse) == CheckFields(NumericFields, i, body, parse, validated)
    {
      var field := NumericFields[i];
      var value := parse(body[field]);
      if value.None? {
        return Err(NotANumber(field));
      }
      if !(RangeLow <= value.value <= RangeHigh) {
        return Err(OutOfRange(field, value.value));
      }
      validated := validated[field := value.value];
      i := i + 1;
    }
    return Ok(Validated(country.value, validated));
  }

  type Regressor = seq<real> -> real

  datatype PredictResponse =
    | Rejected(error: ValidationError)
    | Simulated(growth: real)
    | UnknownCountry(country: string, available: seq<string>)
    | Predicted(growth: real, country: string)

  /** The HTTP status `/predict` answers with: 400 for a rejected request, 200 otherwise. */
  function Status(r: PredictResponse): int {
    if r.Rejected? || r.UnknownCountry? then 400 else 200
  }

  predicate HasNumbers(v: Validated) {
    forall f :: f in NumericFields ==> f in v.numbers
  }

  /** The simulation used when the model or the encoder is not loaded. */
  function FallbackGrowth(v: Validated): (growth: real)
    requires HasNumbers(v)
    ensures InRange(v.numbers["Consumption"]) && InRange(v.numbers["Exports"]) && InRange(v.numbers["Imports"])
            ==> -90.0 <= growth <= 90.0
  {
    v.numbers["Consumption"] * 0.6 + v.numbers["Exports"] * 0.2 - v.numbers["Imports"] * 0.1
  }

  /** The model input as assembled at serving time. */
  function FeatureVector(code: nat, v: Validated): (x: seq<real>)
    requires HasNumbers(v)
    ensures |x| == 1 + |NumericFields| && x[0] == code as real
    ensures forall k :: 0 <= k < |NumericFields| ==> x[k + 1] == v.numbers[NumericFields[k]]
  {
    [ code as real,
      v.numbers["Population"],
      v.numbers["Exports"],
      v.numbers["Imports"],
      v.numbers["Investment"],
      v.numbers["Consumption"],
      v.numbers["Govt_Spend"] ]
  }

  /**
   * What `/predict` does with the outcome of validation, given the model and
   * the encoder's classes as loaded at start-up (None: loading failed).
   */
  function Respond(checked: Result<Validated, ValidationError>, model: Option<Regressor>,
                   encoder: Option<seq<string>>): (r: PredictResponse)
    requires checked.Ok? ==> HasNumbers(checked.value)
    ensures r.Rejected? <==> checked.Err?
    ensures r.Rejected? ==> r.error == checked.error
    ensures r.Simulated? <==> checked.Ok? && (model.None? || encoder.None?)
    ensures r.Simulated? ==>
      r.growth == 0.6 * checked.value.numbers["Consumption"] + 0.2 * checked.value.numbers["Exports"]
                  - 0.1 * checked.value.numbers["Imports"]
    ensures r.UnknownCountry? <==>
      checked.Ok? && model.Some? && encoder.Some? && checked.value.country !in encoder.value
    ensures r.UnknownCountry? ==>
      r.country == checked.value.country
      && |r.available| == (if |encoder.value| < 10 then |encoder.value| else 10)
      && r.available == encoder.value[..|r.available|]
    ensures r.Predicted? ==>
      model.Some? && encoder.Some? && r.country == checked.value.country
      && exists code :: 0 <= code < |encoder.value| && encoder.value[code] == checked.value.country
                        && r.growth == model.value(FeatureVector(code, checked.value))
  {
    match checked
    case Err(e) => Rejected(e)
    case Ok(v) =>
      if model.None? || encoder.None? then Simulated(FallbackGrowth(v))
      else
        match Encoding.IndexOf(encoder.value, v.country)
        case None =>
          var shown := if |encoder.value| < 10 then |encoder.value| else 10;
          UnknownCountry(v.country, encoder.value[..shown])
        case Some(code) => Predicted(model.value(FeatureVector(code, v)), v.country)
  }

  /**
   * The `/predict` handler, stated against the raw request: validation comes
   * first; a valid request gets the fallback simulation when the model or
   * the encoder is missing, is rejected when the stripped Country is not a
   * class, and is otherwise scored on the feature vector of its code.
   */
  function HandlePredict<V>(data: Option<map<string, V>>, str: V -> Option<string>, parse: V -> Option<real>,
                            model: Option<Regressor>, encoder: Option<seq<string>>): (r: PredictResponse)
    ensures r.Rejected? <==> Validate(data, str, parse).Err?
    ensures r.Rejected? ==> r.error == Validate(data, str, parse).error
    ensures r.Simulated? <==> Validate(data, str, parse).Ok? && (model.None? || encoder.None?)
    ensures r.Simulated? ==>
      data.Some? && "Consumption" in data.value && "Exports" in data.value && "Imports" in data.value
      && parse(data.value["Consumption"]).Some? && parse(data.value["Exports"]).Some?
      && parse(data.value["Imports"]).Some?
      && r.growth == 0.6 * parse(data.value["Consumption"]).value + 0.2 * parse(data.value["Exports"]).value
                     - 0.1 * parse(data.value["Imports"]).value
    ensures r.UnknownCountry? <==>
      Validate(data, str, parse).Ok? && model.Some? && encoder.Some?
      && Validate(data, str, parse).value.country !in encoder.value
    ensures r.Predicted? ==>
      Validate(data, str, parse).Ok? && model.Some? && encoder.Some?
      && r.country == Validate(data, str, parse).value.country
      && r.country in encoder.value
      && Encoding.IndexOf(encoder.value, r.country).Some?
      && var code := Encoding.IndexOf(encoder.value, r.country).value;
         var regressor: Regressor := model.value;
         r.growth == regressor(FeatureVector(code, Validate(data, str, parse).value))
    ensures Status(r) == 400 <==>
      Validate(data, str, parse).Err?
      || (model.Some? && encoder.Some? && Validate(data, str, parse).value.country !in encoder.value)
  {
    var checked := Validate(data, str, parse);
    assert checked.Ok? ==> HasNumbers(checked.value);
    assert "Consumption" in NumericFields && "Exports" in NumericFields && "Imports" in NumericFields;
    Respond(checked, model, encoder)
  }

  /** Validated inputs keep the fallback simulation within [-90, 90]. */
  lemma FallbackBounded<V>(data: Option<map<string, V>>, str: V -> Option<string>, parse: V -> Option<real>,
                           model: Option<Regressor>, encoder: Option<seq<string>>)
    requires HandlePredict(data, str, parse, model, encoder).Simulated?
    ensures -90.0 <= HandlePredict(data, str, parse, model, encoder).growth <= 90.0
  {
    var v := Validate(data, str, parse).value;
    assert "Consumption" in NumericFields && "Exports" in NumericFields && "Imports" in NumericFields;
    assert InRange(v.numbers["Consumption"]) && InRange(v.numbers["Exports"]) && InRange(v.numbers["Imports"]);
  }

  /** One row of the history table served to the dashboard (None: a missing value). */
  datatype HistoryRow = HistoryRow(country: string, year: int, gdpGrowth: Option<real>,
                                   exportsGrowth: Option<real>, importsGrowth: Option<real>)

  datatype Reply<T> = Success(data: T) | Failure(status: int, message: string)

  const DataUnavailable: string := "Historical data not available"

  function CountryColumn(history: seq<HistoryRow>): seq<string> {
    seq(|history|, i requires 0 <= i < |history| => history[i].country)
  }

  /** `/api/countries`: the distinct countries, sorted; 500 when no data was loaded. */
  function GetCountries(history: seq<HistoryRow>): (r: Reply<seq<string>>)
    ensures r.Failure? <==> history == []
    ensures r.Failure? ==> r == Failure(500, DataUnavailable)
    ensures r.Success? ==> Encoding.StrictlySorted(r.data)
    ensures r.Success? ==> forall c :: c in r.data <==> exists i :: 0 <= i < |history| && history[i].country == c
  {
    if history == [] then Failure(500, DataUnavailable)
    else
      var names := CountryColumn(history);
      assert |names| == |history| && forall i :: 0 <= i < |history| ==> names[i] == history[i].country;
      Success(Encoding.SortedDistinct(names))
  }

  predicate YearLe(a: HistoryRow, b: HistoryRow) {
    a.year <= b.year
  }

  /** The rows of one country, ordered by year: `history[history['Country'] == c].sort_values('Year')`. */
  function RowsOf(c: string, history: seq<HistoryRow>): (rows: seq<HistoryRow>)
    ensures forall i :: 0 <= i < |rows| ==> rows[i].country == c
    ensures SortedBy(rows, YearLe)
    ensures forall row :: multiset(rows)[row] == if row.country == c then multiset(history)[row] else 0
  {
    var matches := (row: HistoryRow) => row.country == c;
    var kept := Filter(matches, history);
    FilterMembers(matches, history);
    assert forall row :: multiset(kept)[row] == if row.country == c then multiset(history)[row] else 0 by {
      forall row ensures multiset(kept)[row] == if row.country == c then multiset(history)[row] else 0 {
        FilterMultiplicity(matches, history, row);
      }
    }
    assert Total(YearLe) && Transitive(YearLe);
    var sorted := InsertionSort(kept, YearLe);
    assert forall i :: 0 <= i < |sorted| ==> sorted[i] in multiset(kept);
    sorted
  }

  /** A country has no rows exactly when no history row names it. */
  lemma RowsOfEmpty(c: string, history: seq<HistoryRow>)
    ensures RowsOf(c, history) == [] <==> forall i :: 0 <= i < |history| ==> history[i].country != c
  {
    var rows := RowsOf(c, history);
    if rows == [] {
      forall i | 0 <= i < |history| ensures history[i].country != c {
        assert history[i] in multiset(history);
      }
    } else {
      assert rows[0] in multiset(rows);
      assert multiset(history)[rows[0]] > 0;
      assert rows[0] in history;
    }
  }

  /** `/api/history?country=...`: the country's rows in ascending year order. */
  function GetHistory(country: Option<string>, history: seq<HistoryRow>): (r: Reply<seq<HistoryRow>>)
    ensures (country.None? || country.value == "") <==> r == Failure(400, "Missing required parameter: country")
    ensures r == Failure(500, DataUnavailable) <==> country.Some? && country.value != "" && history == []
    ensures (r.Failure? && r.status == 404) <==>
      country.Some? && country.value != "" && history != []
      && forall i :: 0 <= i < |history| ==> history[i].country != country.value
    ensures r.Failure? && r.status == 404 ==> r.message == "No data found for country: " + country.value
    ensures r.Success? ==> country.Some? && r.data != []
    ensures r.Success? ==> forall i :: 0 <= i < |r.data| ==> r.data[i].country == country.value
    ensures r.Success? ==> SortedBy(r.data, YearLe)
    ensures r.Success? ==>
      forall row :: multiset(r.data)[row] == if row.country == country.value then multiset(history)[row] else 0
  {
    if country.None? || country.value == "" then Failure(400, "Missing required parameter: country")
    else if history == [] then Failure(500, DataUnavailable)
    else
      var rows := RowsOf(country.value, history);
      RowsOfEmpty(country.value, history);
      if rows == [] then Failure(404, "No data found for country: " + country.value)
      else Success(rows)
  }
}
