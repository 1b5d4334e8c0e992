# GDP growth prediction: request validation, lagged features and encoding

This project models the decision logic of a small GDP growth forecasting
service and its training scripts, and proves properties of that model in
Dafny.

- **Serving (`app.py`).**
  - `validate_prediction_input` is a first-failure-wins rule chain. The body
    must be non-empty and hold all seven fields. Country must not be blank
    once stripped. Each of the six numeric fields must parse and lie within
    [-100, 100], checked field by field.
  - `/predict` rejects invalid input. With no model or no encoder it uses the
    fallback simulation. Otherwise it rejects a country the encoder does not know, and
    for a known one assembles the 7-element feature vector.
  - `/api/countries` returns the sorted distinct country list.
  - `/api/history` returns one country's rows in year order. Its errors come
    in a fixed order: 400, then 500, then 404.
- **Training (`train_model.py`).**
  - `create_lagged_features` sorts by (Country, Year). It then gives every row
    the six indicators of the previous row of the same country, as `_Lag1`
    columns, and drops every row with a missing value.
  - `temporal_train_test_split` partitions the rows at a year.
  - `prepare_features` encodes Country with a label encoder, renames the lag
    columns, and selects the feature and target columns.
- **Evaluation (`evaluate_80_20_split.py`).**
  - It runs the same lagging step.
  - Its fixed seven-column feature selection matches the serving feature
    vector.
  - The temporal comparison path splits at 2019.
  - It also holds the overfitting verdict and the recommendation condition.

Modules:

| file | module | contents |
|---|---|---|
| `wrappers.dfy` | `Wrappers` | `Option`, `Result` |
| `text.dfy` | `Text` | code-point string order (Python `<` on `str`), whitespace `strip` |
| `sequences.dfy` | `Sequences` | order-preserving filter with its subsequence witness, insertion sort |
| `encoding.dfy` | `Encoding` | the label encoder: sorted distinct classes, index lookup, `transform`, the stateful encoder object |
| `app.dfy` | `App` | validator (function and loop method), `/predict` decision, `/api/countries`, `/api/history` |
| `lagging.dfy` | `Lagging` | `create_lagged_features` (function and column-adding loop) and its properties |
| `training.dfy` | `Training` | temporal split, column renaming, `prepare_features`, the train/test pipeline |
| `evaluation.dfy` | `Evaluation` | the evaluation script's preparation, both split paths, overfitting status, recommendation |

How external pieces are represented:

- JSON values are a type parameter `V`.
  - Python `float(v)` is a partial function `parse: V -> Option<real>`.
  - `str(v)` is `str: V -> Option<string>`. For a JSON object neither `data['Country']` nor `str()` of a JSON value can fail, so the "Invalid Country value" branch (app.py:196-197) is reached only by a non-object body (see "Left out"); the model keeps it as the case of a `str` that returns `None`.
  - The body is `Option<map<string, V>>`: `None` is a missing body or a falsy one (`null`, `false`, `0`, `""`, `[]`), all of which the code rejects as empty; a map is a JSON object.
- The regressor is an uninterpreted function `seq<real> -> real`.
- A loaded model or encoder is `Option<…>`, where `None` means loading failed.
- Table cells are `Option<real>`, with `None` standing for NaN, so `dropna` is modelled.
- The `FEATURE_COLUMNS`, `TARGET_COLUMN` and `TEMPORAL_SPLIT_YEAR` settings come from `config.py`. They are parameters here. `config.py` is not part of this model.

Behaviour of the code worth knowing, which the model follows:

- The lag is the previous *observed* row of the same country, which is year T−1 only when no year is missing (`Lagging.LaggedOrigin`).
- Neither split checks that a part is non-empty.
- The training pipeline fits the encoder on the training years only. A country that appears only in the test years makes `transform` fail (`Training.TestOnlyCountryAborts`).
- "Unknown country" lists only the first ten classes. It is decided in `/predict` after the fallback check, not inside the validator, so with no model or encoder any validated country gets the simulation.

## Model

| member | source | states |
|---|---|---|
| App.Missing | app.py:184 | a field is reported missing iff it is required and absent from the body; the list keeps `required_fields` order (a subsequence) |
| App.FirstFailing | app.py:205-216 | the index of the first numeric field that fails to parse or is out of range; every earlier field passes |
| App.FieldError | app.py:207-216 | one numeric field's check: no error iff it parses and lies in [-100, 100]; otherwise NotANumber or OutOfRange for that field, the latter carrying the parsed value |
| App.CheckFields | app.py:205-216 | the field loop as a recursive function; it has no contract of its own, and its meaning is proved in `App.CheckFieldsOutcome` |
| App.CheckFieldsOutcome | app.py:205-216 | the loop over numeric fields fails exactly when some field fails, and then with that first field's error; otherwise the record holds every field's parsed value |
| App.CheckBody | app.py:179-186 | an empty or absent body gives EmptyBody; otherwise missing fields give MissingFields listing exactly the absent ones, in order |
| App.CheckCountry | app.py:191-197 | an unconvertible Country gives InvalidCountry, a whitespace-only one EmptyCountry; otherwise the stripped, non-empty name |
| App.CheckNumbers | app.py:199-216 | an error iff some numeric field fails, reported for the first such field; on success the six values, parsed and in [-100, 100] |
| App.Validate | app.py:159-218 | the whole rule chain in order: empty body first, missing fields next (before any type or range problem), then Country, then the numeric fields; success yields the stripped country and exactly six in-range values |
| App.ValidateAcceptsWellFormed | app.py:159-218 | conversely, a complete body with a non-blank Country and six parseable values within the inclusive bounds is accepted |
| App.ValidateReportsFirstFailingField | app.py:205-216 | once earlier checks pass, the error is the first failing numeric field's: NotANumber if it does not parse, OutOfRange with its value otherwise |
| App.ValidateNumericErrorIsFirst | app.py:205-216 | a numeric error names a field all of whose predecessors parsed and were in range |
| App.ValidatePredictionInput | app.py:159-218 | the imperative validator, with early returns from the field loop, computes exactly `Validate` |
| App.FeatureVector | app.py:282-290 | seven values: the country code, then the six numeric fields in Population, Exports, Imports, Investment, Consumption, Govt_Spend order |
| App.Respond | app.py:245-300 | invalid input is rejected with its error; a missing model or encoder gives the fallback 0.6·Consumption + 0.2·Exports − 0.1·Imports with no country check; an unknown country lists at most the first ten classes; otherwise the prediction of the feature vector built from the country's code |
| App.HandlePredict | app.py:222-300 | on the raw request: rejected (status 400) with the validator's error iff validation fails; the simulation iff valid and the model or encoder is missing, with growth 0.6·Consumption + 0.2·Exports − 0.1·Imports of the parsed request values; unknown country (status 400) iff valid, both loaded and the stripped Country not a class; otherwise status 200 and the regressor's value on the feature vector of that class's index |
| App.Status | app.py:245-300 | the HTTP status of each `/predict` outcome: 400 for a rejection or an unknown country, 200 otherwise; no contract of its own, its use is stated in `App.HandlePredict` |
| App.FallbackGrowth | app.py:258-264 | the simulation 0.6·Consumption + 0.2·Exports − 0.1·Imports; with the three inputs in [-100, 100] it lies within [-90, 90] |
| App.FallbackBounded | app.py:258-264 | with validated inputs the fallback growth lies within [-90, 90] |
| App.GetCountries | app.py:106-113 | 500 when no data is loaded; otherwise a strictly sorted list holding exactly the countries of the table |
| App.RowsOf | app.py:141 | the rows of one country: all of that country, in ascending year order, each with its multiplicity in the table |
| App.RowsOfEmpty | app.py:141-143 | no rows are selected exactly when no row names the country |
| App.GetHistory | app.py:127-150 | 400 when the parameter is missing or empty (checked before data availability), 500 when no data is loaded, 404 when no row matches; otherwise a non-empty, year-ordered list of exactly that country's rows |
| Text.Strip | app.py:193 | `strip()`: empty iff the string is all whitespace; otherwise it starts and ends with a non-space character and is a contiguous slice of the input |
| Text.Less | app.py:111 | Python `<` on `str`, the order of `sorted` and of the encoder's classes; no contract of its own, it is a strict total order by `Text.LessIrreflexive`, `Text.LessTransitive` and `Text.LessTotal` |
| Encoding.SortedDistinct | train_model.py:112 | the fitted classes: strictly sorted and holding exactly the distinct names |
| Encoding.StrictlySortedUnique | train_model.py:112 | a strictly sorted list is determined by its elements, so the classes are unique |
| Encoding.IndexOf | train_model.py:114 | a name's code is a valid index holding that name; there is none iff the name is not a class |
| Encoding.IndexOfClass | train_model.py:114 | on sorted classes, encoding the name at index i gives i back |
| Encoding.Encode | train_model.py:114 | `transform` succeeds iff every name is a class, giving each name its index; otherwise it fails with an `UnseenLabels` error whose non-empty payload holds exactly the unseen names, sorted (an abstraction of the library's message, see "Left out") |
| Encoding.FitThenEncode | train_model.py:112 | `fit_transform` never fails: names always encode under the classes fitted on them |
| Encoding.CodesInjective | train_model.py:112-114 | two rows get equal codes iff they hold the same country |
| Encoding.LabelEncoder.Fit | train_model.py:112 | fitting sets the classes to the sorted distinct names and marks the encoder fitted |
| Encoding.LabelEncoder.Transform | train_model.py:114 | an unfitted encoder fails; a fitted one computes `Encode` on its classes |
| Encoding.LabelEncoder.FitTransform | train_model.py:112 | fits, then returns the codes `Encode` gives on the new classes |
| Lagging.SortByCountryYear | train_model.py:41 | a permutation of the table ordered by (Country, Year) |
| Lagging.Lags | train_model.py:54-56 | a row's six lag cells: all missing when no earlier row of its country exists, otherwise that previous row's indicators |
| Lagging.Shift | train_model.py:54-56 | the table with the lag cells added, one row per input row; what it holds is proved in `Lagging.LaggedOrigin` |
| Lagging.ShiftColumn | train_model.py:56 | column k of `groupby('Country')[f].shift(1)`: at each row, cell k of that row's lag cells |
| Lagging.AddColumn | train_model.py:56 | `df[name] = column`: same rows and row count, each row's lag cells extended by its cell of the column |
| Lagging.PrevOfCountry | train_model.py:56 | the last earlier row of the same country, if there is one: no row in between and none before it belongs to that country |
| Lagging.CreateLaggedFeatures | train_model.py:27-66 | the sort, the loop adding one lag column per indicator, then `dropna`, computes exactly `LaggedFeatures` |
| Lagging.PrevIsAdjacent | train_model.py:41-56 | on the sorted table the group's previous row is the immediately preceding row, and a row that opens its country's block has none: the shift never crosses a country boundary |
| Lagging.LaggedOrigin | train_model.py:41-62 | each output row is a sorted row, in increasing position, that has a same-country predecessor and is complete; its lags are that predecessor's indicators; conversely every such row is kept |
| Lagging.LaggedSorted | train_model.py:41 | the output stays ordered by (Country, Year) |
| Lagging.LaggedFeatures | train_model.py:27-66 | the output never has more rows than the input (the exact count is `Lagging.LaggedCount`) |
| Lagging.LaggedRowsFromInput | train_model.py:41-61 | every output row carries an input row unchanged and has no missing value |
| Lagging.SingleRowCountryDropped | train_model.py:58-62 | a country with at most one row contributes no output row |
| Lagging.GroupStartsCountCountries | train_model.py:41-56 | on the sorted table the number of rows that open a country block equals the number of distinct countries |
| Lagging.LaggedCount | train_model.py:58-62 | with no other missing values, the output has as many rows as the input less the number of distinct countries |
| Training.TemporalSplit | train_model.py:83-84 | train rows all earlier than the split year, test rows all at or after it; membership in each part iff the year condition; together they hold every row once, so their sizes add up to the table's; each keeps input order |
| Training.SplitDisjoint | train_model.py:83-84 | no row is in both parts |
| Training.Rename | train_model.py:126 | `rename` on one column name: a name outside the mapping is unchanged (the mapped names are covered by `Training.RenameLagColumns`) |
| Training.RenameLagColumns | train_model.py:117-126 | the mapping sends each of the six long lag names to its short feature name, renames nothing else, and is injective |
| Training.RenamedFrame | train_model.py:112-126 | renaming the frame's columns (with `Country_Encoded` added) gives the sixteen column names of the prepared frame |
| Training.RenamedDistinct | train_model.py:126 | the renamed frame has no duplicate column |
| Training.ColumnValue | train_model.py:129-130 | selecting a column fails iff the renamed frame has no column of that name |
| Training.ColumnsAfterRename | train_model.py:112-130 | after renaming, each short lag name selects that row's lag, `Country_Encoded` its code and `GDP_Growth_Rate` its growth |
| Training.Select | train_model.py:129-130 | a missing feature column is reported (all of them) before a missing target; success yields one feature row per table row, with each selected cell read from the renamed frame |
| Training.Prepare | train_model.py:111-132 | fails with an encoding error iff encoding failed, carrying its cause; fails with missing columns iff encoding succeeded and a feature or the target column is absent after renaming; on success one feature row and one target per table row |
| Training.FitAndApply | train_model.py:200-201 | on success the train part has one row per training row and the test part one per test row |
| Training.TrainTestFeatures | train_model.py:193-201 | on success the train and test parts together hold as many rows as the lagged table |
| Training.PrepareWith | train_model.py:94-132 | `prepare_features` with an encoder fitted to given classes; on success one feature row and one target per table row |
| Training.PreparedCodes | train_model.py:112-130 | on success every row's country is a class and its `Country_Encoded` cell is `IndexOf` of its country in the class list |
| Training.PrepareWithUnseen | train_model.py:114 | with a fitted encoder, preparation fails with an encoding error iff some row's country is not a class, with an `UnseenLabels` payload holding exactly the unseen countries (an abstraction of the library's message) |
| Training.PrepareFeatures | train_model.py:94-132 | a null encoder is replaced by a fresh one that is fitted, whatever `fit_encoder` says; fitting sets the classes to the table's countries; otherwise the encoder is left unchanged and only applied |
| Training.ClassesOf | train_model.py:112 | the classes fitted on a table are exactly its countries |
| Training.FitOnTrainRejectsUnseen | train_model.py:200-201 | with the columns present, fitting on train and reusing on test fails iff some test country is absent from train |
| Training.TestOnlyCountryAborts | train_model.py:193-201 | in the training pipeline, a country present only in the test years aborts the run, and any failure of the pipeline is then an encoding error for unseen labels |
| Training.LaggedShape | train_model.py:54-56 | every row of the lagged table has six indicator and six lag cells |
| Training.PrepareTrainTest | train_model.py:193-201 | the pipeline as written, with one encoder object shared by both calls, computes exactly `TrainTestFeatures` |
| Evaluation.EvalColumnsPresent | evaluate_80_20_split.py:69-80 | the seven columns are `Country_Encoded` then the six short lag names, and they and the target all exist after renaming |
| Evaluation.EvalRowCells | evaluate_80_20_split.py:46-82 | each prepared row has seven cells: the row's code, then its six lags in order; y is the row's GDP growth |
| Evaluation.EvalRowMatchesPredict | evaluate_80_20_split.py:69-80 | a prepared row equals the serving feature vector built from the same country's code and the row's lags under the request field names |
| Evaluation.EvalPrepare | evaluate_80_20_split.py:46-82 | with an encoder fitted to given classes, preparation fails iff some row's country is not a class, and only with an encoding error; on success one feature row and one target per row |
| Evaluation.RandomPathFeatures | evaluate_80_20_split.py:197 | fitting on the whole lagged table, preparation never fails and keeps every row |
| Evaluation.TemporalPathFeatures | evaluate_80_20_split.py:230-240 | on success the train part has one row per pre-2019 row and the two parts together one per lagged row |
| Evaluation.TemporalPathScope | evaluate_80_20_split.py:231-240 | the temporal path fits on a subset of the countries and fails iff a country occurs only from 2019 on |
| Evaluation.FitThenApply | evaluate_80_20_split.py:239-240 | preparing the training years with a fresh encoder fitted on them, then the test years with that same encoder and no refit, yields exactly `Training.FitAndApply`: both halves encoded with the training countries |
| Evaluation.PrepareTemporal | evaluate_80_20_split.py:231-240 | the temporal path as written computes exactly `TemporalPathFeatures` |
| Evaluation.PrepareBothPaths | evaluate_80_20_split.py:187-240 | after lagging, the random path and the temporal path compute their specifications on the lagged table |
| Evaluation.OverfitStatus | evaluate_80_20_split.py:118-126 | good iff the gap is below 0.1, slight iff it is in [0.1, 0.2), significant iff it is 0.2 or more |
| Evaluation.OverfitMonotone | evaluate_80_20_split.py:118-126 | a larger gap never gives a milder verdict |
| Evaluation.Recommendation | evaluate_80_20_split.py:305-307 | the block runs iff the random-split test R² exceeds the temporal one, and the reported difference is then positive |

## Left out

- HTTP plumbing is not modelled: Flask routing, CORS, JSON serialisation, the `except Exception` handlers that turn unexpected errors into 500, and `app.run`. Handlers are modelled as decision functions.
- File I/O is not modelled: `joblib.load`/`dump`, `pd.read_csv` and the column projection plus renaming when the history table is loaded. The loaded model, encoder classes and history rows are parameters.
- The RandomForest fit, predict and feature importances are not modelled, and neither are the metrics (R², RMSE, MAE, MAPE). The regressor is an uninterpreted function, and metric values are inputs to `Evaluation.OverfitStatus` and `Evaluation.Recommendation`.
- The 80/20 `train_test_split` with `random_state=42` is left out. It depends on a library pseudo-random generator; the model prepares the whole table, which is what is split.
- Printing, plots, the comparison table and the report text are left out, since they are presentation only.
- `round(x, 2)` on the returned growth is left out (floating point).
- App.Validate: Python `float()` details such as "nan", "inf" and booleans are not modelled; `parse` is abstract, and its `None` stands only for the `ValueError` and `TypeError` that app.py:215 catches. `float()` of a JSON integer too large for a double raises `OverflowError`, which escapes the validator and becomes a 500 through the handler's `except Exception`; that path is not modelled.
- The error message texts and the `required_fields` list sent with a 400 are not modelled. Each validation error is a `ValidationError` constructor carrying the same information as its message (the missing names in order, the failing field, the out-of-range value).
- Encoding.Encode: the `UnseenLabels` payload is the sorted set of every unseen name, which abstracts the library's error. Current scikit-learn `LabelEncoder.transform` on strings stops at the first unseen value in row order and names only that one; releases up to 0.21 named the sorted set. The model's payload is that full set; the name the current library reports is one of its elements, and which one is not modelled.
- Truthy JSON bodies that are not objects are not modelled. A non-empty array or string reaches the `field not in data` test (element or substring membership): if some field name is not an element or substring it is rejected as missing fields; if all are, `data['Country']` raises `TypeError` inside the `try` and the answer is "Invalid Country value". A non-zero number or `true` makes the membership test raise `TypeError` outside the validator's `try`, and the handler's `except Exception` answers 500.
- Floating point is modelled by exact reals: request values, table cells, the fallback formula of `App.FallbackGrowth` and the R² values. Results can differ from Python's in the last bits.
- Evaluation.OverfitStatus: the gap is an exact difference, so a gap within rounding error of 0.1 or 0.2 can be judged differently: in Python `0.3 - 0.2` is slightly below 0.1 and judged good, in the model it is exactly 0.1 and slight.
- Lagging.SortByCountryYear: among rows with equal (Country, Year) the model's insertion sort fixes one order, while pandas' default sort promises none. The contract states only sortedness and permutation, which pandas' result also has.
- Lagging.Observation: the table's remaining numeric columns are kept as unnamed cells. They take part in `dropna` but cannot be selected by name.
- Missing values in Country or Year are not modelled. Both are typed as always present.
- Training.PrepareFeatures: the `Country_Encoded` column that pandas writes into the caller's frame in place is modelled on values. The model does not show that the caller's frame changes.
- Training.Select: the contents of pandas' `KeyError` message are not modelled, only the names missing.
- `verify_ml_model.py` and `test_refactored_api.py` are HTTP clients of a running server, and are not part of this model. Their checks (400 for a missing, non-numeric or out-of-range field) are covered by the `App.Validate` properties.
- `evaluate_model` in `train_model.py` only prints metrics and is not modelled.
