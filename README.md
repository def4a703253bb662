# CO2 prediction endpoint — a Dafny model

This project models the `POST /predict` handler of a small Flask service that estimates a
person's weekly CO2 emissions. The handler:

1. checks that the JSON body carries the eight required fields;
2. encodes the four categorical fields (`Sex`, `Pays`, `Moyen_de_transport`,
   `Classe_énergétique`) through fixed string-to-code tables;
3. builds an 8-column feature vector in a fixed order, with the four numeric fields
   (`Âge`, `Consommation_KWh`, `Nombre_de_KM`, `Surface_maison_M2`) passed through;
4. scales each column with a min-max scaler whose `min_` and `scale_` are constants;
5. calls a trained regressor on the scaled row;
6. maps the regressor's output back to kilograms with the bounds (0, 100).

Every step is pure, so the model is written as datatypes, functions and lemmas:

- `json.dfy` (`Json`): JSON values, and which of them Python can use as a dict key.
- `encoders.dfy` (`Encoders`): the four tables, built the way the source builds them (a
  literal for `Sex`, `enumerate` over a list for the other three), and the dictionary
  lookup with its two exceptions. A `KeyError` carries the looked-up value. A list or dict
  raises `TypeError`.
- `features.dfy` (`Features`): the column order, and the left-to-right evaluation of the
  list literal. The first lookup that raises ends it. Also the conversion of the mixed list
  to numbers.
- `scaling.dfy` (`Scaling`): the scaler's transform and its inverse, and the target
  denormalisation and its inverse.
- `handler.dfy` (`Handler`): `Predict`, which gives one `Outcome` per request, and
  `Respond`, which turns it into a status, a key and a payload. Also the service's own
  example request and variations of it.

The trained regressor is a parameter `model: seq<real> -> real`, so every property holds
for every model. Arithmetic is over `real`.

Three behaviours of the code worth stating:

- The invalid-category error echoes the offending value (the `KeyError` argument), not
  the field name.
- There is no dedicated invalid-number error. A numeric field that numpy cannot convert
  surfaces through the catch-all handler as a 500.
- The scaler computes `x * scale_ + min_`, not `(x - min) * scale`. With every `min_`
  zero, the two agree.

## Model

| member | source | states |
|---|---|---|
| `Encoders.Enumerate` | app.py:16-25 | the `enumerate` dict comprehension; its keys are stated by EnumerateKeys, its codes by EnumerateAt and EnumerateIsCodeTable |
| `Encoders.Lookup` | app.py:89-99 | dict indexing with its KeyError and TypeError; its contract is stated by LookupInCodeTable and LookupInjective |
| `Encoders.EnumerateKeys` | app.py:16-25 | a table built by enumerating a list has exactly the listed names as keys |
| `Encoders.EnumerateAt` | app.py:16-25 | when the names are distinct, the i-th listed name gets code i |
| `Encoders.EnumerateIsCodeTable` | app.py:16-25 | an enumerated list of distinct names gives n entries, injective, whose codes are exactly 0 .. n-1 |
| `Encoders.TablesAreCodeTables` | app.py:14-26 | each table is injective with codes exactly 0 .. n-1: Sex 2, Pays 10, Moyen_de_transport 11, Classe_énergétique 7 |
| `Encoders.KnownCodes` | app.py:15-25 | Male ↦ 1, Female ↦ 0, France ↦ 0, Voiture (diesel) ↦ 1, C ↦ 2, and A .. G ↦ 0 .. 6 |
| `Encoders.LookupInCodeTable` | app.py:89-99 | a lookup succeeds exactly for listed strings, with a code below the table size. Any other hashable value raises KeyError carrying that value. A list or dict raises TypeError |
| `Encoders.LookupInjective` | app.py:14-26 | two values that get the same code from a table are the same value |
| `Features.EncodeRow` | app.py:88-98 | the row is encoded iff every lookup succeeds, and then cell i is column i's code or raw value. Otherwise the error is that of the first failing column, in list order |
| `Features.ToFloats` | app.py:102-103 | the conversion of the encoded list to numbers; FloatsAreFeatureVector states that it succeeds exactly when the numeric fields are numbers and then yields the feature vector |
| `Scaling.Normalize` | app.py:29-31 | the scaler's transform `x * scale_ + min_`, keeping the row length; its values are stated by NormalizeDividesByRange and NormalizeRange, its inverse by UnnormalizeNormalize and NormalizeUnnormalize |
| `Scaling.Denormalize` | app.py:34-35 | the affine map of line 109; DenormalizeIsTimes100 and DenormalizeInverse state its value and inverse |
| `Scaling.NormalizeDividesByRange` | app.py:29-31 | each normalised column is the raw value divided by the column's assumed range 1, 100, 70, 3000, 10, 20000, 6, 500 |
| `Scaling.NormalizeRange` | app.py:31 | a value inside its column's range maps into [0, 1]. Values outside it are not clipped |
| `Scaling.UnnormalizeNormalize` | app.py:29-31 | the scaler's inverse transform undoes its transform |
| `Scaling.NormalizeUnnormalize` | app.py:29-31 | the scaler's transform undoes its inverse transform |
| `Scaling.DenormalizeIsTimes100` | app.py:34-35 | denormalising with the bounds (0, 100) multiplies by 100 |
| `Scaling.DenormalizeInverse` | app.py:109 | denormalisation and target scaling are mutually inverse, and denormalisation preserves order |
| `Handler.Predict` | app.py:72-114 | the handler's outcome for one request; PredictMissing, PredictOk, PredictInvalidCategorical, ErrorsIgnoreModel and ExtraFieldsIgnored state it |
| `Handler.Respond` | app.py:84-114 | the status, key and payload of each reply; RespondStatus and MissingReplyNamesAllFields state it |
| `Handler.RequiredAreColumnKeys` | app.py:78-97 | the required-field list and the feature vector's column order name the same 8 fields in the same order |
| `Handler.PredictMissing` | app.py:83-84 | the answer is the missing-features error with the full required list iff some required field is absent |
| `Handler.EncodedIffListed` | app.py:88-99 | with all fields present, encoding succeeds iff all four categorical values are strings listed in their tables |
| `Handler.EncodedCells` | app.py:88-97 | a successfully encoded row is [code(Sex), Âge, code(Pays), Consommation_KWh, code(transport), Nombre_de_KM, code(class), Surface_maison_M2] |
| `Handler.FloatsOfRow` | app.py:102-103 | a row with codes in the even columns converts iff its four raw values are numbers, and then yields the codes and numbers in place |
| `Handler.FloatsAreFeatureVector` | app.py:88-103 | an encoded row converts to numbers iff the four numeric fields are numbers, and is then the feature vector |
| `Handler.PredictOk` | app.py:72-112 | the answer is a prediction iff the request is valid, and the prediction is 100 × model(normalised feature vector) |
| `Handler.PredictInvalidCategorical` | app.py:87-99 | with all fields present, the answer is an invalid-categorical error carrying v iff v is the value of the first failing categorical field (Sex, Pays, transport, class) and is hashable. Numeric fields do not matter |
| `Handler.ErrorsIgnoreModel` | app.py:83-106 | an error answer is the same for every model: errors are decided before the model is called |
| `Handler.ExtraFieldsIgnored` | app.py:83-97 | fields other than the eight required ones do not change the answer |
| `Handler.RespondStatus` | app.py:84-114 | 200 only for a prediction, 400 for missing fields or an invalid category, 500 otherwise. The key is "prediction" exactly on success |
| `Handler.MissingReplyNamesAllFields` | app.py:78-84 | the missing-features reply is a 400 whose text starts with the fixed prefix and names every required field, quoted |
| `Handler.ExamplePrediction` | app.py:88-109 | the example request encodes to [1, 35, 0, 1237, 1, 1648, 2, 150], normalises to [1, 0.35, 0, 1237/3000, 0.1, 0.0824, 1/3, 0.3], and predicts 100 × model(that row) |
| `Handler.CountryReported` | app.py:88-99 | with a listed Sex, a Pays value that is hashable and not a listed country is the value the invalid-categorical error carries |
| `Handler.UnknownCountryRejected` | app.py:91-99 | Pays = "Atlantis" gives a 400 error carrying the value "Atlantis" |
| `Handler.FirstInvalidValueReported` | app.py:88-99 | with both Sex and Pays invalid, the Sex value is the one reported |
| `Handler.UnhashableCategoryIsServerError` | app.py:89-114 | a list given for Sex raises a type error, which becomes the catch-all server error |
| `Handler.MissingAgeRejected` | app.py:78-84 | a request without Âge gets the error listing all eight required fields |

## Left out

- Flask routing, CORS, `app.run`, and the `/health` and `/` endpoints: plumbing and
  static JSON with no computation. The example request of `/` is used as a constant.
- Loading the pickled model and the random forest itself: a foreign artefact. It is the
  parameter `model`, a total function on rows.
- IEEE-754 / numpy float behaviour and `reshape`: arithmetic is over `real`, so the model
  does not claim bit-exact results.
- Features.ToFloats: numpy's conversion of the mixed list is modelled only for JSON
  numbers. Booleans, which numpy turns into 0/1, and numeric strings, which it may parse,
  are treated as a conversion failure, which gives the 500 answer. So is JSON `null`:
  numpy turns it into NaN, the scaler lets NaN through, and the source's answer then
  depends on whether the regressor accepts NaN; the model answers 500.
- A request body that is not a JSON object (`get_json()` returning `None` or a list): an
  HTTP-layer concern. The body is always a map.
- The text of error replies: `Respond` carries the offending value of an invalid category
  rather than Python's `repr` of it, and the text `str(e)` of an unexpected exception is
  not modelled. The missing-features text is modelled, assuming the field names contain
  no quote or backslash (they do not).
- A failing model call: the model is total here, so the 500 answer arises only from a
  list or dict in a categorical field or a non-number in a numeric field.
