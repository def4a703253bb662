/** The body of the prediction endpoint: required-key check, categorical encoding, feature
    vector, normalisation, model call and denormalisation, with the error each step can
    produce, and the HTTP reply each outcome becomes. */
module Handler {
  import opened Json
  import opened Encoders
  import opened Features
  import opened Scaling

  /** The fields every request must carry, in the order the 400 message lists them. */
  const Required: seq<string> := [
    "Sex", "Âge", "Pays", "Consommation_KWh",
    "Moyen_de_transport", "Nombre_de_KM",
    "Classe_énergétique", "Surface_maison_M2"
  ]

  /** What one request ends in. */
  datatype Outcome =
    | Ok(prediction: real)                  // 200, the denormalised estimate
    | MissingFeatures(required: seq<string>) // 400, lists every required field
    | InvalidCategorical(value: JVal)        // 400, echoes the offending value
    | ServerError                            // 500, any other exception

  /** Every required field is a key of the body. */
  predicate AllPresent(body: Body)
  {
    forall k :: k in Required ==> k in body
  }

  /** The trained regressor, applied to one normalised row. */
  type Model = seq<real> -> real

  function Predict(body: Body, model: Model): (o: Outcome)
  {
    if !AllPresent(body) then MissingFeatures(Required)
    else
      RequiredAreColumnKeys();
      match EncodeRow(Columns, body)
      case Rejected(UnknownCategory(v)) => InvalidCategorical(v)
      case Rejected(UnhashableCategory) => ServerError
      case Encoded(cells) =>
        match ToFloats(cells)
        case None => ServerError
        case Some(x) => Ok(Denormalize(model(Normalize(x))))
  }

  /** The required-field list and the model's column order name the same fields in the
      same order. */
  lemma RequiredAreColumnKeys()
    ensures |Required| == |Columns| == |Scale| == 8
    ensures forall i :: 0 <= i < |Columns| ==> Columns[i].key == Required[i]
  {
  }

  // ---------------------------------------------------------------------------
  // The request spelled out field by field, as the list literal of the handler reads it.

  predicate Listed(v: JVal, t: Table)
  {
    v.Str? && v.s in t
  }

  /** Every categorical value is a string listed in its table. */
  predicate CategoriesListed(body: Body)
    requires AllPresent(body)
  {
    && Listed(body["Sex"], SexCodes)
    && Listed(body["Pays"], CountryCodes)
    && Listed(body["Moyen_de_transport"], TransportCodes)
    && Listed(body["Classe_énergétique"], EnergyClassCodes)
  }

  /** Every numeric field is a JSON number. */
  predicate NumbersGiven(body: Body)
    requires AllPresent(body)
  {
    && body["Âge"].Num?
    && body["Consommation_KWh"].Num?
    && body["Nombre_de_KM"].Num?
    && body["Surface_maison_M2"].Num?
  }

  /** All fields present, every categorical value listed in its table, and every numeric
      field a JSON number. */
  predicate ValidRequest(body: Body)
  {
    AllPresent(body) && CategoriesListed(body) && NumbersGiven(body)
  }

  /** [code(Sex), Âge, code(Pays), Consommation_KWh, code(transport), Nombre_de_KM,
      code(class), Surface_maison_M2]. */
  function FeatureVector(body: Body): seq<real>
    requires ValidRequest(body)
  {
    [ SexCodes[body["Sex"].s] as real,
      body["Âge"].n,
      CountryCodes[body["Pays"].s] as real,
      body["Consommation_KWh"].n,
      TransportCodes[body["Moyen_de_transport"].s] as real,
      body["Nombre_de_KM"].n,
      EnergyClassCodes[body["Classe_énergétique"].s] as real,
      body["Surface_maison_M2"].n ]
  }

  // ---------------------------------------------------------------------------
  // Properties of the pipeline.

  /** A request lacking any required field is answered with the full required list, and
      only such a request is. */
  lemma PredictMissing(body: Body, model: Model)
    ensures Predict(body, model) == MissingFeatures(Required) <==> !AllPresent(body)
    ensures Predict(body, model).MissingFeatures? ==> Predict(body, model).required == Required
  {
  }

  /** With every field present, the four lookups succeed exactly when the four categorical
      values are listed in their tables. */
  lemma EncodedIffListed(body: Body)
    requires AllPresent(body)
    ensures HasKeys(Columns, body)
    ensures EncodeRow(Columns, body).Encoded? <==> CategoriesListed(body)
  {
    RequiredAreColumnKeys();
    ColumnEncodable(body);
    var e := EncodeRow(Columns, body);
    if !e.Encoded? {
      var i :| 0 <= i < 8 && !Encodable(Columns[i], body);
      assert i == 0 || i == 2 || i == 4 || i == 6;
    }
  }

  /** Column by column, which lookups succeed. */
  lemma ColumnEncodable(body: Body)
    requires AllPresent(body)
    ensures HasKeys(Columns, body)
    ensures Encodable(Columns[0], body) <==> Listed(body["Sex"], SexCodes)
    ensures Encodable(Columns[2], body) <==> Listed(body["Pays"], CountryCodes)
    ensures Encodable(Columns[4], body) <==> Listed(body["Moyen_de_transport"], TransportCodes)
    ensures Encodable(Columns[6], body) <==> Listed(body["Classe_énergétique"], EnergyClassCodes)
    ensures forall i :: 0 <= i < 8 && i % 2 == 1 ==> Encodable(Columns[i], body)
  {
    RequiredAreColumnKeys();
  }

  /** The encoded row, cell by cell: the four codes and the four raw numeric values. */
  lemma EncodedCells(body: Body)
    requires AllPresent(body) && CategoriesListed(body)
    ensures HasKeys(Columns, body) && EncodeRow(Columns, body).Encoded?
    ensures EncodeRow(Columns, body).cells == [
      Code(SexCodes[body["Sex"].s]),
      Raw(body["Âge"]),
      Code(CountryCodes[body["Pays"].s]),
      Raw(body["Consommation_KWh"]),
      Code(TransportCodes[body["Moyen_de_transport"].s]),
      Raw(body["Nombre_de_KM"]),
      Code(EnergyClassCodes[body["Classe_énergétique"].s]),
      Raw(body["Surface_maison_M2"])]
  {
    RequiredAreColumnKeys();
    EncodedIffListed(body);
    var cells := EncodeRow(Columns, body).cells;
    assert cells[0] == CellOf(Columns[0], body);
    assert cells[1] == CellOf(Columns[1], body);
    assert cells[2] == CellOf(Columns[2], body);
    assert cells[3] == CellOf(Columns[3], body);
    assert cells[4] == CellOf(Columns[4], body);
    assert cells[5] == CellOf(Columns[5], body);
    assert cells[6] == CellOf(Columns[6], body);
    assert cells[7] == CellOf(Columns[7], body);
  }

  /** A row of the feature vector's shape (codes in the even columns, raw values in the odd
      ones) converts exactly when the four raw values are numbers, column by column. */
  lemma FloatsOfRow(c0: nat, c2: nat, c4: nat, c6: nat, v1: JVal, v3: JVal, v5: JVal, v7: JVal)
    ensures ToFloats([Code(c0), Raw(v1), Code(c2), Raw(v3), Code(c4), Raw(v5), Code(c6), Raw(v7)]).Some?
      <==> v1.Num? && v3.Num? && v5.Num? && v7.Num?
    ensures v1.Num? && v3.Num? && v5.Num? && v7.Num? ==>
      ToFloats([Code(c0), Raw(v1), Code(c2), Raw(v3), Code(c4), Raw(v5), Code(c6), Raw(v7)]).value
      == [c0 as real, v1.n, c2 as real, v3.n, c4 as real, v5.n, c6 as real, v7.n]
  {
    var cells := [Code(c0), Raw(v1), Code(c2), Raw(v3), Code(c4), Raw(v5), Code(c6), Raw(v7)];
    ToFloatsCellwise(cells);
    assert Convertible(cells[0]) && Convertible(cells[2]) && Convertible(cells[4]) && Convertible(cells[6]);
    assert cells[1] == Raw(v1) && cells[3] == Raw(v3) && cells[5] == Raw(v5) && cells[7] == Raw(v7);
    if v1.Num? && v3.Num? && v5.Num? && v7.Num? {
      forall i | 0 <= i < 8 ensures Convertible(cells[i]) {
        assert i % 2 == 0 || i in {1, 3, 5, 7};
      }
      var x := ToFloats(cells).value;
      assert x[0] == c0 as real && x[1] == v1.n && x[2] == c2 as real && x[3] == v3.n;
      assert x[4] == c4 as real && x[5] == v5.n && x[6] == c6 as real && x[7] == v7.n;
    }
  }

  /** Once encoded, the row converts to numbers exactly when the four numeric fields are
      JSON numbers, and then it is the feature vector. */
  lemma FloatsAreFeatureVector(body: Body)
    requires AllPresent(body) && CategoriesListed(body)
    ensures HasKeys(Columns, body) && EncodeRow(Columns, body).Encoded?
    ensures ToFloats(EncodeRow(Columns, body).cells).Some? <==> NumbersGiven(body)
    ensures NumbersGiven(body) ==>
      ToFloats(EncodeRow(Columns, body).cells).value == FeatureVector(body)
  {
    EncodedCells(body);
    FloatsOfRow(SexCodes[body["Sex"].s], CountryCodes[body["Pays"].s],
      TransportCodes[body["Moyen_de_transport"].s], EnergyClassCodes[body["Classe_énergétique"].s],
      body["Âge"], body["Consommation_KWh"], body["Nombre_de_KM"], body["Surface_maison_M2"]);
  }

  /** The pipeline succeeds exactly on valid requests, and then answers 100 times the
      model's output on the normalised feature vector. */
  lemma PredictOk(body: Body, model: Model)
    ensures Predict(body, model).Ok? <==> ValidRequest(body)
    ensures ValidRequest(body) ==>
      Predict(body, model).prediction == 100.0 * model(Normalize(FeatureVector(body)))
  {
    if AllPresent(body) {
      EncodedIffListed(body);
      if CategoriesListed(body) {
        FloatsAreFeatureVector(body);
      }
    }
  }

  /** At most one column can be the first failing one. */
  lemma FirstFailureUnique(cols: seq<Column>, body: Body, i: int, j: int)
    requires HasKeys(cols, body)
    requires FirstFailure(cols, body, i) && FirstFailure(cols, body, j)
    ensures i == j
  {
  }

  /** With every field present, the answer is an invalid-categorical error carrying v exactly
      when v is the value of the first categorical field, in the order Sex, Pays,
      Moyen_de_transport, Classe_énergétique, that is not listed in its table and is not a
      list or dict. Numeric fields play no part, whatever they hold. */
  lemma PredictInvalidCategorical(body: Body, model: Model, v: JVal)
    requires AllPresent(body)
    ensures HasKeys(Columns, body)
    ensures Predict(body, model) == InvalidCategorical(v) <==>
      exists i :: FirstFailure(Columns, body, i) && Hashable(v) && v == body[Columns[i].key]
    ensures forall i :: FirstFailure(Columns, body, i) ==>
      Columns[i].Categorical? && !Listed(body[Columns[i].key], Columns[i].table)
  {
    RequiredAreColumnKeys();
    var e := EncodeRow(Columns, body);
    if e.Rejected? {
      var j :| FirstFailure(Columns, body, j) && e.error == ErrorOf(Columns[j], body);
      forall i | FirstFailure(Columns, body, i) ensures i == j {
        FirstFailureUnique(Columns, body, i, j);
      }
    }
  }

  /** Whatever ends in an error never reaches the model: every other model gives the same
      answer. */
  lemma ErrorsIgnoreModel(body: Body, m1: Model, m2: Model)
    ensures !Predict(body, m1).Ok? ==> Predict(body, m2) == Predict(body, m1)
  {
  }

  /** Two bodies that agree on the columns encode the same way. */
  lemma {:induction false} EncodeRowAgrees(cols: seq<Column>, b1: Body, b2: Body)
    requires HasKeys(cols, b1) && HasKeys(cols, b2)
    requires forall i :: 0 <= i < |cols| ==> b1[cols[i].key] == b2[cols[i].key]
    ensures EncodeRow(cols, b1) == EncodeRow(cols, b2)
    decreases |cols|
  {
    if cols != [] {
      EncodeRowAgrees(cols[1..], b1, b2);
    }
  }

  /** Fields beyond the eight required ones have no effect on the answer. */
  lemma ExtraFieldsIgnored(body: Body, model: Model)
    ensures Predict(body, model) ==
      Predict(map k | k in body && k in Required :: body[k], model)
  {
    var small := map k | k in body && k in Required :: body[k];
    assert AllPresent(body) <==> AllPresent(small);
    if AllPresent(body) {
      RequiredAreColumnKeys();
      EncodeRowAgrees(Columns, body, small);
    }
  }

  // ---------------------------------------------------------------------------
  // The HTTP reply.

  /** What the JSON reply carries under its single key. */
  datatype Payload =
    | Number(kg: real)
    | Text(text: string)
    | TextWithValue(prefix: string, value: JVal)   // the prefix followed by the value's repr
    | ExceptionText                                // str(e) of an exception not modelled here

  datatype Reply = Reply(status: nat, key: string, payload: Payload)

  /** Python's `repr` of a list of strings that contain no quote or backslash. */
  function Quote(s: string): string
  {
    "'" + s + "'"
  }

  function JoinQuoted(names: seq<string>): string
  {
    if names == [] then ""
    else if |names| == 1 then Quote(names[0])
    else Quote(names[0]) + ", " + JoinQuoted(names[1..])
  }

  function ListRepr(names: seq<string>): string
  {
    "[" + JoinQuoted(names) + "]"
  }

  const MissingPrefix: string := "Missing features. Required: "
  const InvalidPrefix: string := "Invalid categorical value: "

  function Respond(o: Outcome): Reply
  {
    match o
    case Ok(r) => Reply(200, "prediction", Number(r))
    case MissingFeatures(req) => Reply(400, "error", Text(MissingPrefix + ListRepr(req)))
    case InvalidCategorical(v) => Reply(400, "error", TextWithValue(InvalidPrefix, v))
    case ServerError => Reply(500, "error", ExceptionText)
  }

  /** A 200 reply carries the prediction, a 400 reply a client error, a 500 reply a server
      fault; the key is "prediction" exactly on success. */
  lemma RespondStatus(o: Outcome)
    ensures Respond(o).status == 200 <==> o.Ok?
    ensures Respond(o).status == 400 <==> o.MissingFeatures? || o.InvalidCategorical?
    ensures Respond(o).status == 500 <==> o.ServerError?
    ensures Respond(o).key == "prediction" <==> o.Ok?
    ensures o.Ok? ==> Respond(o).payload == Number(o.prediction)
  {
  }

  /** sub occurs in s as a contiguous piece. */
  predicate Occurs(sub: string, s: string)
  {
    exists i | 0 <= i <= |s| :: OccursAt(sub, s, i)
  }

  predicate OccursAt(sub: string, s: string, i: int)
  {
    0 <= i && i + |sub| <= |s| && s[i..i + |sub|] == sub
  }

  lemma OccursInConcat(sub: string, a: string, b: string)
    ensures Occurs(sub, a) ==> Occurs(sub, a + b)
    ensures Occurs(sub, b) ==> Occurs(sub, a + b)
  {
    if Occurs(sub, a) {
      var i :| 0 <= i <= |a| && OccursAt(sub, a, i);
      OccursAtLeft(sub, a, b, i);
    }
    if Occurs(sub, b) {
      var i :| 0 <= i <= |b| && OccursAt(sub, b, i);
      OccursAtRight(sub, a, b, i);
    }
  }

  lemma OccursAtLeft(sub: string, a: string, b: string, i: int)
    requires OccursAt(sub, a, i)
    ensures OccursAt(sub, a + b, i)
  {
    assert (a + b)[i..i + |sub|] == a[i..i + |sub|];
  }

  lemma OccursAtRight(sub: string, a: string, b: string, i: int)
    requires OccursAt(sub, b, i)
    ensures OccursAt(sub, a + b, |a| + i)
  {
    assert (a + b)[|a| + i..|a| + i + |sub|] == b[i..i + |sub|];
  }

  /** Every listed name appears, quoted, in the joined list. */
  lemma {:induction false} JoinQuotedNamesAll(names: seq<string>, j: int)
    requires 0 <= j < |names|
    ensures Occurs(Quote(names[j]), JoinQuoted(names))
    decreases |names|
  {
    var q := Quote(names[j]);
    if |names| == 1 {
      assert JoinQuoted(names)[0..|q|] == q;
      assert OccursAt(q, JoinQuoted(names), 0);
    } else if j == 0 {
      assert q[0..|q|] == q;
      assert OccursAt(q, q, 0);
      OccursInConcat(q, Quote(names[0]), ", ");
      OccursInConcat(q, Quote(names[0]) + ", ", JoinQuoted(names[1..]));
    } else {
      JoinQuotedNamesAll(names[1..], j - 1);
      OccursInConcat(q, Quote(names[0]) + ", ", JoinQuoted(names[1..]));
    }
  }

  /** The missing-fields reply names every required field, quoted, after the fixed prefix. */
  lemma MissingReplyNamesAllFields(body: Body, model: Model)
    requires !AllPresent(body)
    ensures Respond(Predict(body, model)).status == 400
    ensures Respond(Predict(body, model)).payload.Text?
    ensures forall k :: k in Required ==> Occurs(Quote(k), Respond(Predict(body, model)).payload.text)
    ensures MissingPrefix <= Respond(Predict(body, model)).payload.text
  {
    var text := MissingPrefix + ListRepr(Required);
    forall k | k in Required ensures Occurs(Quote(k), text) {
      var j :| 0 <= j < |Required| && Required[j] == k;
      JoinQuotedNamesAll(Required, j);
      OccursInConcat(Quote(k), "[", JoinQuoted(Required));
      OccursInConcat(Quote(k), "[" + JoinQuoted(Required), "]");
      OccursInConcat(Quote(k), MissingPrefix, ListRepr(Required));
    }
  }

  // ---------------------------------------------------------------------------
  // The example request of the service's home page and four variations of it.

  const ExampleBody: Body := map[
    "Sex" := Str("Male"),
    "Âge" := Num(35.0),
    "Pays" := Str("France"),
    "Consommation_KWh" := Num(1237.0),
    "Moyen_de_transport" := Str("Voiture (diesel)"),
    "Nombre_de_KM" := Num(1648.0),
    "Classe_énergétique" := Str("C"),
    "Surface_maison_M2" := Num(150.0)
  ]

  /** The example encodes to [1, 35, 0, 1237, 1, 1648, 2, 150], normalises to
      [1, 0.35, 0, 1237/3000, 0.1, 0.0824, 1/3, 0.3], and the answer is 100 times the
      model's output on that row. */
  lemma ExamplePrediction(model: Model)
    ensures ValidRequest(ExampleBody)
    ensures FeatureVector(ExampleBody) == [1.0, 35.0, 0.0, 1237.0, 1.0, 1648.0, 2.0, 150.0]
    ensures Normalize(FeatureVector(ExampleBody)) ==
      [1.0, 0.35, 0.0, 1237.0 / 3000.0, 0.1, 0.0824, 1.0 / 3.0, 0.3]
    ensures Predict(ExampleBody, model) ==
      Ok(100.0 * model([1.0, 0.35, 0.0, 1237.0 / 3000.0, 0.1, 0.0824, 1.0 / 3.0, 0.3]))
  {
    ExampleFeatures();
    ExampleNormalized();
    PredictOk(ExampleBody, model);
  }

  lemma ExampleFeatures()
    ensures ValidRequest(ExampleBody)
    ensures FeatureVector(ExampleBody) == [1.0, 35.0, 0.0, 1237.0, 1.0, 1648.0, 2.0, 150.0]
  {
    KnownCodes();
    assert AllPresent(ExampleBody);
  }

  lemma ExampleNormalized()
    ensures Normalize([1.0, 35.0, 0.0, 1237.0, 1.0, 1648.0, 2.0, 150.0]) ==
      [1.0, 0.35, 0.0, 1237.0 / 3000.0, 0.1, 0.0824, 1.0 / 3.0, 0.3]
  {
    var n := Normalize([1.0, 35.0, 0.0, 1237.0, 1.0, 1648.0, 2.0, 150.0]);
    assert n == [1.0, 0.35, 0.0, 1237.0 / 3000.0, 0.1, 0.0824, 1.0 / 3.0, 0.3];
  }

  /** An unknown country is reported by its value. */
  lemma UnknownCountryRejected(model: Model)
    ensures Predict(ExampleBody["Pays" := Str("Atlantis")], model) == InvalidCategorical(Str("Atlantis"))
    ensures Respond(Predict(ExampleBody["Pays" := Str("Atlantis")], model)).status == 400
  {
    var body := ExampleBody["Pays" := Str("Atlantis")];
    assert AllPresent(body);
    AtlantisUnlisted();
    assert body["Sex"] == Str("Male") && body["Pays"] == Str("Atlantis");
    CountryReported(body, model);
  }

  /** With a valid Sex, a Pays value that is not a listed country (and not a list or dict)
      is the value the error reports. */
  lemma CountryReported(body: Body, model: Model)
    requires AllPresent(body) && Listed(body["Sex"], SexCodes)
    requires Hashable(body["Pays"]) && !Listed(body["Pays"], CountryCodes)
    ensures Predict(body, model) == InvalidCategorical(body["Pays"])
  {
    ColumnEncodable(body);
    assert FirstFailure(Columns, body, 2) by {
      assert Encodable(Columns[0], body) && Encodable(Columns[1], body);
    }
    PredictInvalidCategorical(body, model, body["Pays"]);
  }

  lemma AtlantisUnlisted()
    ensures "Atlantis" !in CountryCodes
  {
    EnumerateKeys(Countries);
  }

  /** When both Sex and Pays are invalid, the value of Sex, read first, is the one reported. */
  lemma FirstInvalidValueReported(model: Model)
    ensures Predict(ExampleBody["Sex" := Str("Other")]["Pays" := Str("Atlantis")], model)
      == InvalidCategorical(Str("Other"))
  {
    var body := ExampleBody["Sex" := Str("Other")]["Pays" := Str("Atlantis")];
    assert AllPresent(body);
    ColumnEncodable(body);
    assert body["Sex"] == Str("Other") && "Other" !in SexCodes;
    assert FirstFailure(Columns, body, 0);
    PredictInvalidCategorical(body, model, Str("Other"));
  }

  /** A list where a category is expected raises a type error, which becomes a 500. */
  lemma UnhashableCategoryIsServerError(model: Model)
    ensures Predict(ExampleBody["Sex" := Arr([])], model) == ServerError
  {
    var body := ExampleBody["Sex" := Arr([])];
    assert AllPresent(body);
    RequiredAreColumnKeys();
    assert !Encodable(Columns[0], body);
  }

  /** A request without Âge is answered with the list of all eight required fields. */
  lemma MissingAgeRejected(model: Model)
    ensures Predict(ExampleBody - {"Âge"}, model) == MissingFeatures(Required)
    ensures |Predict(ExampleBody - {"Âge"}, model).required| == 8
  {
    assert "Âge" in Required && "Âge" !in ExampleBody - {"Âge"};
  }
}
