/** The feature vector: the fixed column order of the trained model, the left-to-right
    evaluation of the list literal that encodes a request, and the conversion of the
    resulting mixed list into a numeric array. */
module Features {
  import opened Json
  import opened Encoders

  datatype Option<T> = None | Some(value: T)

  /** One column of the model's input: a categorical field read through its table,
      or a numeric field passed through as the client sent it. */
  datatype Column =
    | Categorical(key: string, table: Table)
    | Numeric(key: string)

  /** The model's column order. */
  const Columns: seq<Column> := [
    Categorical("Sex", SexCodes),
    Numeric("Âge"),
    Categorical("Pays", CountryCodes),
    Numeric("Consommation_KWh"),
    Categorical("Moyen_de_transport", TransportCodes),
    Numeric("Nombre_de_KM"),
    Categorical("Classe_énergétique", EnergyClassCodes),
    Numeric("Surface_maison_M2")
  ]

  /** One element of the encoded list before conversion: a table code or a raw JSON value. */
  datatype Cell = Code(code: nat) | Raw(value: JVal)

  /** Why encoding a request stopped: the exception raised by the first failing lookup. */
  datatype EncodeError =
    | UnknownCategory(value: JVal)   // KeyError carrying the offending value
    | UnhashableCategory             // TypeError: a list or dict used as a key

  datatype Encoding = Encoded(cells: seq<Cell>) | Rejected(error: EncodeError)

  predicate HasKeys(cols: seq<Column>, body: Body)
  {
    forall i :: 0 <= i < |cols| ==> cols[i].key in body
  }

  /** The column's lookup succeeds (numeric columns are only read, which cannot fail). */
  predicate Encodable(col: Column, body: Body)
    requires col.key in body
  {
    col.Numeric? || Lookup(col.table, body[col.key]).Found?
  }

  /** Column i is the first whose lookup fails. */
  predicate FirstFailure(cols: seq<Column>, body: Body, i: int)
    requires HasKeys(cols, body)
  {
    && 0 <= i < |cols|
    && !Encodable(cols[i], body)
    && forall j :: 0 <= j < i ==> Encodable(cols[j], body)
  }

  /** The exception a failing lookup raises. */
  function ErrorOf(col: Column, body: Body): EncodeError
    requires col.key in body && !Encodable(col, body)
  {
    if Hashable(body[col.key]) then UnknownCategory(body[col.key]) else UnhashableCategory
  }

  /** The cell a successful column produces: the table code, or the raw value. */
  function CellOf(col: Column, body: Body): Cell
    requires col.key in body && Encodable(col, body)
  {
    match col
    case Categorical(key, table) => Code(table[body[key].s])
    case Numeric(key) => Raw(body[key])
  }

  /** Evaluates the list literal element by element, left to right; the first lookup that
      raises ends the evaluation with its exception. */
  function EncodeRow(cols: seq<Column>, body: Body): (r: Encoding)
    requires HasKeys(cols, body)
    ensures r.Encoded? <==> forall i :: 0 <= i < |cols| ==> Encodable(cols[i], body)
    ensures r.Encoded? ==> |r.cells| == |cols|
    ensures r.Encoded? ==> forall i :: 0 <= i < |cols| ==> r.cells[i] == CellOf(cols[i], body)
    ensures r.Rejected? ==>
      exists i :: FirstFailure(cols, body, i) && r.error == ErrorOf(cols[i], body)
    decreases |cols|
  {
    if cols == [] then Encoded([])
    else if !Encodable(cols[0], body) then Rejected(ErrorOf(cols[0], body))
    else
      var rest := EncodeRow(cols[1..], body);
      assert forall i :: 1 <= i < |cols| ==> cols[i] == cols[1..][i - 1];
      match rest
      case Encoded(cells) => Encoded([CellOf(cols[0], body)] + cells)
      case Rejected(e) =>
        assert exists i :: FirstFailure(cols[1..], body, i) && e == ErrorOf(cols[1..][i], body);
        var i :| FirstFailure(cols[1..], body, i) && e == ErrorOf(cols[1..][i], body);
        assert FirstFailure(cols, body, i + 1);
        Rejected(e)
  }

  /** The number numpy makes of one cell; only JSON numbers are modelled as convertible. */
  predicate Convertible(c: Cell)
  {
    c.Code? || c.value.Num?
  }

  function ValueOf(c: Cell): real
    requires Convertible(c)
  {
    if c.Code? then c.code as real else c.value.n
  }

  /** `np.array(encoded_features)` followed by the conversion to floats: the whole row
      converts, or the conversion raises. */
  function ToFloats(cells: seq<Cell>): Option<seq<real>>
  {
    if forall i :: 0 <= i < |cells| ==> Convertible(cells[i])
    then Some(seq(|cells|, i requires 0 <= i < |cells| => ValueOf(cells[i])))
    else None
  }

  /** The conversion read cell by cell, for proofs about a concrete row. */
  lemma ToFloatsCellwise(cells: seq<Cell>)
    ensures ToFloats(cells).Some? <==> forall i :: 0 <= i < |cells| ==> Convertible(cells[i])
    ensures ToFloats(cells).Some? ==> |ToFloats(cells).value| == |cells|
    ensures ToFloats(cells).Some? ==>
      forall i :: 0 <= i < |cells| ==> ToFloats(cells).value[i] == ValueOf(cells[i])
  {
  }
}
