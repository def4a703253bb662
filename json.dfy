/** The decoded JSON request body that the prediction endpoint receives.
    Numbers are modelled as reals; the model makes no claim about IEEE-754 rounding. */
module Json {

  /** One JSON value as the Python decoder hands it over (None, bool, int/float, str, list, dict). */
  datatype JVal =
    | Null
    | Bool(b: bool)
    | Num(n: real)
    | Str(s: string)
    | Arr(items: seq<JVal>)
    | Obj(fields: map<string, JVal>)

  /** The request object: field name to value. */
  type Body = map<string, JVal>

  /** Python can use the value as a dict key: lists and dicts are unhashable,
      so looking them up raises TypeError instead of KeyError. */
  predicate Hashable(v: JVal)
  {
    !v.Arr? && !v.Obj?
  }
}
