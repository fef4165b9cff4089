/**
 * The JSON values exchanged with the catalog and export endpoints, as Python's
 * `json` module decodes them, and the few Python operations the scripts apply
 * to them: `dict.get`, truthiness and `str()` of a scalar.
 */
module JsonValues {
  import opened Wrappers
  import Text

  /** A decoded JSON value. Numbers are integers (JSON fractions are not modelled). */
  datatype Json =
    | JNull
    | JBool(b: bool)
    | JInt(i: int)
    | JStr(s: string)
    | JArr(items: seq<Json>)
    | JObj(fields: map<string, Json>)
  {
    /** Python's `bool(value)`: null, false, 0, "", [] and {} are falsy. */
    predicate Truthy()
    {
      match this
      case JNull => false
      case JBool(b) => b
      case JInt(i) => i != 0
      case JStr(s) => s != ""
      case JArr(xs) => |xs| > 0
      case JObj(m) => |m| > 0
    }

    /** Values that are hashable in Python and so may be dictionary keys. */
    predicate IsScalar()
    {
      !JArr? && !JObj?
    }
  }

  /** A JSON object, as a Python dict with string keys. */
  type Record = map<string, Json>

  /** A value that can serve as a Python dictionary key. */
  type Scalar = j: Json | j.IsScalar() witness JNull

  /** Python's `record.get(key)`: a missing key reads as `None`, exactly like an explicit null. */
  function Get(r: Record, key: string): Json
  {
    if key in r then r[key] else JNull
  }

  /** Python's `record.get(key, default)`: the default is used only when the key is absent. */
  function GetOr(r: Record, key: string, default: Json): Json
  {
    if key in r then r[key] else default
  }

  /** Python's `str(value)` for a scalar: `None`, `True`/`False`, decimal digits, or the string itself. */
  function PyStr(j: Scalar): string
  {
    match j
    case JNull => "None"
    case JBool(b) => if b then "True" else "False"
    case JInt(i) => Text.Decimal(i)
    case JStr(s) => s
  }
}
