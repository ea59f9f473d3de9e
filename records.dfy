/** Python dictionaries of loosely typed values, as the ingestion code reads them. */
module Records {

  /** The kinds of value a hospital record holds. A number carries the text Python's `str`
      gives it, since the model does not format floating-point numbers itself. */
  datatype Value =
    | Text(s: string)
    | Number(x: real, text: string)
    | Flag(b: bool)
    | Null
    | NotANumber

  /** A hospital record: a dictionary from field name to value. */
  type Record = map<string, Value>

  /** Python truthiness: the empty string, zero, `False` and `None` are false; NaN is true. */
  predicate Truthy(v: Value) {
    match v
    case Text(s) => s != ""
    case Number(x, _) => x != 0.0
    case Flag(b) => b
    case Null => false
    case NotANumber => true
  }

  /** `str(v)` as an f-string inserts it. */
  function Render(v: Value): string {
    match v
    case Text(s) => s
    case Number(_, text) => text
    case Flag(b) => if b then "True" else "False"
    case Null => "None"
    case NotANumber => "nan"
  }
}
