/** The scalar JSON-like values that mail dictionaries and data-frame cells hold. */
module PyValue {
  import opened PyStr

  datatype Value = Null | Bool(b: bool) | Int(i: int) | Str(s: string)

  /** Python's truth value of a scalar. */
  predicate Truthy(v: Value) {
    match v
    case Null => false
    case Bool(b) => b
    case Int(i) => i != 0
    case Str(s) => s != ""
  }

  /** `str(v)`, as an f-string renders the value. */
  function StrOf(v: Value): (r: string)
    ensures v.Str? ==> r == v.s
  {
    match v
    case Null => "None"
    case Bool(b) => if b then "True" else "False"
    case Int(i) => IntToString(i)
    case Str(s) => s
  }

  /** `d.get(key, default)`. */
  function Get(d: map<string, Value>, key: string, default: Value): Value {
    if key in d then d[key] else default
  }
}
