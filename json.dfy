/**
 * The JSON values the submission handler reads out of a request body, and
 * the three Python operations it applies to them: dict.get with a default,
 * str() and truthiness.
 */
module Json {

  /** A string or a boolean; numbers, null, arrays and nested objects are not modelled. */
  datatype Value = Str(s: string) | Bool(b: bool)

  type Object = map<string, Value>

  /** obj.get(key, default) */
  function Get(o: Object, key: string, default: Value): Value {
    if key in o then o[key] else default
  }

  /** str(v): a string is itself, a boolean is `True` or `False`. */
  function ToStr(v: Value): string {
    match v
    case Str(s) => s
    case Bool(b) => if b then "True" else "False"
  }

  /** Python truthiness: a non-empty string or `True`. */
  predicate Truthy(v: Value) {
    match v
    case Str(s) => s != ""
    case Bool(b) => b
  }
}
