/**
  Python values of the shapes `json.loads` returns, and Python's truth test on them.
  The same shapes stand for the values of the dict the request validator receives.
 */
module PyValues {

  datatype Value =
    | Null
    | Bool(b: bool)
    | Number(x: real)
    | Str(s: string)
    | List(items: seq<Value>)
    | Dict(entries: map<string, Value>)

  /** `bool(v)`: `None`, `False`, zero and empty containers are falsy. */
  predicate Truthy(v: Value) {
    match v
    case Null => false
    case Bool(b) => b
    case Number(x) => x != 0.0
    case Str(s) => s != []
    case List(items) => items != []
    case Dict(entries) => entries != map[]
  }

  /** `d.get(key)`: `None` when the key is missing. */
  function Get(d: map<string, Value>, key: string): Value {
    if key in d then d[key] else Null
  }
}
