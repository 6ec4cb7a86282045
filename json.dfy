/**
 * Dynamic values of the two runtimes: JSON-shaped JavaScript values and
 * Python objects produced by json.loads. Objects and dicts are finite maps
 * from keys to values; the insertion order of their keys is not modelled.
 */
module Json {
  import opened Wrappers

  datatype Value =
    | Undefined
    | Null
    | Bool(b: bool)
    | Num(n: real)
    | Str(s: string)
    | Arr(items: seq<Value>)
    | Obj(fields: map<string, Value>)

  /** The properties of an object or the entries of a dict. */
  type Fields = map<string, Value>

  /** Truthiness in JavaScript: objects and arrays are always truthy. */
  predicate JsTruthy(v: Value) {
    match v
    case Undefined => false
    case Null => false
    case Bool(b) => b
    case Num(n) => n != 0.0
    case Str(s) => s != ""
    case Arr(_) => true
    case Obj(_) => true
  }

  /** Truthiness in Python: empty lists and dicts are falsy. */
  predicate PyTruthy(v: Value) {
    match v
    case Undefined => false
    case Null => false
    case Bool(b) => b
    case Num(n) => n != 0.0
    case Str(s) => s != ""
    case Arr(items) => |items| > 0
    case Obj(fields) => |fields| > 0
  }

  /** The property k of an object; Undefined when the key is absent, as in
      JavaScript. */
  function Get(fs: Fields, k: string): (r: Value)
    ensures k in fs ==> r == fs[k]
    ensures k !in fs ==> r.Undefined?
  {
    if k in fs then fs[k] else Undefined
  }
}
