/**
 * The slice of JavaScript's value model that the sales reports and the user
 * routes rely on: JSON-like values, objects as string-keyed maps, reading a
 * missing key, truthiness, and template-string interpolation of a form value.
 */
module JsValues {

  datatype Option<T> = None | Some(value: T)

  /** A JSON-like value; `Undefined` is what reading an absent key yields. */
  datatype Value = Undefined | Null | Bool(b: bool) | Num(n: int) | Str(s: string)

  /** A plain object (a request body, a row, a document) as its own keys and values. */
  type Object = map<string, Value>

  /** `o[key]`: the value stored under `key`, or `undefined` when the key is absent. */
  function Get(o: Object, key: string): Value
  {
    if key in o then o[key] else Undefined
  }

  /** JavaScript truthiness (`if (v)`); integers stand in for numbers, so NaN does not arise. */
  predicate Truthy(v: Value)
    ensures Truthy(v) <==> !(v == Undefined || v == Null || v == Bool(false) || v == Num(0) || v == Str(""))
  {
    match v
    case Undefined => false
    case Null => false
    case Bool(b) => b
    case Num(n) => n != 0
    case Str(s) => s != ""
  }

  /** `${v}` for a form-control value that is either `null` or a string. */
  function Interpolate(v: Option<string>): (s: string)
    ensures v.Some? ==> s == v.value
    ensures s == "null" <==> v == None || v == Some("null")
  {
    match v
    case None => "null"
    case Some(s) => s
  }
}
