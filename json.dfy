/**
 * Parsed JSON values, as a handler holds them after `request.json()`, and the
 * few JavaScript operators the handlers apply to them.
 */
module Json {
  import opened Wrappers

  /**
   * A JSON number, modelled by the exact real it is written as: neither the
   * rounding to a double nor the overflow of huge literals to ±Infinity is modelled.
   */
  datatype Json =
    | JNull
    | JBool(b: bool)
    | JNumber(num: real)
    | JString(str: string)
    | JArray(items: seq<Json>)
    | JObject(fields: map<string, Json>)

  /** JavaScript truthiness: `null`, `false`, `0` and `""` are the falsy JSON values. */
  predicate IsTruthy(v: Json) {
    match v
    case JNull => false
    case JBool(b) => b
    case JNumber(n) => n != 0.0
    case JString(s) => s != ""
    case JArray(_) => true
    case JObject(_) => true
  }

  /** `typeof v`, where `None` is `undefined`. Arrays and `null` are "object". */
  function TypeOf(v: Option<Json>): (t: string)
    ensures t == "string" <==> v.Some? && v.value.JString?
    ensures t == "number" <==> v.Some? && v.value.JNumber?
    ensures t == "object" <==> v.Some? && (v.value.JNull? || v.value.JArray? || v.value.JObject?)
  {
    match v
    case None => "undefined"
    case Some(JNull) => "object"
    case Some(JBool(_)) => "boolean"
    case Some(JNumber(_)) => "number"
    case Some(JString(_)) => "string"
    case Some(JArray(_)) => "object"
    case Some(JObject(_)) => "object"
  }

  /**
   * The property read `v[name]` on an object (`undefined` when absent). The
   * names read by the handlers are not properties that arrays or
   * `Object.prototype` provide, so on every other value the read is `undefined`.
   */
  function Get(v: Json, name: string): (r: Option<Json>)
    ensures r.Some? <==> v.JObject? && name in v.fields
    ensures r.Some? ==> r.value == v.fields[name]
  {
    if v.JObject? && name in v.fields then Some(v.fields[name]) else None
  }

  /** `Number.isInteger(n)` for a finite number `n`. */
  predicate IsInteger(n: real) {
    n.Floor as real == n
  }
}
