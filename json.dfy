/**
 * The JavaScript values the logging interceptor and the exception filter
 * handle: request bodies, header objects, response payloads.
 * Numbers are integers (NaN and fractions are not modelled) and an object is a
 * map from property names to values (property order is not modelled).
 */
module JsonValues {

  datatype Json =
    | JUndefined
    | JNull
    | JBool(b: bool)
    | JNum(n: int)
    | JStr(s: string)
    | JArr(items: seq<Json>)
    | JObj(fields: map<string, Json>)

  /** JavaScript truthiness: undefined, null, false, 0 and "" are falsy; every array and object is truthy. */
  predicate Truthy(v: Json) {
    match v
    case JUndefined => false
    case JNull => false
    case JBool(b) => b
    case JNum(n) => n != 0
    case JStr(s) => s != ""
    case JArr(_) => true
    case JObj(_) => true
  }

  /** `typeof v === 'object'`, which holds of null and of arrays too. */
  predicate IsObjectType(v: Json) {
    v.JNull? || v.JArr? || v.JObj?
  }

  /** The decimal spelling of an array index, as a property name. */
  function DecimalString(n: nat): string
    decreases n
  {
    if n < 10 then ["0123456789"[n]] else DecimalString(n / 10) + ["0123456789"[n % 10]]
  }

  /** The index-keyed properties `{ ...items }` copies out of an array. */
  function IndexKeyed(items: seq<Json>): map<string, Json>
    decreases |items|
  {
    if |items| == 0 then map[]
    else IndexKeyed(items[..|items| - 1])[DecimalString(|items| - 1) := items[|items| - 1]]
  }

  /** The own enumerable properties the object spread `{ ...v }` copies. */
  function Spread(v: Json): map<string, Json> {
    match v
    case JObj(m) => m
    case JArr(items) => IndexKeyed(items)
    case JStr(s) => IndexKeyed(seq(|s|, i requires 0 <= i < |s| => JStr([s[i]])))
    case _ => map[]
  }

  /** Reading the named (non-index) property `v[key]` of a value that is not null or undefined. */
  function Property(v: Json, key: string): Json {
    match v
    case JObj(m) => if key in m then m[key] else JUndefined
    case _ => JUndefined
  }
}
