/** JavaScript values as they come out of `JSON.parse`, with the truthiness
    and string conversion rules the site's code relies on. Numbers are
    integers here; `undefined` (a missing property) is `None` of an Option. */
module Json {
  import opened Wrappers
  import Strings

  datatype Json =
    | JNull
    | JBool(b: bool)
    | JNum(n: int)
    | JStr(s: string)
    | JArr(items: seq<Json>)
    | JObj(fields: map<string, Json>)

  /** JavaScript truthiness: `null`, `false`, `0` and `""` are falsy. */
  predicate Truthy(v: Json) {
    match v
    case JNull => false
    case JBool(b) => b
    case JNum(n) => n != 0
    case JStr(s) => s != ""
    case JArr(_) => true
    case JObj(_) => true
  }

  /** Truthiness of a possibly missing value (`undefined` is falsy). */
  predicate TruthyOpt(v: Option<Json>) {
    v.Some? && Truthy(v.value)
  }

  /** `typeof v === 'object'` for a value that is also truthy: an object or
      an array. */
  predicate IsObject(v: Json) { v.JObj? || v.JArr? }

  /** `v[k]` on an object or array: an own property of an object, and
      `undefined` otherwise (array elements are not looked up by name). */
  function Member(v: Json, k: string): (r: Option<Json>)
    ensures r.Some? <==> v.JObj? && k in v.fields
    ensures r.Some? ==> r.value == v.fields[k]
  {
    if v.JObj? && k in v.fields then Some(v.fields[k]) else None
  }

  /** `String(v)`, as a template literal or a `.value` assignment converts it;
      an array is its elements' texts joined by commas, `null` giving "". */
  function ToText(v: Json): (r: string)
    ensures v.JStr? ==> r == v.s
  {
    match v
    case JNull => "null"
    case JBool(b) => if b then "true" else "false"
    case JNum(n) => if n < 0 then "-" + Strings.NatToString(-n) else Strings.NatToString(n)
    case JStr(s) => s
    case JArr(items) =>
      Strings.Join(seq(|items|, i requires 0 <= i < |items| => if items[i] == JNull then "" else ToText(items[i])), ",")
    case JObj(_) => "[object Object]"
  }

  /** `String(v)` of a possibly missing value, as an attribute or dataset
      assignment converts it: `undefined` becomes "undefined". */
  function OptText(v: Option<Json>): string {
    if v.None? then "undefined" else ToText(v.value)
  }

  /** `v || fallback` converted to text. */
  function TextOr(v: Option<Json>, fallback: string): string {
    if TruthyOpt(v) then ToText(v.value) else fallback
  }
}
