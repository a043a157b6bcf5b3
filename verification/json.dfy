/**
 * JSON values as the widget and the proxy exchange them, together with the
 * three pieces of JavaScript semantics both sides rely on: truthiness, the
 * `a || b` fallback, and reading a property that may be missing.
 */
module Json {
  import opened Wrappers

  /** A JSON value. Numbers are integers here; fractional numbers are not modelled. */
  datatype Json =
    | JNull
    | JBool(b: bool)
    | JNum(n: int)
    | JStr(s: string)
    | JArr(items: seq<Json>)
    | JObj(fields: map<string, Json>)

  /** JavaScript truthiness: `null`, `false`, `0` and `""` are falsy, every array and object is truthy. */
  predicate Truthy(v: Json) {
    match v
    case JNull => false
    case JBool(b) => b
    case JNum(n) => n != 0
    case JStr(s) => s != ""
    case JArr(_) => true
    case JObj(_) => true
  }

  /** `undefined` is falsy too. */
  predicate Present(v: Option<Json>) {
    v.Some? && Truthy(v.value)
  }

  /** JavaScript `a || b`: the left operand when it is truthy, otherwise the right one. */
  function Or(a: Option<Json>, b: Option<Json>): (r: Option<Json>)
    ensures Present(a) ==> r == a
    ensures !Present(a) ==> r == b
    ensures Present(r) <==> Present(a) || Present(b)
  {
    if Present(a) then a else b
  }

  /**
   * Reading `v.key` on a value that is not `null`: objects yield their field,
   * every other value (strings, numbers, booleans, arrays) yields `undefined`.
   */
  function Member(v: Json, key: string): (r: Option<Json>)
    ensures r.Some? <==> v.JObj? && key in v.fields
    ensures r.Some? ==> r.value == v.fields[key]
  {
    if v.JObj? && key in v.fields then Some(v.fields[key]) else None
  }

  /** A string-valued setting that may be unset (`process.env.X`), as a JSON value. */
  function FromString(s: Option<string>): (r: Option<Json>)
    ensures r.Some? <==> s.Some?
    ensures s.Some? ==> r.value == JStr(s.value)
  {
    match s
    case None => None
    case Some(x) => Some(JStr(x))
  }
}
