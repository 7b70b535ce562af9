/**
 * The values `JSON.parse` produces, and the handful of zod checks the schemas are built
 * from, read as decoders that either yield a typed value or fail.
 */
module Json {
  import opened Wrappers
  import opened JsStrings

  /** A parsed JSON value. Numbers are integers here; object keys are unique, as they are
      in the object `JSON.parse` builds. */
  datatype Json =
    | JNull
    | JBool(b: bool)
    | JNumber(n: int)
    | JString(s: string)
    | JArray(items: seq<Json>)
    | JObject(fields: map<string, Json>)

  /** `v[key]` as a schema reads it: `None` stands for `undefined` (a missing key, or `v`
      not an object). */
  function Member(v: Json, key: string): Option<Json> {
    if v.JObject? && key in v.fields then Some(v.fields[key]) else None
  }

  /** `z.string().min(lo)`, with an optional `.max(hi)`. */
  function StringOf(v: Option<Json>, lo: nat, hi: Option<nat>): (r: Option<string>)
    ensures r.Some? <==> (v.Some? && v.value.JString? && lo <= JsLength(v.value.s)
                          && (hi.Some? ==> JsLength(v.value.s) <= hi.value))
    ensures r.Some? ==> v == Some(JString(r.value))
  {
    match v
    case Some(JString(s)) =>
      if lo <= JsLength(s) && (hi.None? || JsLength(s) <= hi.value) then Some(s) else None
    case _ => None
  }

  /** `z.literal(s)`. */
  predicate IsLiteral(v: Option<Json>, s: string) {
    v == Some(JString(s))
  }
}
