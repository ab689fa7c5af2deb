/**
 * JSON values as the extension receives them from `response.json()`, with the
 * two JavaScript behaviours the code relies on: truthiness and property reads.
 */
module Json {
  import opened Wrappers

  datatype Json =
    | Null
    | Bool(b: bool)
    | Num(n: real)
    | Str(s: string)
    | Arr(items: seq<Json>)
    | Obj(fields: map<string, Json>)

  /** The object literal `{}`. */
  const EmptyObject: Json := Obj(map[])

  /** JavaScript truthiness: `null`, `false`, `0` and `""` are falsy; arrays and objects never are. */
  predicate Truthy(j: Json) {
    match j
    case Null => false
    case Bool(b) => b
    case Num(n) => n != 0.0
    case Str(s) => s != ""
    case _ => true
  }

  /** Truthiness of a value that may be `undefined`. */
  predicate Defined(o: Option<Json>) {
    o.Some? && Truthy(o.value)
  }

  /**
   * `j.key` (or `j[key]`) on a value that is neither `null` nor `undefined`.
   * Only objects carry string-keyed own properties here; `None` is `undefined`.
   */
  function Member(j: Json, key: string): (r: Option<Json>)
    ensures r.Some? <==> j.Obj? && key in j.fields
    ensures r.Some? ==> r.value == j.fields[key]
  {
    if j.Obj? && key in j.fields then Some(j.fields[key]) else None
  }
}
