/**
 * JSON values as `JSON.parse` returns them, with the two things the application
 * does to them: read a property and test truthiness.
 */
module Json {
  import opened Wrappers

  datatype Json =
    | JNull
    | JBool(b: bool)
    | JNum(n: real)
    | JStr(s: string)
    | JArr(items: seq<Json>)
    | JObj(fields: seq<(string, Json)>)

  /** The value of `key` in an object's members; with a repeated key `JSON.parse` keeps the last one. */
  function Lookup(fields: seq<(string, Json)>, key: string): (r: Option<Json>)
    ensures r.None? <==> forall i :: 0 <= i < |fields| ==> fields[i].0 != key
    ensures r.Some? ==> exists i :: 0 <= i < |fields| && fields[i] == (key, r.value)
                                    && forall j :: i < j < |fields| ==> fields[j].0 != key
  {
    if fields == [] then None
    else if fields[|fields| - 1].0 == key then Some(fields[|fields| - 1].1)
    else Lookup(fields[..|fields| - 1], key)
  }

  /**
   * `v[key]` on a parsed value: `Failed` when `v` is `null` (a TypeError), `None` when
   * the property is absent (`undefined`), which is the case for every non-object.
   */
  function Get(v: Json, key: string): (r: Result<Option<Json>>)
    ensures r.Failed? <==> v.JNull?
    ensures v.JObj? ==> r == Ok(Lookup(v.fields, key))
    ensures !v.JObj? && !v.JNull? ==> r == Ok(None)
  {
    match v
    case JNull => Failed
    case JObj(fields) => Ok(Lookup(fields, key))
    case _ => Ok(None)
  }

  /** JavaScript truthiness of a parsed value. */
  predicate Truthy(v: Json) {
    match v
    case JNull => false
    case JBool(b) => b
    case JNum(n) => n != 0.0
    case JStr(s) => s != ""
    case _ => true
  }

  /** Truthiness of a property that may be `undefined` (`None`). */
  predicate TruthyOpt(v: Option<Json>) {
    v.Some? && Truthy(v.value)
  }
}
