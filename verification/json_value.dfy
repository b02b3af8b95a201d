/**
 * Decoded JSON values as the crawler sees them after `r.json()`, together with
 * the two pieces of Python semantics the crawler relies on: truthiness
 * (`if not x`) and `dict.get(key, default)`.
 */
module JsonValue {

  datatype Json =
    | JNull
    | JBool(b: bool)
    | JNum(x: real)
    | JStr(s: string)
    | JArr(a: seq<Json>)
    | JObj(o: map<string, Json>)

  /** A search result item: one JSON object. */
  type Item = map<string, Json>

  /** Python truthiness of a decoded JSON value: None, False, 0, "", [] and {} are falsy. */
  predicate Truthy(j: Json)
    ensures !Truthy(j) <==> j in {JNull, JBool(false), JNum(0.0), JStr(""), JArr([]), JObj(map[])}
  {
    match j
    case JNull => false
    case JBool(b) => b
    case JNum(x) => x != 0.0
    case JStr(s) => s != ""
    case JArr(a) => a != []
    case JObj(o) => o != map[]
  }

  /** `o.get(key, default)` */
  function Get(o: map<string, Json>, key: string, default: Json): (r: Json)
    ensures key in o ==> r == o[key]
    ensures key !in o ==> r == default
  {
    if key in o then o[key] else default
  }

  /** `item.get(key)`: a missing key reads as None. */
  function Field(item: Item, key: string): (r: Json)
    ensures !Truthy(r) ==> key !in item || !Truthy(item[key])
    ensures Truthy(r) ==> key in item && r == item[key]
  {
    Get(item, key, JNull)
  }
}
