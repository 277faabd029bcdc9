/** JSON values as Python's `json.load` produces them (numbers restricted to integers). */
module JsonValues {
  import opened Decimal

  datatype Json =
    | JNull
    | JBool(b: bool)
    | JNum(n: int)
    | JStr(s: string)
    | JArr(items: seq<Json>)
    | JObj(fields: map<string, Json>)

  /** A JSON object's fields, as a Python dict with its key order forgotten. */
  type Record = map<string, Json>

  /** Python truthiness of the value `json.load` returns. */
  predicate Truthy(j: Json) {
    match j
    case JNull => false
    case JBool(b) => b
    case JNum(n) => n != 0
    case JStr(s) => s != ""
    case JArr(items) => items != []
    case JObj(fields) => fields != map[]
  }

  /** `d.get(key, default)` on a dict. */
  function Lookup(d: Record, key: string, default: Json): (r: Json)
    ensures key in d ==> r == d[key]
    ensures key !in d ==> r == default
  {
    if key in d then d[key] else default
  }

  /** Python's `str(v)` (also what an f-string inserts). Arrays and objects are printed by
      Python's `repr`, which is a parameter of the model. */
  function PyStr(j: Json, repr: Json -> string): string {
    match j
    case JNull => "None"
    case JBool(b) => if b then "True" else "False"
    case JNum(n) => IntToString(n)
    case JStr(s) => s
    case _ => repr(j)
  }
}
