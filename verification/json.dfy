/**
 * JSON values as `json.loads` produces them, together with Python's notion of
 * truthiness for them. JSON numbers are modelled as integers.
 */
module Json {

  datatype Value =
    | JNull
    | JBool(b: bool)
    | JInt(i: int)
    | JStr(s: string)
    | JArray(items: seq<Value>)
    | JObject(fields: map<string, Value>)

  /** Python's `bool(v)` for the object `json.loads` returns. */
  predicate Truthy(v: Value) {
    match v
    case JNull => false
    case JBool(b) => b
    case JInt(i) => i != 0
    case JStr(s) => s != ""
    case JArray(items) => items != []
    case JObject(fields) => fields != map[]
  }

  /** The empty object `{}`. */
  const Empty: Value := JObject(map[])
}
