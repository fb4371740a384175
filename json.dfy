/** Decoded JSON values as `requests`' `r.json()` hands them to the time adapters, with Python truthiness. */
module Json {

  datatype JsonValue =
    | JNull
    | JBool(b: bool)
    | JNumber(n: int)
    | JString(s: string)
    | JArray(items: seq<JsonValue>)
    | JObject(fields: map<string, JsonValue>)

  /** Python's truth value of the decoded value (`if x:`). */
  predicate Truthy(v: JsonValue)
  {
    match v
    case JNull => false
    case JBool(b) => b
    case JNumber(n) => n != 0
    case JString(s) => s != []
    case JArray(items) => items != []
    case JObject(fields) => fields != map[]
  }

  /** `dict.get(key)`: the value under `key`, or `None` when the key is absent. */
  function Lookup(fields: map<string, JsonValue>, key: string): JsonValue
  {
    if key in fields then fields[key] else JNull
  }

  /** Python's `a or b`: `a` when it is truthy, otherwise `b`. */
  function OrElse(a: JsonValue, b: JsonValue): (r: JsonValue)
    ensures Truthy(r) <==> Truthy(a) || Truthy(b)
  {
    if Truthy(a) then a else b
  }

  /** The Python type name of a decoded value, as it appears in an `AttributeError`. */
  function TypeName(v: JsonValue): string
  {
    match v
    case JNull => "NoneType"
    case JBool(_) => "bool"
    case JNumber(_) => "int"
    case JString(_) => "str"
    case JArray(_) => "list"
    case JObject(_) => "dict"
  }
}
