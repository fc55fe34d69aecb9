/**
 * Parsed JSON values, as `json.load` (Python) and `response.json()` (JavaScript) produce them.
 * Objects are maps from keys to values; key order is not modelled.
 */
module Json {
  import opened Wrappers

  datatype Json =
    | JNull
    | JBool(b: bool)
    | JNum(n: real)
    | JStr(s: string)
    | JArr(items: seq<Json>)
    | JObj(fields: map<string, Json>)
  {
    /** Python `bool(v)`: `None`, `False`, zero, `""`, `[]` and `{}` are falsy. */
    predicate PyTruthy() {
      match this
      case JNull => false
      case JBool(b) => b
      case JNum(n) => n != 0.0
      case JStr(s) => s != ""
      case JArr(items) => items != []
      case JObj(fields) => fields != map[]
    }

    /** Python `d.get(key)` on a dict (`None` when the key is absent or this is not an object). */
    function Get(key: string): (r: Option<Json>)
      ensures r.Some? <==> (JObj? && key in fields)
      ensures r.Some? ==> r.value == fields[key]
    {
      if JObj? && key in fields then Some(fields[key]) else None
    }

    /** The string held under `key`, if the value there is a string (`typeof x === 'string'`). */
    function GetString(key: string): (r: Option<string>)
      ensures r.Some? <==> (Get(key).Some? && Get(key).value.JStr?)
      ensures r.Some? ==> Get(key).value == JStr(r.value)
    {
      match Get(key)
      case Some(JStr(s)) => Some(s)
      case _ => None
    }
  }
}
