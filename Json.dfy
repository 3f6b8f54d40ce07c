/**
 * JSON documents as `serde_json::Value` holds them, and the one lookup the
 * core performs on them (`Value::get` with a string key).
 */
module Json {
  import opened Wrappers

  /** A byte of a guest payload. */
  type byte = b: int | 0 <= b < 256

  /** A JSON value. Numbers are kept as integers; objects as maps from keys to values. */
  datatype Value =
    | Null
    | Bool(b: bool)
    | Number(n: int)
    | String(s: string)
    | Array(items: seq<Value>)
    | Object(fields: map<string, Value>)

  /** `Value::get(key)`: the member named `key` of an object, and nothing for any other value. */
  function Get(v: Value, key: string): (r: Option<Value>)
    ensures r.Some? <==> v.Object? && key in v.fields
    ensures r.Some? ==> r.value == v.fields[key]
  {
    if v.Object? && key in v.fields then Some(v.fields[key]) else None
  }
}
