/** JSON values.  An object is a map: no reader may rely on the order of its properties. */
module JsonValues {
  import opened Wrappers

  datatype Json =
    | Null
    | Bool(b: bool)
    | Number(n: int)
    | Str(s: string)
    | Array(items: seq<Json>)
    | Object(fields: map<string, Json>)

  /** `Value::get`: a property of an object, nothing for any other value. */
  function Get(v: Json, key: string): Option<Json> {
    if v.Object? && key in v.fields then Some(v.fields[key]) else None
  }

  function AsStr(v: Json): Option<string> {
    if v.Str? then Some(v.s) else None
  }

  /** `Value::as_u64`. */
  function AsU64(v: Json): Option<nat> {
    if v.Number? && 0 <= v.n < 0x1_0000_0000_0000_0000 then Some(v.n) else None
  }
}
