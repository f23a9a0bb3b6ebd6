/** JSON values: request bodies as Express parses them and response bodies as
    `res.json` sends them. */
module Json {
  import opened Wrappers

  datatype Json =
    | JNull
    | JBool(b: bool)
    | JNumber(n: real)
    | JString(s: string)
    | JArray(items: seq<Json>)
    | JObject(fields: map<string, Json>)

  /** A property read `v.key`: absent (`undefined`) unless `v` is an object with that key. */
  function Field(v: Json, key: string): (r: Option<Json>)
    ensures r.Some? <==> v.JObject? && key in v.fields
  {
    if v.JObject? && key in v.fields then Some(v.fields[key]) else None
  }

  /** `v.key` when it holds a string. */
  function StringField(v: Json, key: string): (r: Option<string>)
    ensures r.Some? ==> Field(v, key) == Some(JString(r.value))
    ensures r.None? ==> !(Field(v, key).Some? && Field(v, key).value.JString?)
  {
    match Field(v, key)
    case Some(JString(s)) => Some(s)
    case _ => None
  }

  /** A chain of property reads `v.k1.k2…`; absent as soon as one step is. */
  function Path(v: Json, keys: seq<string>): Option<Json>
    decreases |keys|
  {
    if |keys| == 0 then Some(v)
    else
      match Field(v, keys[0])
      case None => None
      case Some(w) => Path(w, keys[1..])
  }
}
