/**
 * The part of a parsed JSON document (`serde_json::Value`) that the triple
 * extraction looks at, and the two accessors it uses: `Value::get` with a
 * string key and `Value::as_str`.
 */
module Json {
  import opened Wrappers

  /** A JSON value. Numbers are kept as integers; their value is never read. */
  datatype JValue =
    | JNull
    | JBool(b: bool)
    | JNumber(n: int)
    | JString(str: string)
    | JArray(items: seq<JValue>)
    | JObject(fields: map<string, JValue>)

  /** `Value::get(key)`: the member under `key` of an object; nothing for any other value. */
  function Get(v: JValue, key: string): Option<JValue>
  {
    match v
    case JObject(fields) => if key in fields then Some(fields[key]) else None
    case _ => None
  }

  /** `Value::as_str()`: the text of a string value; nothing for any other value. */
  function AsStr(v: JValue): Option<string>
  {
    match v
    case JString(t) => Some(t)
    case _ => None
  }

  /** `v` is an object whose member `key` is the string `t`. */
  ghost predicate HasString(v: JValue, key: string, t: string)
  {
    v.JObject? && key in v.fields && v.fields[key] == JString(t)
  }

  /** `v` is an object with some string member `key`. */
  ghost predicate HasStringMember(v: JValue, key: string)
  {
    exists t :: HasString(v, key, t)
  }

  /**
   * `v.get(key).and_then(|x| x.as_str())`: exactly the string members of
   * objects are found, and nothing is found in any other value.
   */
  function StringField(v: JValue, key: string): (r: Option<string>)
    ensures r.Some? ==> HasString(v, key, r.value)
    ensures forall t :: HasString(v, key, t) ==> r == Some(t)
    ensures r.Some? <==> HasStringMember(v, key)
    ensures !v.JObject? ==> r == None
  {
    match Get(v, key)
    case None => None
    case Some(x) =>
      assert x.JString? ==> HasString(v, key, x.str);
      AsStr(x)
  }
}
