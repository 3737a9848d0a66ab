/** Values produced by `JSON.parse`, and the two JavaScript operations the
    connection-string validator applies to them: reading a property and
    testing a value for truthiness. */
module JsonValue {

  datatype Option<+T> = None | Some(value: T)

  /** A parsed JSON document. Numbers are the value the parser produced;
      objects map each member name to its (last) value. */
  datatype Json =
    | JNull
    | JBool(b: bool)
    | JNumber(n: real)
    | JString(s: string)
    | JArray(items: seq<Json>)
    | JObject(fields: map<string, Json>)

  /** JavaScript's ToBoolean, restricted to values `JSON.parse` can yield:
      exactly null, false, zero and the empty string are falsy; every
      array and every object, even an empty one, is truthy. */
  predicate Truthy(v: Json)
    ensures !Truthy(v) <==> v in {JNull, JBool(false), JNumber(0.0), JString("")}
    ensures v.JArray? || v.JObject? ==> Truthy(v)
  {
    match v
    case JNull => false
    case JBool(b) => b
    case JNumber(n) => n != 0.0
    case JString(s) => |s| > 0
    case JArray(_) => true
    case JObject(_) => true
  }

  /** Reading property `key` of a non-null value: an object's own member, or
      `undefined` (None). None of the names the validator reads is a
      property of a string, a number, a boolean or an array. */
  function Member(v: Json, key: string): Option<Json>
  {
    if v.JObject? && key in v.fields then Some(v.fields[key]) else None
  }

  /** `!!v[key]`: the property is present and truthy. */
  predicate TruthyMember(v: Json, key: string)
  {
    match Member(v, key)
    case None => false
    case Some(x) => Truthy(x)
  }
}
