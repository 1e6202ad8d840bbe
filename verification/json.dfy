/** The loosely-typed values a policy document holds after YAML loading:
    booleans are their own kind and never count as integers. */
module Json {

  datatype Value =
    | JNull
    | JBool(b: bool)
    | JInt(i: int)
    | JFloat(r: real)
    | JString(s: string)
    | JObject(fields: map<string, Value>)

  type Object = map<string, Value>

  /** `mapping.get(key)`: a missing key reads as null. */
  function Get(obj: Object, key: string): Value {
    if key in obj then obj[key] else JNull
  }
}
