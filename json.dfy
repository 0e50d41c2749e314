/**
 * The JavaScript values that `JSON.parse` and `Request.json()` can produce, and the two
 * ways the code reads a property from one: `v.name` and the optional-chaining `v?.name`.
 */
module Json {
  import opened Wrappers

  datatype Json =
    | JNull
    | JBool(b: bool)
    | JNumber(n: real)
    | JString(s: string)
    | JArray(items: seq<Json>)
    | JObject(fields: map<string, Json>)

  /** The result of reading a property: `undefined`, or a value. */
  datatype Property = Undefined | Defined(value: Json)

  /**
   * `v?.name`: `undefined` on `null`, the field of an object that has it, and
   * `undefined` for every other value (strings, numbers, arrays and booleans carry
   * no own property of the names the code reads).
   */
  function OptionalMember(v: Json, name: string): (p: Property)
    ensures p.Defined? <==> v.JObject? && name in v.fields
    ensures p.Defined? ==> p.value == v.fields[name]
  {
    match v
    case JObject(fields) => if name in fields then Defined(fields[name]) else Undefined
    case _ => Undefined
  }

  /**
   * `v.name`: like `v?.name`, except that reading a property of `null` throws a
   * TypeError, shown here as `None`.
   */
  function Member(v: Json, name: string): (r: Option<Property>)
    ensures r.None? <==> v.JNull?
    ensures r.Some? ==> r.value == OptionalMember(v, name)
  {
    if v.JNull? then None else Some(OptionalMember(v, name))
  }
}
