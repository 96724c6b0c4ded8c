/** JSON trees, as src/codec/mod.rs reads and writes them; an object's members keep their order. */
module Json {
  datatype Json =
    | JNull
    | JBool(truth: bool)
    | JNumber(number: int)
    | JString(text: string)
    | JArray(elements: seq<Json>)
    | JObject(members: seq<Member>)

  datatype Member = Member(key: string, value: Json)

  /** `Entry`: the single-key object of the array form (section 11.4 of SHIP 1.1.0). */
  function Entry(key: string, value: Json): Json {
    JObject([Member(key, value)])
  }
}
