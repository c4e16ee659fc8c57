/** Parsed request bodies of the REST server (backend/server-pg.ts): the values
    `JSON.parse` produces and the two ways the handlers read them, `data[key]` and
    `data.key || null`. Numbers are integers here. */
module Json {

  datatype Json =
    | JNull
    | JBool(b: bool)
    | JNum(n: int)
    | JStr(s: string)
    | JArr(items: seq<Json>)
    | JObj(fields: map<string, Json>)

  /** JavaScript falsiness of a parsed value: `null`, `false`, `0` and `""`. */
  predicate Falsy(v: Json) {
    v == JNull || v == JBool(false) || v == JNum(0) || v == JStr("")
  }

  /** What reading a member of a parsed body gives: `undefined`, a value, or a TypeError
      (reading a member of `null`). */
  datatype Read = Undefined | Value(v: Json) | Throws

  /** `data[key]` for the member names the server reads (none of them is inherited from
      `Object.prototype`, so only an object's own members count). */
  function Member(data: Json, key: string): (r: Read)
    ensures r.Throws? <==> data == JNull
    ensures r.Value? <==> data.JObj? && key in data.fields
  {
    match data
    case JNull => Throws
    case JObj(fields) => if key in fields then Value(fields[key]) else Undefined
    case _ => Undefined
  }

  /** `data[key] !== undefined ? data[key] : null`: a missing member becomes null, and a
      present one is kept as it is, falsy or not (unlike `TruthyOrNull`). */
  function OrNull(r: Read): (v: Json)
    requires !r.Throws?
    ensures v == JNull <==> r.Undefined? || r.v == JNull
    ensures r.Value? ==> v == r.v
  {
    if r.Value? then r.v else JNull
  }

  /** `data[key] || null`: every falsy value becomes null. */
  function TruthyOrNull(r: Read): (v: Json)
    requires !r.Throws?
    ensures v == JNull <==> r.Undefined? || Falsy(r.v)
  {
    if r.Value? && !Falsy(r.v) then r.v else JNull
  }
}
