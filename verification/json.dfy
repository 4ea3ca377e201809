/** JSON documents as the servers see them after `JSON.parse`, together with the
    few JavaScript operators the validators apply to them: `typeof`, truthiness
    (`!x`), property access (`x.key`) and `Array.isArray`. */
module Json {
  import opened Wrappers

  /** A parsed JSON value. Numbers are reals: a literal too large for a
      double, which `JSON.parse` reads as `Infinity` and `JSON.stringify`
      writes back as `null`, is left out along with JSON text. Objects are
      maps, since `JSON.stringify` followed by `JSON.parse` is treated as the
      identity and key order never matters here. */
  datatype JsonValue =
    | JNull
    | JBool(b: bool)
    | JNum(n: real)
    | JStr(s: string)
    | JArr(items: seq<JsonValue>)
    | JObj(fields: map<string, JsonValue>)

  /** JavaScript `typeof` of a property read; `None` is `undefined`.
      Arrays and `null` are both reported as "object", as in JavaScript. */
  function TypeOf(x: Option<JsonValue>): (t: string)
    ensures t == "object" <==> x.Some? && (x.value.JNull? || x.value.JArr? || x.value.JObj?)
    ensures t == "number" <==> x.Some? && x.value.JNum?
    ensures t == "string" <==> x.Some? && x.value.JStr?
    ensures t == "boolean" <==> x.Some? && x.value.JBool?
  {
    match x
    case None => "undefined"
    case Some(JNull) => "object"
    case Some(JBool(_)) => "boolean"
    case Some(JNum(_)) => "number"
    case Some(JStr(_)) => "string"
    case Some(JArr(_)) => "object"
    case Some(JObj(_)) => "object"
  }

  /** JavaScript truthiness: `undefined`, `null`, `false`, `0` and `""` are
      falsy; every array and object, even an empty one, is truthy. */
  predicate Truthy(x: Option<JsonValue>) {
    match x
    case None => false
    case Some(JNull) => false
    case Some(JBool(b)) => b
    case Some(JNum(n)) => n != 0.0
    case Some(JStr(s)) => s != ""
    case Some(JArr(_)) => true
    case Some(JObj(_)) => true
  }

  /** Property read `v.key`: only objects carry the keys the application uses,
      so on any other value (array, string, number, ...) the read is `undefined`. */
  function Member(v: JsonValue, key: string): (r: Option<JsonValue>)
    ensures r.Some? <==> v.JObj? && key in v.fields
    ensures r.Some? ==> r.value == v.fields[key]
  {
    match v
    case JObj(fields) => if key in fields then Some(fields[key]) else None
    case _ => None
  }

  /** `Array.isArray` applied to a property read. */
  predicate IsArray(x: Option<JsonValue>) {
    x.Some? && x.value.JArr?
  }

  /** A one-key object `{key: value}`. */
  function Obj1(key: string, value: JsonValue): JsonValue {
    JObj(map[key := value])
  }
}
