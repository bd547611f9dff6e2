/** The JSON values that the OpenAPI and JSON Schema tools work on, and Python's `==` on them. */
module JsonValues {

  /** A parsed JSON document. Objects are Python dicts: keys are unique, equality ignores order. */
  datatype Json =
    | Null
    | Bool(b: bool)
    | Int(i: int)
    | Float(r: real)
    | Str(s: string)
    | List(items: seq<Json>)
    | Obj(fields: map<string, Json>)

  function Get(fields: map<string, Json>, key: string, default: Json): Json {
    if key in fields then fields[key] else default
  }

  /** Python's truth value of a JSON value. */
  predicate Truthy(j: Json) {
    match j
    case Null => false
    case Bool(b) => b
    case Int(i) => i != 0
    case Float(r) => r != 0.0
    case Str(s) => s != ""
    case List(items) => items != []
    case Obj(fields) => fields != map[]
  }

  /** Exactly seven values are false. */
  lemma FalsyValues(j: Json)
    ensures !Truthy(j) <==>
              j in {Null, Bool(false), Int(0), Float(0.0), Str(""), List([]), Obj(map[])}
  {
  }
}
