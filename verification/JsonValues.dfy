/** JSON values as Python holds them. */
module JsonValues {

  datatype Json =
    | Null
    | Bool(flag: bool)
    | Int(n: int)
    | Real(r: real)
    | Text(text: string)
    | List(items: seq<Json>)
    | Dict(fields: map<string, Json>)

  /** `bool(v)`. */
  predicate IsTruthy(v: Json) {
    match v
    case Null => false
    case Bool(flag) => flag
    case Int(n) => n != 0
    case Real(r) => r != 0.0
    case Text(text) => text != ""
    case List(items) => items != []
    case Dict(fields) => fields != map[]
  }

  /** Nothing, and the zero or empty value of each kind, are false. */
  lemma FalsyExactly(v: Json)
    ensures !IsTruthy(v) <==>
            || v == Null || v == Bool(false) || v == Int(0) || v == Real(0.0)
            || v == Text("") || v == List([]) || v == Dict(map[])
  {
  }

  /** `fields.get(key, default)`. */
  function Get(fields: map<string, Json>, key: string, otherwise: Json): Json {
    if key in fields then fields[key] else otherwise
  }
}
