/** JSON values as Python's `json` module hands them to the request handlers,
    and Python's truthiness on them. Numbers with a fraction are not modelled. */
module Json {

  datatype Value =
    | Null
    | Bool(b: bool)
    | Int(i: int)
    | Str(s: string)
    | List(items: seq<Value>)
    | Object(fields: map<string, Value>)

  /** `bool(v)`: null, false, 0, "", [] and {} are falsy, everything else truthy. */
  predicate Truthy(v: Value) {
    match v
    case Null => false
    case Bool(b) => b
    case Int(i) => i != 0
    case Str(s) => s != ""
    case List(items) => items != []
    case Object(fields) => fields != map[]
  }

  /** `d.get(key)`: an absent key reads as `None`, which is JSON null. */
  function GetField(fields: map<string, Value>, key: string): Value {
    if key in fields then fields[key] else Null
  }
}
