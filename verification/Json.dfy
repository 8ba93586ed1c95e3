/** JSON values, with the Python conventions the evidence scripts use to read them. */
module Json {

  datatype Json =
    | Null
    | Bool(b: bool)
    | Num(n: int)
    | Str(s: string)
    | Arr(items: seq<Json>)
    | Obj(fields: map<string, Json>)

  /** `record.get(key)`. */
  function Get(fields: map<string, Json>, key: string): Json {
    if key in fields then fields[key] else Null
  }

  predicate Truthy(j: Json) {
    match j
    case Null => false
    case Bool(b) => b
    case Num(n) => n != 0
    case Str(s) => s != ""
    case Arr(items) => items != []
    case Obj(fields) => fields.Keys != {}
  }

  /** `str(value)`; `repr` renders everything that is not a string. */
  function Text(repr: Json -> string, j: Json): string {
    if j.Str? then j.s else repr(j)
  }

  /** `str(value or "")`. */
  function TextOrEmpty(repr: Json -> string, j: Json): string {
    if Truthy(j) then Text(repr, j) else ""
  }
}
