/** JSON values. */
module Values {

  /** A JSON value as Python holds it; dict entries keep their insertion order. */
  datatype Value =
    | Null
    | Bool(b: bool)
    | Number(n: real)
    | Text(text: string)
    | List(items: seq<Value>)
    | Dict(entries: seq<Entry>)

  datatype Entry = Entry(key: string, value: Value)

  /** Python truth of a value. */
  predicate Truth(v: Value) {
    match v
    case Null => false
    case Bool(b) => b
    case Number(n) => n != 0.0
    case Text(s) => s != ""
    case List(items) => items != []
    case Dict(entries) => entries != []
  }

  lemma FalsyValues(v: Value)
    ensures Truth(v) <==> v !in {Null, Bool(false), Number(0.0), Text(""), List([]), Dict([])}
  {
  }
}
