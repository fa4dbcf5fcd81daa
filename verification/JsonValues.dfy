/** JSON values as Python reads them. */
module JsonValues {

  datatype Json =
    | Null
    | Bool(b: bool)
    | Number(n: real)
    | Text(s: string)
    | Array(items: seq<Json>)
    | Object(fields: map<string, Json>)

  /** Python's truth value of a decoded JSON value. */
  predicate Truthy(j: Json) {
    match j
    case Null => false
    case Bool(b) => b
    case Number(n) => n != 0.0
    case Text(s) => s != ""
    case Array(items) => items != []
    case Object(fields) => fields != map[]
  }

  /** `d.get(name)`: an absent field and a JSON null are the same None. */
  function Get(fields: map<string, Json>, name: string): Json {
    if name in fields then fields[name] else Null
  }

  /** The field is absent, or holds one of the values that Python takes for false. */
  predicate Lacks(fields: map<string, Json>, name: string) {
    || name !in fields
    || fields[name] == Null || fields[name] == Bool(false) || fields[name] == Number(0.0)
    || fields[name] == Text("") || fields[name] == Array([]) || fields[name] == Object(map[])
  }

  lemma LacksIff(fields: map<string, Json>, name: string)
    ensures Lacks(fields, name) <==> !Truthy(Get(fields, name))
  {
  }

  /** Two values are one dictionary key: equal, where a truth value equals the number 1 or 0. */
  predicate SameKey(a: Json, b: Json) {
    match (a, b)
    case (Bool(p), Number(x)) => x == if p then 1.0 else 0.0
    case (Number(x), Bool(p)) => x == if p then 1.0 else 0.0
    case _ => a == b
  }

  lemma SameKeyIff(a: Json, b: Json)
    ensures SameKey(a, b) <==> AsKey(a) == AsKey(b)
  {
  }

  /** Lists and dictionaries cannot be dictionary keys. */
  predicate Hashable(j: Json) {
    !j.Array? && !j.Object?
  }

  /** The value as a dictionary key: `True` is the key 1 and `False` the key 0. */
  function AsKey(j: Json): Json {
    if j.Bool? then Number(if j.b then 1.0 else 0.0) else j
  }
}
