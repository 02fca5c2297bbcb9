/** JSON documents as the modelled code sees them after parsing. */
module Json {
  datatype Field = Field(key: string, value: Json)

  datatype Json =
    | JNull
    | JBool(b: bool)
    | JNum(n: int)
    | JStr(s: string)
    | JArr(items: seq<Json>)
    | JObj(fields: seq<Field>)

  function Lookup(fields: seq<Field>, key: string): Json {
    if fields == [] then JNull
    else if fields[0].key == key then fields[0].value
    else Lookup(fields[1..], key)
  }

  predicate HasKey(fields: seq<Field>, key: string) {
    exists i :: 0 <= i < |fields| && fields[i].key == key
  }

  /** `j.get(key)` on an object; a missing key reads as null. */
  function Get(j: Json, key: string): Json {
    if j.JObj? then Lookup(j.fields, key) else JNull
  }

  /** Python's `bool(j)`. */
  predicate Truthy(j: Json) {
    match j
    case JNull => false
    case JBool(b) => b
    case JNum(n) => n != 0
    case JStr(s) => s != ""
    case JArr(items) => items != []
    case JObj(fields) => fields != []
  }

  /** The values that count as false. */
  lemma FalsyExactly(j: Json)
    ensures !Truthy(j) <==> j in {JNull, JBool(false), JNum(0), JStr(""), JArr([]), JObj([])}
  {
  }
}
