/** JSON values as the JavaScript code sees them after `JSON.parse` or an
    editor's `toJSON()`, with object property lookup and JavaScript
    truthiness. A property that is absent reads as `undefined`, modelled as
    `None`. */
module Json {
  import opened Wrappers

  datatype Json =
    | JNull
    | JBool(b: bool)
    | JNum(n: real)
    | JStr(s: string)
    | JArr(items: seq<Json>)
    | JObj(fields: seq<Field>)

  datatype Field = Field(key: string, value: Json)

  /** Index of the first field named `key`. */
  function FindField(fields: seq<Field>, key: string): (r: Option<nat>)
    ensures r.Some? ==> r.value < |fields| && fields[r.value].key == key
    ensures r.Some? ==> forall j :: 0 <= j < r.value ==> fields[j].key != key
    ensures r.None? <==> forall j :: 0 <= j < |fields| ==> fields[j].key != key
  {
    if |fields| == 0 then None
    else if fields[0].key == key then Some(0)
    else match FindField(fields[1..], key)
      case None => None
      case Some(i) => Some(i + 1)
  }

  /** `node[key]` on any JSON value: only objects have properties here
      (the properties of strings and arrays that the code reads, `text`,
      `children`, `root`, `type`, are all `undefined` on them). A field list
      stands for an object with distinct keys: `Get` takes the first field of
      a key, whereas `JSON.parse` would keep the last of duplicated keys. */
  function Get(node: Json, key: string): (r: Option<Json>)
    ensures r.Some? ==> r.value < node
    ensures r.Some? ==> node.JObj?
  {
    match node
    case JObj(fields) =>
      (match FindField(fields, key)
       case None => None
       case Some(i) => Some(fields[i].value))
    case _ => None
  }

  /** JavaScript truthiness of a JSON value. */
  predicate Truthy(v: Json) {
    match v
    case JNull => false
    case JBool(b) => b
    case JNum(n) => n != 0.0
    case JStr(s) => s != ""
    case JArr(_) => true
    case JObj(_) => true
  }

  /** Truthiness of a property read, where `undefined` is falsy. */
  predicate TruthyOpt(v: Option<Json>) {
    v.Some? && Truthy(v.value)
  }

  /** Reading back a field of an object literal built with distinct keys. */
  lemma GetOfLiteral(fields: seq<Field>, i: nat)
    requires i < |fields|
    requires forall j :: 0 <= j < i ==> fields[j].key != fields[i].key
    ensures Get(JObj(fields), fields[i].key) == Some(fields[i].value)
  {
  }
}
