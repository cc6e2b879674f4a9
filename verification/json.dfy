/** JSON values as the exporter sees them after axios has parsed a reply,
    together with the two pieces of JavaScript semantics the core relies on:
    truthiness and property reads. */
module Json {
  import opened Wrappers

  /** A parsed JSON document. Numbers are restricted to integers. */
  datatype Value =
    | Null
    | Bool(b: bool)
    | Num(n: int)
    | Str(s: string)
    | Arr(items: seq<Value>)
    | Obj(fields: map<string, Value>)

  /** JavaScript truthiness of a JSON value: `null`, `false`, `0` and `""`
      are falsy, everything else (including empty arrays and objects) is truthy. */
  function Truthy(v: Value): (t: bool)
    ensures !t <==> v == Null || v == Bool(false) || v == Num(0) || v == Str("")
  {
    match v
    case Null => false
    case Bool(b) => b
    case Num(n) => n != 0
    case Str(s) => s != ""
    case Arr(_) => true
    case Obj(_) => true
  }

  /** Reading `v[key]` on a value that is not `null`, restricted to own
      fields: an object's own field, and `undefined` (None) otherwise. Members
      JavaScript would also find (those inherited from `Object.prototype` such
      as `constructor`, and `length` or index keys on arrays and strings) are
      not represented; the exporter reads none of them. */
  function Get(v: Value, key: string): (r: Option<Value>)
    requires !v.Null?
    ensures r.Some? <==> v.Obj? && key in v.fields
    ensures r.Some? ==> r.value == v.fields[key]
  {
    match v
    case Obj(fields) => if key in fields then Some(fields[key]) else None
    case _ => None
  }

  /** The items of a page (export-ghl.js:124): the value stored under `key`
      when it is an array, and no items when the field is missing or holds
      anything else. */
  function ArrayAt(v: Value, key: string): (items: seq<Value>)
    requires !v.Null?
    ensures Get(v, key).Some? && Get(v, key).value.Arr? ==> items == Get(v, key).value.items
    ensures !(Get(v, key).Some? && Get(v, key).value.Arr?) ==> items == []
  {
    match Get(v, key)
    case Some(Arr(xs)) => xs
    case _ => []
  }
}
