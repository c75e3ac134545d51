/** The JavaScript values the helpers inspect at run time. Objects are their
    own entries, in the order `Object.entries` yields them. */
module JsValues {

  datatype JsValue =
    | Undefined
    | Null
    | Bool(b: bool)
    | Num(n: real)
    | Str(s: string)
    | Obj(entries: seq<Entry>)

  datatype Entry = Entry(key: string, value: JsValue)

  /** JavaScript truthiness (`!v` is false exactly for these values). */
  predicate Truthy(v: JsValue) {
    match v
    case Undefined => false
    case Null => false
    case Bool(b) => b
    case Num(n) => n != 0.0
    case Str(s) => s != ""
    case Obj(_) => true
  }

  /** `obj[key]`: the value of the first entry with that key, `undefined`
      when there is none. */
  function Get(entries: seq<Entry>, key: string): (v: JsValue)
    ensures v != Undefined ==> exists i :: 0 <= i < |entries| && entries[i] == Entry(key, v)
  {
    if entries == [] then Undefined
    else if entries[0].key == key then entries[0].value
    else
      var v := Get(entries[1..], key);
      assert v != Undefined ==> exists i :: 0 <= i < |entries[1..]| && entries[1..][i] == Entry(key, v);
      v
  }
}
