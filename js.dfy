/** The JSON-born JavaScript values that the bot's records are made of, with JavaScript's truthiness and string conversion. */
module Js {
  import opened Text

  /** A JavaScript value as it comes out of `JSON.parse` or an object literal (numbers are integers here). */
  datatype Value =
    | Undefined
    | Null
    | Bool(b: bool)
    | Int(i: int)
    | Str(s: string)
    | Array(items: seq<Value>)
    | Object(props: map<string, Value>)

  /** JavaScript truthiness: `false`, `0`, `""`, `null` and `undefined` are falsy; arrays and objects, even empty ones, are truthy. */
  predicate Truthy(v: Value) {
    match v
    case Undefined => false
    case Null => false
    case Bool(b) => b
    case Int(i) => i != 0
    case Str(s) => s != ""
    case Array(_) => true
    case Object(_) => true
  }

  /** `String(v)`, which is what a template literal writes for `${v}`. */
  function ToText(v: Value): string
    decreases v
  {
    match v
    case Undefined => "undefined"
    case Null => "null"
    case Bool(b) => if b then "true" else "false"
    case Int(i) => if i < 0 then "-" + NatToString(-i) else NatToString(i)
    case Str(s) => s
    case Array(items) =>
      // Array.prototype.toString joins the elements with commas, writing null and undefined as nothing.
      Join(seq(|items|, k requires 0 <= k < |items| =>
        if items[k].Undefined? || items[k].Null? then "" else ToText(items[k])), ",")
    case Object(_) => "[object Object]"
  }

  /** `v.key` for a value whose property access does not throw, and for a key that is not an inherited property. */
  function Get(v: Value, key: string): Value {
    if v.Object? && key in v.props then v.props[key] else Undefined
  }

  /** The properties of an object literal whose fields, in writing order, are `fields`: a later field with the same key wins. */
  function Props(fields: seq<(string, Value)>): map<string, Value> {
    if fields == [] then map[]
    else
      var last := fields[|fields| - 1];
      Props(fields[..|fields| - 1])[last.0 := last.1]
  }

  /** A field whose key no later field repeats is read back as its value. */
  lemma {:induction false} PropsAt(fields: seq<(string, Value)>, i: nat)
    requires i < |fields|
    requires forall j :: i < j < |fields| ==> fields[j].0 != fields[i].0
    ensures Get(Object(Props(fields)), fields[i].0) == fields[i].1
  {
    if i < |fields| - 1 {
      PropsAt(fields[..|fields| - 1], i);
    }
  }
}
