/**
 * The loosely typed JavaScript values that flow through the import pipeline and
 * the exports: parsed JSON, CSV rows and lean database documents.
 */
module JsValue {
  import opened Text

  /** A JSON-like JavaScript value; `StrMap` is a `Map<string, string>` object.
      Numbers are the finite ones JSON can carry. */
  datatype Value =
    | Undefined
    | Null
    | Bool(b: bool)
    | Num(n: real)
    | Str(s: string)
    | Arr(items: seq<Value>)
    | Obj(fields: map<string, Value>)
    | StrMap(entries: map<string, string>)

  /** A plain object, such as one product document or one CSV row. */
  type Row = map<string, Value>

  /** `o[key]`: a missing key reads as `undefined`. */
  function Get(o: Row, key: string): Value {
    if key in o then o[key] else Undefined
  }

  predicate IsNullish(v: Value) {
    v.Undefined? || v.Null?
  }

  /** `v ?? fallback` */
  function Coalesce(v: Value, fallback: Value): (r: Value)
    ensures !IsNullish(v) ==> r == v
    ensures IsNullish(v) ==> r == fallback
  {
    if IsNullish(v) then fallback else v
  }

  /** JavaScript truthiness. */
  predicate Truthy(v: Value) {
    match v
    case Undefined => false
    case Null => false
    case Bool(b) => b
    case Num(n) => n != 0.0
    case Str(s) => s != ""
    case _ => true
  }

  /** `String(v)`; `fmt` renders a number as JavaScript prints it (not modelled). */
  function ToStr(v: Value, fmt: real -> string): string {
    match v
    case Undefined => "undefined"
    case Null => "null"
    case Bool(b) => if b then "true" else "false"
    case Num(n) => fmt(n)
    case Str(s) => s
    case Arr(items) => Join(ItemStrings(items, fmt), ",")
    case Obj(_) => "[object Object]"
    case StrMap(_) => "[object Map]"
  }

  /** The pieces `Array.prototype.join` glues together: `null` and `undefined` print as "". */
  function ItemStrings(items: seq<Value>, fmt: real -> string): (r: seq<string>)
    ensures |r| == |items|
  {
    if items == [] then []
    else [if IsNullish(items[0]) then "" else ToStr(items[0], fmt)] + ItemStrings(items[1..], fmt)
  }
}
