/**
 * The JavaScript values that cross the viewer's boundaries: parsed JSON files,
 * IPC payloads and the objects the main process edits. Numbers are integers
 * here (the values involved are millisecond stamps and sizes).
 */
module Js {
  import opened Wrappers

  datatype Json =
    | Undefined
    | Null
    | Bool(b: bool)
    | Num(n: int)
    | Str(s: string)
    | Arr(items: seq<Json>)
    | Obj(fields: map<string, Json>)

  /** What reading and `JSON.parse`-ing a settings or state file gives. */
  datatype FileRead = Missing | Corrupt | Parsed(value: Json)

  /** JavaScript truthiness: `undefined`, `null`, `false`, `0` and `""` are falsy. */
  predicate Truthy(v: Json) {
    match v
    case Undefined => false
    case Null => false
    case Bool(b) => b
    case Num(n) => n != 0
    case Str(s) => s != ""
    case Arr(_) => true
    case Obj(_) => true
  }

  /** `v[k]` for the property names the viewer reads: primitives and arrays have none of them. */
  function Prop(v: Json, k: string): Json {
    if v.Obj? && k in v.fields then v.fields[k] else Undefined
  }

  /** JavaScript `null` for an absent string, the string otherwise. */
  function OrNull(s: Option<string>): Json {
    match s
    case None => Null
    case Some(x) => Str(x)
  }
}
