/** JSON values as `json.loads` produces them, with Python's truthiness and `str()`. */
module Json {

  /** A decoded JSON value. Objects are Python dicts, read only through `get`. */
  datatype Json =
    | JNull
    | JBool(b: bool)
    | JInt(i: int)
    | JFloat(f: real)
    | JStr(s: string)
    | JList(items: seq<Json>)
    | JObj(fields: map<string, Json>)

  /** A JSON object, as the dict handed to the converter. */
  type Obj = map<string, Json>

  /** Python's `bool(v)`: what `if v:` and `a or b` test. */
  predicate Truthy(v: Json) {
    match v
    case JNull => false
    case JBool(b) => b
    case JInt(i) => i != 0
    case JFloat(f) => f != 0.0
    case JStr(s) => s != ""
    case JList(items) => items != []
    case JObj(fields) => fields != map[]
  }

  /** Python's `str(v)`. A string is returned as it is; the rendering of every
      other value is Python's repr rules, supplied by the caller as `repr`. */
  function Str(repr: Json -> string, v: Json): (r: string)
    ensures v.JStr? ==> r == v.s
    ensures !v.JStr? ==> r == repr(v)
  {
    if v.JStr? then v.s else repr(v)
  }

  /** `str(o.get(key, default))` for a string default. */
  function GetStr(repr: Json -> string, o: Obj, key: string, default: string): (r: string)
    ensures key !in o ==> r == default
    ensures key in o ==> r == Str(repr, o[key])
    ensures key in o && o[key].JStr? ==> r == o[key].s
  {
    if key in o then Str(repr, o[key]) else default
  }

  /** `o.get(key) or fallback`: the value at `key` when present and truthy, else `fallback`. */
  function GetOr(o: Obj, key: string, fallback: Json): (r: Json)
    ensures key in o && Truthy(o[key]) ==> r == o[key]
    ensures !(key in o && Truthy(o[key])) ==> r == fallback
  {
    if key in o && Truthy(o[key]) then o[key] else fallback
  }
}
