/**
 * The JSON values the canon files and the plan are made of, with the Python
 * reading of them the scripts rely on: `dict.get` with a default, truthiness,
 * iteration over a string or a list of strings, and set membership.
 */
module Json {
  import opened Wrappers

  /** A decoded JSON value. Numbers are integers; see README for floats. */
  datatype Value =
    | Null
    | Bool(b: bool)
    | Num(n: int)
    | Str(s: string)
    | Arr(items: seq<Value>)
    | Obj(fields: map<string, Value>)

  /** A JSON object as `json.load` returns it: a `dict` keyed by strings. */
  type Entry = map<string, Value>

  /** A canon file as the loader sees it: `None` when the file is missing or is not valid JSON. */
  type CanonFile = Option<Entry>

  /** `entry.get(key, default)` */
  function Get(e: Entry, key: string, default: Value): Value {
    if key in e then e[key] else default
  }

  /** Python truthiness of a decoded JSON value. */
  predicate Truthy(v: Value) {
    match v
    case Null => false
    case Bool(b) => b
    case Num(n) => n != 0
    case Str(s) => s != []
    case Arr(a) => a != []
    case Obj(m) => m != map[]
  }

  /** Values Python can put in a `set`: everything but lists and dicts. */
  predicate Hashable(v: Value) {
    !v.Arr? && !v.Obj?
  }

  /**
   * The value a hashable value is compared as inside a Python `set`:
   * `True == 1` and `False == 0`, so booleans meet the integers.
   */
  function SetKey(v: Value): (k: Value)
    ensures !k.Bool?
    ensures Truthy(k) == Truthy(v)
    ensures v.Str? ==> k == v
  {
    if v.Bool? then Num(if v.b then 1 else 0) else v
  }

  /** `entry.get(key, "")` is a string. */
  predicate HasStr(e: Entry, key: string) {
    key !in e || e[key].Str?
  }

  /** `entry.get(key, "")` for a key that is absent or holds a string. */
  function StrField(e: Entry, key: string): (r: string)
    requires HasStr(e, key)
    ensures key in e ==> Str(r) == e[key]
    ensures key !in e ==> r == ""
  {
    if key in e then e[key].s else ""
  }

  /** Iterating `v` yields strings: `v` is a string (its characters) or a list of strings. */
  predicate IsStrings(v: Value) {
    v.Str? || (v.Arr? && forall i :: 0 <= i < |v.items| ==> v.items[i].Str?)
  }

  /** `[t for t in v]` for a string or a list of strings. */
  function Strings(v: Value): (r: seq<string>)
    requires IsStrings(v)
    ensures v.Str? ==> |r| == |v.s| && forall i :: 0 <= i < |r| ==> r[i] == [v.s[i]]
    ensures v.Arr? ==> |r| == |v.items| && forall i :: 0 <= i < |r| ==> Str(r[i]) == v.items[i]
  {
    if v.Str? then seq(|v.s|, i requires 0 <= i < |v.s| => [v.s[i]])
    else seq(|v.items|, i requires 0 <= i < |v.items| => v.items[i].s)
  }

  /** `entry.get(key, [])` iterates over strings. */
  predicate HasStrings(e: Entry, key: string) {
    key !in e || IsStrings(e[key])
  }

  /** `list(entry.get(key, []))` when it is a string or a list of strings. */
  function StringsField(e: Entry, key: string): (r: seq<string>)
    requires HasStrings(e, key)
    ensures key !in e ==> r == []
  {
    if key in e then Strings(e[key]) else []
  }

  /** `v` is a list of objects. */
  predicate IsObjects(v: Value) {
    v.Arr? && forall i :: 0 <= i < |v.items| ==> v.items[i].Obj?
  }

  /** `entry.get(key, [])` is a list of objects. */
  predicate HasObjects(e: Entry, key: string) {
    key !in e || IsObjects(e[key])
  }

  /** `entry.get(key, [])` as the list of dicts it holds. */
  function ObjectsField(e: Entry, key: string): (r: seq<Entry>)
    requires HasObjects(e, key)
    ensures key !in e ==> r == []
    ensures key in e ==> |r| == |e[key].items| && forall i :: 0 <= i < |r| ==> Obj(r[i]) == e[key].items[i]
  {
    if key in e then
      var a := e[key].items;
      seq(|a|, i requires 0 <= i < |a| => a[i].fields)
    else []
  }
}
