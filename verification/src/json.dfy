/** The JSON-shaped Python values that tools receive as parameters and
    story data: `None`, booleans, integers, strings, lists and dictionaries,
    with the few built-in operations the modelled code applies to them.

    Operations that Python only supports on some types (`.get` on a
    dictionary, `len`, iteration, hashing into a `set`) return `Raise` with
    the exception Python raises on the others. */
module Json {
  import opened Wrappers
  import opened Dicts
  import Text

  datatype Value =
    | Null
    | Bool(b: bool)
    | Int(i: int)
    | Str(s: string)
    | List(items: seq<Value>)
    | Obj(fields: Dict<string, Value>)

  /** Python truthiness: `None`, `False`, `0` and empty containers are false. */
  predicate Truthy(v: Value) {
    match v
    case Null => false
    case Bool(b) => b
    case Int(i) => i != 0
    case Str(s) => |s| > 0
    case List(items) => |items| > 0
    case Obj(fields) => |fields| > 0
  }

  /** `v.get(key, default)`: only dictionaries have `.get`. */
  function GetOr(v: Value, key: string, default: Value): (r: Result<Value>)
    ensures r.Raise? <==> !v.Obj?
    ensures r.Raise? ==> r.exc == AttributeError
    ensures v.Obj? && key !in Keys(v.fields) ==> r == Ok(default)
    ensures v.Obj? && key in Keys(v.fields) ==> r.Ok? && (key, r.value) in v.fields
    ensures v.Obj? ==> r == Ok(Field(v.fields, key, default))
  {
    match v
    case Obj(fields) => Ok(Get(fields, key).GetOr(default))
    case _ => Raise(AttributeError)
  }

  /** The field `key` of a dictionary, or `default`. */
  function Field(fields: Dict<string, Value>, key: string, default: Value): Value {
    Get(fields, key).GetOr(default)
  }

  /** `len(v)`. */
  function Len(v: Value): (r: Result<nat>)
    ensures r.Raise? <==> v.Null? || v.Bool? || v.Int?
    ensures r.Raise? ==> r.exc == TypeError
    ensures r.Ok? ==> (r.value == 0 <==> !Truthy(v))
  {
    match v
    case Str(s) => Ok(|s|)
    case List(items) => Ok(|items|)
    case Obj(fields) => Ok(|fields|)
    case _ => Raise(TypeError)
  }

  /** What `for x in v` visits: a list's items, a string's characters, a
      dictionary's keys. */
  function Iterate(v: Value): (r: Result<seq<Value>>)
    ensures r.Raise? <==> v.Null? || v.Bool? || v.Int?
    ensures r.Raise? ==> r.exc == TypeError
    ensures v.List? ==> r == Ok(v.items)
    ensures v.Str? ==> r.Ok? && |r.value| == |v.s| && forall i :: 0 <= i < |v.s| ==> r.value[i] == Str([v.s[i]])
    ensures v.Obj? ==> r.Ok? && |r.value| == |v.fields| && forall i :: 0 <= i < |v.fields| ==> r.value[i] == Str(v.fields[i].0)
    ensures r.Ok? ==> |r.value| == Len(v).value
  {
    match v
    case List(items) => Ok(items)
    case Str(s) => Ok(seq(|s|, i requires 0 <= i < |s| => Str([s[i]])))
    case Obj(fields) => Ok(seq(|fields|, i requires 0 <= i < |fields| => Str(fields[i].0)))
    case _ => Raise(TypeError)
  }

  /** Lists and dictionaries cannot be set members or dictionary keys. */
  predicate Hashable(v: Value) {
    !v.List? && !v.Obj?
  }

  /** `set(v)`: the items of `v`, each of which must be hashable. */
  function SetOf(v: Value): (r: Result<set<Value>>)
    ensures r.Raise? <==> Iterate(v).Raise? || exists x :: x in Iterate(v).value && !Hashable(x)
    ensures r.Raise? ==> r.exc == TypeError
    ensures r.Ok? ==> forall x :: x in r.value <==> x in Iterate(v).value
  {
    var xs :- Iterate(v);
    if forall x | x in xs :: Hashable(x) then Ok(set x | x in xs) else Raise(TypeError)
  }

  /** `bool(set(a) & set(b))`. */
  function Overlap(a: Value, b: Value): (r: Result<bool>)
    ensures r.Raise? <==> SetOf(a).Raise? || SetOf(b).Raise?
    ensures r.Ok? ==> (r.value <==> exists x :: x in Iterate(a).value && x in Iterate(b).value)
  {
    var sa :- SetOf(a);
    var sb :- SetOf(b);
    if exists x :: x in Iterate(a).value && x in Iterate(b).value then
      var x :| x in Iterate(a).value && x in Iterate(b).value;
      assert x in sa * sb;
      Ok(true)
    else
      assert sa * sb == {};
      Ok(false)
  }

  /** Python `repr(v)`; strings are shown in single quotes. */
  function Repr(v: Value): (r: string)
    ensures |r| > 0
  {
    match v
    case Null => "None"
    case Bool(b) => if b then "True" else "False"
    case Int(i) => Text.IntToStr(i)
    case Str(s) => "'" + s + "'"
    case List(items) =>
      "[" + Text.Join(", ", seq(|items|, k requires 0 <= k < |items| => Repr(items[k]))) + "]"
    case Obj(fields) =>
      "{" + Text.Join(", ", seq(|fields|, k requires 0 <= k < |fields| =>
                                   "'" + fields[k].0 + "': " + Repr(fields[k].1))) + "}"
  }

  /** Python `str(v)`, as an f-string interpolates it: a string is shown
      as it is, anything else as its `repr`. */
  function Display(v: Value): (r: string)
    ensures v.Str? ==> r == v.s
    ensures !v.Str? ==> r == Repr(v)
  {
    if v.Str? then v.s else Repr(v)
  }
}
