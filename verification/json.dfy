/** Decoded JSON values. The same type stands for the Python values the application handles
    (None, bool, int, str, list, dict) and for the JavaScript values its pages hold. */
module Json {
  import opened Wrappers
  import Text
  import Numerals

  datatype Value =
    | Null
    | Bool(b: bool)
    | Num(n: int)
    | Str(s: string)
    | Arr(items: seq<Value>)
    | Obj(fields: seq<(string, Value)>)

  /** An object with the given fields, in order. */
  function Object(fields: seq<(string, Value)>): Value { Obj(fields) }

  /** The value stored under key in an object: the last field with that name, as for a
      Python dict built by json.loads. None for a missing key or a non-object. */
  function Get(v: Value, key: string): (r: Option<Value>)
    ensures r.Some? ==> v.Obj?
    decreases if v.Obj? then |v.fields| else 0
  {
    if !v.Obj? || |v.fields| == 0 then None
    else
      var last := v.fields[|v.fields| - 1];
      if last.0 == key then Some(last.1)
      else
        var r := Get(Obj(v.fields[..|v.fields| - 1]), key);
        r
  }

  /** Get finds a field with the key and its value, and it finds nothing only when no field
      has the key. */
  lemma {:induction false} GetSpec(v: Value, key: string)
    requires v.Obj?
    ensures Get(v, key).Some? ==> exists i :: 0 <= i < |v.fields| && v.fields[i] == (key, Get(v, key).value)
    ensures Get(v, key).None? <==> forall i :: 0 <= i < |v.fields| ==> v.fields[i].0 != key
    decreases |v.fields|
  {
    if |v.fields| > 0 {
      var init := Obj(v.fields[..|v.fields| - 1]);
      GetSpec(init, key);
      assert forall i :: 0 <= i < |init.fields| ==> init.fields[i] == v.fields[i];
    }
  }

  /** The fields with every pair under key given the new value, in place. */
  function ReplaceAll(fields: seq<(string, Value)>, key: string, value: Value): (r: seq<(string, Value)>)
    ensures |r| == |fields|
    ensures forall i :: 0 <= i < |r| ==> r[i] == if fields[i].0 == key then (key, value) else fields[i]
  {
    if |fields| == 0 then []
    else
      var last := fields[|fields| - 1];
      ReplaceAll(fields[..|fields| - 1], key, value) + [if last.0 == key then (key, value) else last]
  }

  /** Python's d[key] = value and JavaScript's {...o, [key]: value}: an existing key keeps its
      place and takes the new value, a new key goes at the end. */
  function Set(v: Value, key: string, value: Value): (r: Value)
    requires v.Obj?
    ensures r.Obj?
  {
    if Get(v, key).Some? then Obj(ReplaceAll(v.fields, key, value))
    else Obj(v.fields + [(key, value)])
  }

  /** One step of Get on a non-empty object: the last field decides, or the rest does. */
  lemma GetStep(fields: seq<(string, Value)>, k: string)
    requires |fields| > 0
    ensures Get(Obj(fields), k)
            == if fields[|fields| - 1].0 == k then Some(fields[|fields| - 1].1)
               else Get(Obj(fields[..|fields| - 1]), k)
  {}

  lemma {:induction false} GetReplaceAll(fields: seq<(string, Value)>, key: string, value: Value, k: string)
    ensures Get(Obj(ReplaceAll(fields, key, value)), k)
            == if k == key && Get(Obj(fields), k).Some? then Some(value) else Get(Obj(fields), k)
    decreases |fields|
  {
    if |fields| > 0 {
      var r := ReplaceAll(fields, key, value);
      var n := |fields|;
      assert r[..n - 1] == ReplaceAll(fields[..n - 1], key, value);
      assert r[n - 1].0 == fields[n - 1].0;
      GetStep(fields, k);
      GetStep(r, k);
      GetReplaceAll(fields[..n - 1], key, value, k);
    }
  }

  /** After d[key] = value, d.get(key) is value and every other key reads as before. */
  lemma {:induction false} GetSet(v: Value, key: string, value: Value, k: string)
    requires v.Obj?
    ensures Get(Set(v, key, value), k) == if k == key then Some(value) else Get(v, k)
  {
    if Get(v, key).Some? {
      GetReplaceAll(v.fields, key, value, k);
    } else {
      var fs := v.fields + [(key, value)];
      assert fs[..|fs| - 1] == v.fields;
    }
  }

  /** Python's `key in d`. */
  predicate Has(v: Value, key: string) { Get(v, key).Some? }

  /** Python's d.get(key, default). */
  function GetOr(v: Value, key: string, default: Value): Value {
    Get(v, key).GetOr(default)
  }

  /** Python's d.get(key): None for a missing key. */
  function GetOrNull(v: Value, key: string): Value {
    Get(v, key).GetOr(Null)
  }

  /** Python truthiness: None, False, 0, "" and the empty list and dict are falsy. */
  predicate Truthy(v: Value) {
    match v
    case Null => false
    case Bool(b) => b
    case Num(n) => n != 0
    case Str(s) => |s| > 0
    case Arr(items) => |items| > 0
    case Obj(fields) => |fields| > 0
  }

  /** JavaScript truthiness: null, false, 0 and "" are falsy, and every array and object,
      empty or not, is truthy. */
  predicate JsTruthy(v: Value) {
    match v
    case Null => false
    case Bool(b) => b
    case Num(n) => n != 0
    case Str(s) => |s| > 0
    case Arr(_) => true
    case Obj(_) => true
  }

  /** The two truthiness rules part exactly on the empty array and the empty object. */
  lemma TruthyDiffers(v: Value)
    ensures JsTruthy(v) != Truthy(v) <==> v == Arr([]) || v == Obj([])
    ensures Truthy(v) ==> JsTruthy(v)
  {
  }

  /** JavaScript's String(v): "null", "true"/"false", the decimal digits of a number, the
      text itself, an array's elements joined by "," (null elements as ""), and
      "[object Object]" for an object. */
  function JsString(v: Value): (r: string)
    ensures v.Str? ==> r == v.s
    ensures v.Num? ==> r == Numerals.IntToString(v.n)
    ensures v == Arr([]) ==> r == ""
    ensures v.Arr? && |v.items| == 1 ==> r == JsElement(v.items[0])
    decreases v, 1
  {
    match v
    case Null => "null"
    case Bool(b) => if b then "true" else "false"
    case Num(n) => Numerals.IntToString(n)
    case Str(s) => s
    case Arr(items) => Text.Join(",", seq(|items|, i requires 0 <= i < |items| => JsElement(items[i])))
    case Obj(_) => "[object Object]"
  }

  /** An array element as Array.prototype.join writes it: null as "", anything else as
      String() does. */
  function JsElement(v: Value): string
    decreases v, 2
  {
    if v.Null? then "" else JsString(v)
  }

  /** Python's repr() of a value nested in a list or dict (quotes inside strings are not
      escaped). */
  function Repr(v: Value): string
    decreases v, 2
  {
    match v
    case Str(s) => "'" + s + "'"
    case _ => PyStr(v)
  }

  /** Python's str(): "None", "True"/"False", decimal digits, the string itself, or the
      bracketed repr of a list or dict. */
  function PyStr(v: Value): string
    decreases v, 1
  {
    match v
    case Null => "None"
    case Bool(b) => if b then "True" else "False"
    case Num(n) => Numerals.IntToString(n)
    case Str(s) => s
    case Arr(items) =>
      "[" + Text.Join(", ", seq(|items|, i requires 0 <= i < |items| => Repr(items[i]))) + "]"
    case Obj(fields) =>
      "{" + Text.Join(", ", seq(|fields|, i requires 0 <= i < |fields| =>
                                 "'" + fields[i].0 + "': " + Repr(fields[i].1))) + "}"
  }

  /** A value that can be a dict key or a set element in Python (lists and dicts cannot). */
  predicate Hashable(v: Value) { !v.Arr? && !v.Obj? }

  /** Python's `(x or "")`, the way the application reads a text field before calling
      .strip() or .lower() on it: a falsy value reads as "", a string as itself, and any
      other value raises AttributeError (Err). */
  function TextOr(x: Option<Value>): (r: Result<string, string>)
    ensures x.None? ==> r == Ok("")
    ensures x.Some? && x.value.Str? ==> r == Ok(x.value.s)
    ensures r.Err? <==> x.Some? && Truthy(x.value) && !x.value.Str?
  {
    if x.None? || !Truthy(x.value) then Ok("")
    else if x.value.Str? then Ok(x.value.s)
    else Err("AttributeError: '" + TypeName(x.value) + "' object has no attribute 'strip'")
  }

  function TypeName(v: Value): string {
    match v
    case Null => "NoneType"
    case Bool(_) => "bool"
    case Num(_) => "int"
    case Str(_) => "str"
    case Arr(_) => "list"
    case Obj(_) => "dict"
  }

  /** The distinct keys of an object in first-occurrence order (Python dict iteration). */
  function Keys(fields: seq<(string, Value)>): (r: seq<string>)
    ensures forall k :: k in r <==> exists i :: 0 <= i < |fields| && fields[i].0 == k
  {
    if |fields| == 0 then []
    else
      var rest := Keys(fields[..|fields| - 1]);
      var k := fields[|fields| - 1].0;
      if k in rest then rest else rest + [k]
  }

  /** Python's `for x in v`: the elements of a list, the keys of a dict, the characters of a
      string; None (TypeError) for None, bools and numbers. */
  function Iterate(v: Value): (r: Option<seq<Value>>)
    ensures v.Arr? ==> r == Some(v.items)
    ensures r.None? <==> v.Null? || v.Bool? || v.Num?
  {
    match v
    case Arr(items) => Some(items)
    case Obj(fields) =>
      var ks := Keys(fields);
      Some(seq(|ks|, i requires 0 <= i < |ks| => Str(ks[i])))
    case Str(s) => Some(seq(|s|, i requires 0 <= i < |s| => Str([s[i]])))
    case _ => None
  }
}
