/** The tolerant readers the routes apply to stored values: four integer coercions that fall
    back to a default instead of raising, and two JSON readers that fall back to a default
    (or to []) for blank or malformed text. */
module Coerce {
  import opened Wrappers
  import opened Json
  import Text
  import Numerals
  import JsonCodec
  import Lists

  /** The analytics view's _to_int(v, default): None gives the default, a number (or bool)
      is truncated, anything else is read as text with int(float(s)), and blank or
      unreadable text gives the default. */
  function AnalyticsToInt(v: Value, default: int): (r: int)
    ensures v.Null? ==> r == default
    ensures v.Num? ==> r == v.n
    ensures v.Bool? ==> r == if v.b then 1 else 0
    ensures v.Str? && Numerals.ParseFloatTrunc(v.s).None? ==> r == default
    ensures v.Str? && Numerals.ParseFloatTrunc(v.s).Some? ==> r == Numerals.ParseFloatTrunc(v.s).value
  {
    match v
    case Null => default
    case Num(n) => n
    case Bool(b) => if b then 1 else 0
    case _ => Numerals.ParseFloatTrunc(PyStr(v)).GetOr(default)
  }

  /** Blank text never reads as a number. */
  lemma BlankIsUnreadable(s: string)
    requires |Text.PyStrip(s)| == 0
    ensures Numerals.ParseFloatTrunc(s).None?
  {}

  /** A list or dict never reads as a number: its text starts with a bracket. */
  lemma {:induction false} ContainerIsUnreadable(v: Value)
    requires v.Arr? || v.Obj?
    ensures Numerals.ParseFloatTrunc(PyStr(v)).None?
    ensures Numerals.ParsePyInt(PyStr(v)).None?
  {
    var s := PyStr(v);
    assert s[0] == '[' || s[0] == '{';
    assert !Text.IsPySpace(s[0]);
    Text.StripKeepsFront(s, Text.IsPySpace);
  }

  /** The rendering of an integer reads back as it through every decimal reader. */
  lemma {:induction false} AnalyticsToIntOfText(n: int, default: int)
    ensures AnalyticsToInt(Str(Numerals.IntToString(n)), default) == n
  {
    Numerals.IntToStringRoundTrip(n);
    Numerals.ParseFloatTruncOfInt(Numerals.IntToString(n));
  }

  /** The export job's inner to_int(x, default): None gives the default; everything else,
      numbers included, goes through str(x) and int(float(...)), so a bool reads as
      unreadable text ("True"/"False") and gives the default. */
  function JobToInt(v: Value, default: int): (r: int)
    ensures v.Null? ==> r == default
    ensures v.Bool? ==> r == default
  {
    if v.Null? then default
    else
      var s := Text.PyStrip(PyStr(v));
      if s == "" then default else Numerals.ParseFloatTrunc(s).GetOr(default)
  }

  /** The job's to_int agrees with the view's _to_int on everything but bools. */
  lemma {:induction false} JobToIntAgrees(v: Value, default: int)
    requires !v.Bool?
    ensures JobToInt(v, default) == AnalyticsToInt(v, default)
  {
    match v
    case Null =>
    case Num(n) => JobReadsNumber(n, default);
    case Str(t) => JobReadsText(t, default);
    case Arr(_) => JobReadsContainer(v, default);
    case Obj(_) => JobReadsContainer(v, default);
  }

  lemma JobReadsNumber(n: int, default: int)
    ensures JobToInt(Num(n), default) == n
  {
    var s := Numerals.IntToString(n);
    Numerals.IntToStringRoundTrip(n);
    Numerals.ParseFloatTruncOfInt(s);
    PyStripOfNumber(n);
    StripTwice(s);
  }

  lemma JobReadsText(t: string, default: int)
    ensures JobToInt(Str(t), default) == AnalyticsToInt(Str(t), default)
  {
    StripTwice(t);
  }

  lemma JobReadsContainer(v: Value, default: int)
    requires v.Arr? || v.Obj?
    ensures JobToInt(v, default) == default && AnalyticsToInt(v, default) == default
  {
    ContainerIsUnreadable(v);
    StripTwice(PyStr(v));
  }

  lemma PyStripOfNumber(n: int)
    ensures Text.PyStrip(Numerals.IntToString(n)) == Numerals.IntToString(n)
  {
    var s := Numerals.IntToString(n);
    assert !Text.IsPySpace(s[0]);
    assert !Text.IsPySpace(s[|s| - 1]) by {
      if n < 0 {
        assert s[|s| - 1] == Numerals.NatToString(-n)[|s| - 2];
      }
    }
    Text.StripNoop(s, Text.IsPySpace);
  }

  /** Reading stripped text is the same as reading the text. */
  lemma StripTwice(s: string)
    ensures Numerals.ParseFloatTrunc(Text.PyStrip(s)) == Numerals.ParseFloatTrunc(s)
  {
    Text.PyStripIdempotent(s);
  }

  /** The store's _ensure_int(v, default): as _to_int, and text that is "none" in any case
      also gives the default. */
  function EnsureInt(v: Value, default: int): (r: int)
    ensures v.Str? && Text.Lower(Text.PyStrip(v.s)) == "none" ==> r == default
    ensures v.Str? && |Text.PyStrip(v.s)| == 0 ==> r == default
  {
    match v
    case Null => default
    case Num(n) => n
    case Bool(b) => if b then 1 else 0
    case _ =>
      var s := Text.PyStrip(PyStr(v));
      if s == "" || Text.Lower(s) == "none" then default
      else Numerals.ParseFloatTrunc(s).GetOr(default)
  }

  /** The "none" test of _ensure_int changes nothing: such text is unreadable anyway, so the
      two store helpers compute the same function. */
  lemma {:induction false} EnsureIntAgrees(v: Value, default: int)
    ensures EnsureInt(v, default) == AnalyticsToInt(v, default)
  {
    if v.Str? || v.Arr? || v.Obj? {
      var s := Text.PyStrip(PyStr(v));
      StripTwice(PyStr(v));
      if s != "" && Text.Lower(s) == "none" {
        assert Text.LowerChar(s[0]) == 'n';
        assert s[0] == 'n' || s[0] == 'N';
        NoneIsUnreadable(s);
      }
    }
  }

  lemma NoneIsUnreadable(s: string)
    requires |s| == 4 && (s[0] == 'n' || s[0] == 'N')
    ensures Numerals.ParseFloatTrunc(s).None?
  {
    assert !Text.IsPySpace(s[0]);
    Text.StripKeepsFront(s, Text.IsPySpace);
  }

  /** Python's int(v): a number as it is, a bool as 0 or 1, whole-number text as its value;
      None where int() raises (None, lists, dicts, other text). */
  function PyInt(v: Value): (r: Option<int>)
    ensures v.Num? ==> r == Some(v.n)
    ensures v.Str? ==> r == Numerals.ParsePyInt(v.s)
    ensures v.Null? || v.Arr? || v.Obj? ==> r.None?
  {
    match v
    case Num(n) => Some(n)
    case Bool(b) => Some(if b then 1 else 0)
    case Str(s) => Numerals.ParsePyInt(s)
    case _ => None
  }

  /** int() undoes str() on every integer, whether it arrives as a number or as its text. */
  lemma PyIntOfText(n: int)
    ensures PyInt(Str(Numerals.IntToString(n))) == PyInt(Num(n)) == Some(n)
  {
    Numerals.IntToStringRoundTrip(n);
  }

  /** The projects page's _to_int(value, default): int(value), with the default where int()
      raises. */
  function ProjectsToInt(v: Value, default: int): (r: int)
    ensures PyInt(v).Some? ==> r == PyInt(v).value
    ensures PyInt(v).None? ==> r == default
  {
    PyInt(v).GetOr(default)
  }

  /** Whole-number text reads the same through int() and through int(float()). */
  lemma ProjectsToIntAgrees(s: string, default: int)
    requires Numerals.ParsePyInt(s).Some?
    ensures ProjectsToInt(Str(s), default) == AnalyticsToInt(Str(s), default)
  {
    Numerals.ParseFloatTruncOfInt(s);
  }

  /** The analytics job's _safe_parse_json(x, default): a falsy value gives the default, an
      already decoded list or dict is returned as it is, and anything else is read as
      JSON text, with the default for blank or malformed text. */
  function SafeParseJson(x: Value, default: Value): (r: Value)
    ensures !Truthy(x) ==> r == default
    ensures (x.Arr? || x.Obj?) && Truthy(x) ==> r == x
    ensures x.Str? && |Text.PyStrip(x.s)| == 0 ==> r == default
    ensures x.Str? && JsonCodec.Decode(Text.PyStrip(x.s)).None? ==> r == default
  {
    if !Truthy(x) then default
    else if x.Arr? || x.Obj? then x
    else
      var s := Text.PyStrip(PyStr(x));
      if s == "" then default
      else JsonCodec.Decode(s).GetOr(default)
  }

  /** What json.dumps wrote, _safe_parse_json reads back. */
  lemma {:induction false} SafeParseJsonOfEncoded(v: Value, ascii: bool, default: Value)
    ensures SafeParseJson(Str(JsonCodec.Encode(v, ascii)), default) == v
  {
    var s := JsonCodec.Encode(v, ascii);
    EncodedIsStripped(v, ascii);
    JsonCodec.DecodeEncode(v, ascii);
  }

  /** json.dumps output has no surrounding whitespace. */
  lemma {:induction false} EncodedIsStripped(v: Value, ascii: bool)
    ensures Text.PyStrip(JsonCodec.Encode(v, ascii)) == JsonCodec.Encode(v, ascii)
  {
    var s := JsonCodec.Encode(v, ascii);
    JsonCodec.EncodeEnds(v, ascii);
    assert !Text.IsPySpace(s[0]) && !Text.IsPySpace(s[|s| - 1]);
    Text.StripNoop(s, Text.IsPySpace);
  }

  /** The projects page's _safe_json_list(val): blank, malformed or scalar text gives [], a
      dict gives [dict], and a list keeps only its dict elements, in order. */
  function SafeJsonList(val: Option<string>): (r: seq<Value>)
    ensures forall i :: 0 <= i < |r| ==> r[i].Obj?
    ensures val.None? ==> r == []
    ensures val.Some? && |Text.PyStrip(val.value)| == 0 ==> r == []
    ensures val.Some? && JsonCodec.Decode(Text.PyStrip(val.value)).None? ==> r == []
    ensures val.Some? && JsonCodec.Decode(Text.PyStrip(val.value)).Some? ==>
              var v := JsonCodec.Decode(Text.PyStrip(val.value)).value;
              (v.Obj? ==> r == [v]) && (!v.Arr? && !v.Obj? ==> r == [])
  {
    var s := Text.PyStrip(val.GetOr(""));
    if s == "" then []
    else
      match JsonCodec.Decode(s)
      case Some(Obj(fields)) => [Obj(fields)]
      case Some(Arr(items)) => OnlyDicts(items)
      case _ => []
  }

  /** isinstance(x, dict) */
  predicate IsDict(x: Value) {
    x.Obj?
  }

  /** [x for x in items if isinstance(x, dict)]. */
  function OnlyDicts(items: seq<Value>): (r: seq<Value>)
    ensures |r| <= |items|
    ensures forall i :: 0 <= i < |r| ==> r[i].Obj?
    ensures forall x :: x in r <==> x in items && x.Obj?
  {
    if |items| == 0 then []
    else (if items[0].Obj? then [items[0]] else []) + OnlyDicts(items[1..])
  }

  /** The dict elements, in list order and nothing else. */
  lemma {:induction false} OnlyDictsInOrder(items: seq<Value>)
    ensures OnlyDicts(items) == Lists.Filter(items, IsDict)
  {
    if |items| > 0 {
      OnlyDictsInOrder(items[1..]);
    }
  }

  /** The list json.dumps wrote reads back as its dict elements. */
  lemma {:induction false} SafeJsonListOfEncoded(items: seq<Value>, ascii: bool)
    ensures SafeJsonList(Some(JsonCodec.Encode(Arr(items), ascii))) == OnlyDicts(items)
  {
    EncodedIsStripped(Arr(items), ascii);
    JsonCodec.DecodeEncode(Arr(items), ascii);
  }

  /** A dict json.dumps wrote reads back as a one-element list. */
  lemma {:induction false} SafeJsonListOfDict(fields: seq<(string, Value)>, ascii: bool)
    ensures SafeJsonList(Some(JsonCodec.Encode(Obj(fields), ascii))) == [Obj(fields)]
  {
    EncodedIsStripped(Obj(fields), ascii);
    JsonCodec.DecodeEncode(Obj(fields), ascii);
  }
}
