/** Text form of the embedded list fields: Encode writes what Python's json.dumps writes with
    its default separators (", " and ": "), either with its default ensure_ascii (every
    character outside ' '..'~' written as a \uXXXX escape, surrogate pairs above U+FFFF)
    or with ensure_ascii=False; Decode reads what json.loads reads, for integer numbers. The
    round trip Decode(Encode(v, ascii)) == v is what lets a later read of a cell see exactly
    the entries an earlier write put there. */
module JsonCodec {
  import opened Wrappers
  import opened Json
  import Numerals

  // ---------------------------------------------------------------- encoding

  function HexDigit(d: nat): (c: char)
    requires d < 16
  {
    if d < 10 then ('0' as int + d) as char else ('a' as int + d - 10) as char
  }

  /** Two lower-case hex digits of a byte. */
  function Hex2(b: nat): (r: string)
    requires b < 0x100
    ensures |r| == 2
  {
    [HexDigit(b / 16), HexDigit(b % 16)]
  }

  /** Four lower-case hex digits, as in Python's '{0:04x}'. */
  function Hex4(v: nat): (r: string)
    requires v < 0x10000
    ensures |r| == 4
  {
    Hex2(v / 0x100) + Hex2(v % 0x100)
  }

  /** A \uXXXX escape. */
  function UEscape(v: nat): (r: string)
    requires v < 0x10000
    ensures |r| == 6
  {
    ['\\'] + (['u'] + Hex4(v))
  }

  /** json.dumps's escape of one character inside a string literal. With ascii (the default
      ensure_ascii=True) everything outside ' '..'~' is escaped, a character above U+FFFF as
      the escapes of its UTF-16 surrogate pair; without it only the quote, the backslash and
      control characters are. */
  function EscapeChar(c: char, ascii: bool): (r: string)
    ensures |r| > 0
  {
    if c == '"' then "\\\""
    else if c == '\\' then "\\\\"
    else if c == '\n' then "\\n"
    else if c == '\r' then "\\r"
    else if c == '\t' then "\\t"
    else if c == '\U{8}' then "\\b"
    else if c == '\U{c}' then "\\f"
    else if (c as int) < 0x20 then UEscape(c as int)
    else if !ascii || c <= '~' then [c]
    else if (c as int) < 0x10000 then UEscape(c as int)
    else
      var n := c as int - 0x10000;
      UEscape(0xD800 + n / 0x400) + UEscape(0xDC00 + n % 0x400)
  }

  function EscapeString(s: string, ascii: bool): string {
    if |s| == 0 then "" else EscapeChar(s[0], ascii) + EscapeString(s[1..], ascii)
  }

  function EncodeString(s: string, ascii: bool): (r: string)
    ensures |r| > 0 && r[0] == '"'
  {
    "\"" + EscapeString(s, ascii) + "\""
  }

  /** json.dumps(v). */
  function Encode(v: Value, ascii: bool): (r: string)
    ensures |r| > 0 && !IsWs(r[0]) && r[0] != ']' && r[0] != '}' 
    decreases v
  {
    match v
    case Null => "null"
    case Bool(b) => if b then "true" else "false"
    case Num(n) => Numerals.IntToString(n)
    case Str(s) => EncodeString(s, ascii)
    case Arr(items) => "[" + EncodeItems(items, ascii) + "]"
    case Obj(fields) => "{" + EncodeFields(fields, ascii) + "}"
  }

  function EncodeItems(items: seq<Value>, ascii: bool): (r: string)
    ensures |items| > 0 ==> |r| > 0 && !IsWs(r[0]) && r[0] != ']' 
    decreases items
  {
    if |items| == 0 then ""
    else if |items| == 1 then Encode(items[0], ascii)
    else Encode(items[0], ascii) + ", " + EncodeItems(items[1..], ascii)
  }

  function EncodeField(f: (string, Value), ascii: bool): (r: string)
    ensures |r| > 0 && r[0] == '"'
    decreases f, 0
  {
    EncodeString(f.0, ascii) + ": " + Encode(f.1, ascii)
  }

  function EncodeFields(fields: seq<(string, Value)>, ascii: bool): (r: string)
    ensures |fields| > 0 ==> |r| > 0 && r[0] == '"'
    decreases fields
  {
    if |fields| == 0 then ""
    else if |fields| == 1 then EncodeField(fields[0], ascii)
    else EncodeField(fields[0], ascii) + ", " + EncodeFields(fields[1..], ascii)
  }

  // ---------------------------------------------------------------- decoding

  /** Whitespace json.loads skips between tokens. */
  predicate IsWs(c: char) { c == ' ' || c == '\t' || c == '\n' || c == '\r' }

  function SkipWs(s: string): (r: string)
    ensures |r| <= |s|
    ensures |r| > 0 ==> !IsWs(r[0])
  {
    if |s| > 0 && IsWs(s[0]) then SkipWs(s[1..]) else s
  }

  function HexValue(c: char): (r: Option<nat>)
    ensures r.Some? ==> r.value < 16
  {
    if '0' <= c <= '9' then Some(c as int - '0' as int)
    else if 'a' <= c <= 'f' then Some(c as int - 'a' as int + 10)
    else if 'A' <= c <= 'F' then Some(c as int - 'A' as int + 10)
    else None
  }

  function HexPair(h: string): (r: Option<nat>)
    requires |h| == 2
    ensures r.Some? ==> r.value < 0x100
  {
    var a := HexValue(h[0]);
    var b := HexValue(h[1]);
    if a.None? || b.None? then None
    else Some(a.value * 16 + b.value)
  }

  /** The value of the four hex digits of a \uXXXX escape. */
  function HexQuad(h: string): (r: Option<nat>)
    requires |h| == 4
    ensures r.Some? ==> r.value < 0x10000
  {
    var a := HexPair(h[..2]);
    var b := HexPair(h[2..]);
    if a.None? || b.None? then None else Some(a.value * 0x100 + b.value)
  }

  /** Reads a \uXXXX escape after its `\u`. A high surrogate half must be followed by the
      escape of a low half, and the pair stands for one character above U+FFFF. */
  function ParseUnicode(s: string): (r: Option<(char, string)>)
    ensures r.Some? ==> |r.value.1| < |s|
  {
    if |s| < 4 then None
    else
      match HexQuad(s[..4])
      case None => None
      case Some(v) =>
        if v < 0xD800 || 0xE000 <= v then Some((v as char, s[4..]))
        else if v < 0xDC00 then ParseLowHalf(v, s[4..])
        else None
  }

  /** Reads the `\uXXXX` escape of the low surrogate half that must follow the high half hi. */
  function ParseLowHalf(hi: nat, s: string): (r: Option<(char, string)>)
    requires 0xD800 <= hi < 0xDC00
    ensures r.Some? ==> |r.value.1| < |s|
  {
    if |s| < 6 || s[0] != '\\' || s[1] != 'u' then None
    else
      match HexQuad(s[2..6])
      case None => None
      case Some(lo) =>
        if 0xDC00 <= lo < 0xE000 then
          Some(((0x10000 + (hi - 0xD800) * 0x400 + (lo - 0xDC00)) as char, s[6..]))
        else None
  }

  /** The character a one-letter escape `\e` stands for. */
  function SimpleEscape(e: char): Option<char> {
    if e == '"' then Some('"')
    else if e == '\\' then Some('\\')
    else if e == '/' then Some('/')
    else if e == 'b' then Some('\U{8}')
    else if e == 'f' then Some('\U{c}')
    else if e == 'n' then Some('\n')
    else if e == 'r' then Some('\r')
    else if e == 't' then Some('\t')
    else None
  }

  /** Reads an escape sequence after its backslash. */
  function ParseEscape(s: string): (r: Option<(char, string)>)
    ensures r.Some? ==> |r.value.1| < |s|
  {
    if |s| == 0 then None
    else if s[0] == 'u' then ParseUnicode(s[1..])
    else
      match SimpleEscape(s[0])
      case Some(c) => Some((c, s[1..]))
      case None => None
  }

  /** Reads one character of a string literal's contents (not the closing quote). Raw
      control characters are rejected, as json.loads does. */
  function ParseChar(s: string): (r: Option<(char, string)>)
    ensures r.Some? ==> |r.value.1| < |s|
  {
    if |s| == 0 then None
    else if s[0] == '\\' then ParseEscape(s[1..])
    else if (s[0] as int) < 0x20 then None
    else Some((s[0], s[1..]))
  }

  /** Reads the rest of a string literal after its opening quote: the decoded text and what
      follows the closing quote. */
  function ParseStringBody(s: string): (r: Option<(string, string)>)
    ensures r.Some? ==> |r.value.1| < |s|
    decreases |s|
  {
    if |s| == 0 then None
    else if s[0] == '"' then Some(("", s[1..]))
    else
      match ParseChar(s)
      case None => None
      case Some((c, tail)) =>
        match ParseStringBody(tail)
        case None => None
        case Some((body, rest)) => Some(([c] + body, rest))
  }

  /** Reads the digits of a number: either a single 0 or digits not starting with 0. */
  function ParseUnsigned(s: string): (r: Option<(nat, string)>)
    ensures r.Some? ==> |r.value.1| < |s|
  {
    var k := Numerals.DigitRun(s);
    if k == 0 then None
    else if s[0] == '0' then Some((0, s[1..]))
    else Some((Numerals.DigitsValue(s[..k]), s[k..]))
  }

  /** Reads an integer: an optional minus sign and its digits. */
  function ParseNumber(s: string): (r: Option<(int, string)>)
    ensures r.Some? ==> |r.value.1| < |s|
  {
    var neg := |s| > 0 && s[0] == '-';
    match ParseUnsigned(if neg then s[1..] else s)
    case None => None
    case Some((m, rest)) => Some((Numerals.Signed(neg, m), rest))
  }

  /** Reads one value starting at the first character of s. */
  function ParseValue(s: string): (r: Option<(Value, string)>)
    ensures r.Some? ==> |r.value.1| < |s|
    decreases |s|, 0
  {
    if |s| == 0 then None
    else if s[0] == 'n' then
      if |s| >= 4 && s[..4] == "null" then Some((Null, s[4..])) else None
    else if s[0] == 't' then
      if |s| >= 4 && s[..4] == "true" then Some((Bool(true), s[4..])) else None
    else if s[0] == 'f' then
      if |s| >= 5 && s[..5] == "false" then Some((Bool(false), s[5..])) else None
    else if s[0] == '"' then
      match ParseStringBody(s[1..])
      case None => None
      case Some((str, rest)) => Some((Str(str), rest))
    else if s[0] == '[' then ParseArray(s[1..])
    else if s[0] == '{' then ParseObject(s[1..])
    else
      match ParseNumber(s)
      case None => None
      case Some((n, rest)) => Some((Num(n), rest))
  }

  /** Reads the rest of an array after its opening bracket. */
  function ParseArray(s: string): (r: Option<(Value, string)>)
    ensures r.Some? ==> |r.value.1| < |s|
    decreases |s|, 2
  {
    var t := SkipWs(s);
    if |t| > 0 && t[0] == ']' then Some((Arr([]), t[1..]))
    else
      match ParseItems(t)
      case None => None
      case Some((items, rest)) => Some((Arr(items), rest))
  }

  /** Reads the rest of an object after its opening brace. */
  function ParseObject(s: string): (r: Option<(Value, string)>)
    ensures r.Some? ==> |r.value.1| < |s|
    decreases |s|, 2
  {
    var t := SkipWs(s);
    if |t| > 0 && t[0] == '}' then Some((Obj([]), t[1..]))
    else
      match ParseFields(t)
      case None => None
      case Some((fields, rest)) => Some((Obj(fields), rest))
  }

  /** Reads `value (, value)* ]` inside an array. */
  function ParseItems(s: string): (r: Option<(seq<Value>, string)>)
    ensures r.Some? ==> |r.value.1| < |s|
    decreases |s|, 1
  {
    match ParseValue(s)
    case None => None
    case Some((v, r1)) =>
      match ItemsAfter(r1)
      case None => None
      case Some((vs, rest)) => Some(([v] + vs, rest))
  }

  /** Reads what follows an array item: the closing bracket, or a comma and more items. */
  function ItemsAfter(s: string): (r: Option<(seq<Value>, string)>)
    ensures r.Some? ==> |r.value.1| < |s|
    decreases |s|, 2
  {
    var t := SkipWs(s);
    if |t| > 0 && t[0] == ']' then Some(([], t[1..]))
    else if |t| > 0 && t[0] == ',' then ParseItems(SkipWs(t[1..]))
    else None
  }

  /** Reads `"key" : value` inside an object. */
  function ParseField(s: string): (r: Option<((string, Value), string)>)
    ensures r.Some? ==> |r.value.1| < |s|
    decreases |s|, 0
  {
    if |s| == 0 || s[0] != '"' then None
    else
      match ParseStringBody(s[1..])
      case None => None
      case Some((key, r1)) =>
        var r2 := SkipWs(r1);
        if |r2| == 0 || r2[0] != ':' then None
        else
          match ParseValue(SkipWs(r2[1..]))
          case None => None
          case Some((v, rest)) => Some(((key, v), rest))
  }

  /** Reads `field (, field)* }` inside an object. */
  function ParseFields(s: string): (r: Option<(seq<(string, Value)>, string)>)
    ensures r.Some? ==> |r.value.1| < |s|
    decreases |s|, 1
  {
    match ParseField(s)
    case None => None
    case Some((f, r1)) =>
      match FieldsAfter(r1)
      case None => None
      case Some((fs, rest)) => Some(([f] + fs, rest))
  }

  /** Reads what follows an object field: the closing brace, or a comma and more fields. */
  function FieldsAfter(s: string): (r: Option<(seq<(string, Value)>, string)>)
    ensures r.Some? ==> |r.value.1| < |s|
    decreases |s|, 2
  {
    var t := SkipWs(s);
    if |t| > 0 && t[0] == '}' then Some(([], t[1..]))
    else if |t| > 0 && t[0] == ',' then ParseFields(SkipWs(t[1..]))
    else None
  }

  /** json.loads(s): one value, optionally surrounded by whitespace; None where json.loads
      raises. */
  function Decode(s: string): Option<Value> {
    match ParseValue(SkipWs(s))
    case None => None
    case Some((v, rest)) => if SkipWs(rest) == "" then Some(v) else None
  }

  // ---------------------------------------------------------------- round trip

  lemma {:induction false} SkipWsNoop(s: string)
    requires |s| == 0 || !IsWs(s[0])
    ensures SkipWs(s) == s
  {
  }

  lemma HexDigitValue(d: nat)
    requires d < 16
    ensures HexValue(HexDigit(d)) == Some(d)
  {}

  lemma Hex2RoundTrip(b: nat)
    requires b < 0x100
    ensures HexPair(Hex2(b)) == Some(b)
  {
    HexDigitValue(b / 16);
    HexDigitValue(b % 16);
  }

  lemma {:induction false} Hex4RoundTrip(v: nat)
    requires v < 0x10000
    ensures HexQuad(Hex4(v)) == Some(v)
  {
    var h := Hex4(v);
    assert h[..2] == Hex2(v / 0x100) && h[2..] == Hex2(v % 0x100);
    Hex2RoundTrip(v / 0x100);
    Hex2RoundTrip(v % 0x100);
  }

  /** Splits a \uXXXX escape followed by more text into its parts. */
  lemma UEscapeSplit(v: nat, tail: string)
    requires v < 0x10000
    ensures |UEscape(v) + tail| >= 6
    ensures (UEscape(v) + tail)[0] == '\\' && (UEscape(v) + tail)[1] == 'u'
    ensures (UEscape(v) + tail)[1..][1..] == Hex4(v) + tail
  {
    Assoc(['\\'], ['u'] + Hex4(v), tail);
    Assoc(['u'], Hex4(v), tail);
  }

  lemma {:induction false} UEscapeRoundTrip(v: nat, tail: string)
    requires v < 0x10000 && (v < 0xD800 || 0xE000 <= v)
    ensures ParseChar(UEscape(v) + tail) == Some((v as char, tail))
  {
    var t := Hex4(v) + tail;
    UEscapeSplit(v, tail);
    assert t[..4] == Hex4(v) && t[4..] == tail;
    Hex4RoundTrip(v);
  }

  lemma {:induction false} LowHalfRoundTrip(hi: nat, lo: nat, tail: string)
    requires 0xD800 <= hi < 0xDC00 && 0xDC00 <= lo < 0xE000
    ensures ParseLowHalf(hi, UEscape(lo) + tail)
         == Some(((0x10000 + (hi - 0xD800) * 0x400 + (lo - 0xDC00)) as char, tail))
  {
    var s := UEscape(lo) + tail;
    UEscapeSplit(lo, tail);
    assert s[2..6] == Hex4(lo) && s[6..] == tail;
    Hex4RoundTrip(lo);
  }

  /** The surrogate pair json.dumps writes for a character above U+FFFF reads back as it. */
  lemma {:induction false} PairRoundTrip(c: char, tail: string)
    requires c as int >= 0x10000
    ensures var n := c as int - 0x10000;
            ParseChar(UEscape(0xD800 + n / 0x400) + UEscape(0xDC00 + n % 0x400) + tail) == Some((c, tail))
  {
    var n := c as int - 0x10000;
    var hi := 0xD800 + n / 0x400;
    var lo := 0xDC00 + n % 0x400;
    var rest := UEscape(lo) + tail;
    Assoc(UEscape(hi), UEscape(lo), tail);
    UEscapeSplit(hi, rest);
    var t := Hex4(hi) + rest;
    assert t[..4] == Hex4(hi) && t[4..] == rest;
    Hex4RoundTrip(hi);
    LowHalfRoundTrip(hi, lo, tail);
    assert 0x10000 + (hi - 0xD800) * 0x400 + (lo - 0xDC00) == c as int;
  }

  lemma {:induction false} EscapeCharRoundTrip(c: char, tail: string, ascii: bool)
    ensures |EscapeChar(c, ascii) + tail| > 0 && (EscapeChar(c, ascii) + tail)[0] != '"'
    ensures ParseChar(EscapeChar(c, ascii) + tail) == Some((c, tail))
  {
    var s := EscapeChar(c, ascii) + tail;
    if c == '"' || c == '\\' || c == '\n' || c == '\r' || c == '\t' || c == '\U{8}' || c == '\U{c}' {
      assert s[1..] == [s[1]] + tail;
      assert s[1..][1..] == tail;
    } else if (c as int) < 0x20 {
      UEscapeSplit(c as int, tail);
      UEscapeRoundTrip(c as int, tail);
    } else if !ascii || c <= '~' {
      assert s[1..] == tail;
    } else if (c as int) < 0x10000 {
      UEscapeSplit(c as int, tail);
      UEscapeRoundTrip(c as int, tail);
    } else {
      var n := c as int - 0x10000;
      UEscapeSplit(0xD800 + n / 0x400, UEscape(0xDC00 + n % 0x400) + tail);
      Assoc(UEscape(0xD800 + n / 0x400), UEscape(0xDC00 + n % 0x400), tail);
      PairRoundTrip(c, tail);
    }
  }

  lemma StringStep(s: string, c: char, tail: string, body: string, rest: string)
    requires |s| > 0 && s[0] != '"'
    requires ParseChar(s) == Some((c, tail))
    requires ParseStringBody(tail) == Some((body, rest))
    ensures ParseStringBody(s) == Some(([c] + body, rest))
  {}

  lemma {:induction false} EscapeStringRoundTrip(str: string, rest: string, ascii: bool)
    ensures ParseStringBody(EscapeString(str, ascii) + "\"" + rest) == Some((str, rest))
    decreases |str|
  {
    if |str| == 0 {
      assert EscapeString(str, ascii) + "\"" + rest == "\"" + rest;
      assert ("\"" + rest)[1..] == rest;
    } else {
      var tail := EscapeString(str[1..], ascii) + "\"" + rest;
      assert EscapeString(str, ascii) + "\"" + rest == EscapeChar(str[0], ascii) + tail;
      EscapeCharRoundTrip(str[0], tail, ascii);
      EscapeStringRoundTrip(str[1..], rest, ascii);
      StringStep(EscapeChar(str[0], ascii) + tail, str[0], tail, str[1..], rest);
      ConsSplit(str);
    }
  }

  /** What may follow an encoded value without changing how it reads: nothing, or a
      character that cannot continue a number. */
  predicate Boundary(rest: string) {
    |rest| == 0 || !Numerals.IsDigit(rest[0])
  }

  lemma {:induction false} UnsignedRoundTrip(m: nat, rest: string)
    requires Boundary(rest)
    ensures ParseUnsigned(Numerals.NatToString(m) + rest) == Some((m, rest))
  {
    var d := Numerals.NatToString(m);
    var s := d + rest;
    Numerals.DigitRunOfDigits(d, rest);
    Numerals.NatToStringRoundTrip(m);
    assert s[..|d|] == d;
    assert s[|d|..] == rest;
    if d[0] == '0' {
      assert |d| == 1;
      assert s[1..] == rest;
    }
  }

  lemma NumberStep(s: string, neg: bool, m: nat, rest: string)
    requires neg <==> |s| > 0 && s[0] == '-'
    requires ParseUnsigned(if neg then s[1..] else s) == Some((m, rest))
    ensures ParseNumber(s) == Some((Numerals.Signed(neg, m), rest))
  {}

  lemma {:induction false} NumberRoundTrip(n: int, rest: string)
    requires Boundary(rest)
    ensures ParseNumber(Numerals.IntToString(n) + rest) == Some((n, rest))
  {
    if n < 0 {
      NegativeRoundTrip(n, rest);
    } else {
      var d := Numerals.NatToString(n);
      UnsignedRoundTrip(n, rest);
      assert (d + rest)[0] == d[0];
      NumberStep(d + rest, false, n, rest);
    }
  }

  lemma {:induction false} NegativeRoundTrip(n: int, rest: string)
    requires n < 0 && Boundary(rest)
    ensures ParseNumber(Numerals.IntToString(n) + rest) == Some((n, rest))
  {
    var d := Numerals.NatToString(-n);
    UnsignedRoundTrip(-n, rest);
    var s := ['-'] + (d + rest);
    Assoc("-", d, rest);
    assert s[1..] == d + rest;
    NumberStep(s, true, -n, rest);
  }

  lemma {:induction false} ValueRoundTrip(v: Value, rest: string, ascii: bool)
    requires Boundary(rest)
    ensures ParseValue(Encode(v, ascii) + rest) == Some((v, rest))
    decreases v, 2
  {
    var s := Encode(v, ascii) + rest;
    match v
    case Null =>
      assert s[..4] == "null" && s[4..] == rest;
    case Bool(b) =>
      if b { assert s[..4] == "true" && s[4..] == rest; }
      else { assert s[..5] == "false" && s[5..] == rest; }
    case Num(n) =>
      NumRoundTrip(n, rest);
    case Str(str) =>
      StrRoundTrip(str, rest, ascii);
    case Arr(items) =>
      ArrRoundTrip(items, rest, ascii);
    case Obj(fields) =>
      ObjRoundTrip(fields, rest, ascii);
  }

  lemma {:induction false} NumRoundTrip(n: int, rest: string)
    requires Boundary(rest)
    ensures ParseValue(Numerals.IntToString(n) + rest) == Some((Num(n), rest))
  {
    var s := Numerals.IntToString(n) + rest;
    NumberRoundTrip(n, rest);
    assert s[0] != 'n' && s[0] != 't' && s[0] != 'f' && s[0] != '"' && s[0] != '[' && s[0] != '{';
  }

  lemma {:induction false} StrRoundTrip(str: string, rest: string, ascii: bool)
    ensures ParseValue(EncodeString(str, ascii) + rest) == Some((Str(str), rest))
  {
    var s := EncodeString(str, ascii) + rest;
    assert s[1..] == EscapeString(str, ascii) + "\"" + rest;
    EscapeStringRoundTrip(str, rest, ascii);
  }

  lemma OpenArr(inner: string)
    ensures ParseValue("[" + inner) == ParseArray(inner)
  {
    assert ("[" + inner)[1..] == inner;
  }

  lemma OpenObj(inner: string)
    ensures ParseValue("{" + inner) == ParseObject(inner)
  {
    assert ("{" + inner)[1..] == inner;
  }

  lemma EncodeArr(items: seq<Value>, rest: string, ascii: bool)
    ensures Encode(Arr(items), ascii) + rest == "[" + (EncodeItems(items, ascii) + ("]" + rest))
  {}

  lemma EncodeObj(fields: seq<(string, Value)>, rest: string, ascii: bool)
    ensures Encode(Obj(fields), ascii) + rest == "{" + (EncodeFields(fields, ascii) + ("}" + rest))
  {}

  lemma EmptyArray(rest: string)
    ensures ParseArray("]" + rest) == Some((Arr([]), rest))
  {
    SkipWsNoop("]" + rest);
    assert ("]" + rest)[1..] == rest;
  }

  lemma EmptyObject(rest: string)
    ensures ParseObject("}" + rest) == Some((Obj([]), rest))
  {
    SkipWsNoop("}" + rest);
    assert ("}" + rest)[1..] == rest;
  }

  lemma ItemsInArray(items: seq<Value>, rest: string, ascii: bool)
    requires |items| > 0
    requires ParseItems(EncodeItems(items, ascii) + ("]" + rest)) == Some((items, rest))
    ensures ParseArray(EncodeItems(items, ascii) + ("]" + rest)) == Some((Arr(items), rest))
  {
    SkipWsNoop(EncodeItems(items, ascii) + ("]" + rest));
  }

  lemma FieldsInObject(fields: seq<(string, Value)>, rest: string, ascii: bool)
    requires |fields| > 0
    requires ParseFields(EncodeFields(fields, ascii) + ("}" + rest)) == Some((fields, rest))
    ensures ParseObject(EncodeFields(fields, ascii) + ("}" + rest)) == Some((Obj(fields), rest))
  {
    SkipWsNoop(EncodeFields(fields, ascii) + ("}" + rest));
  }

  lemma {:induction false} ArrRoundTrip(items: seq<Value>, rest: string, ascii: bool)
    ensures ParseValue(Encode(Arr(items), ascii) + rest) == Some((Arr(items), rest))
    decreases items, 1
  {
    EncodeArr(items, rest, ascii);
    OpenArr(EncodeItems(items, ascii) + ("]" + rest));
    if |items| == 0 {
      assert EncodeItems(items, ascii) + ("]" + rest) == "]" + rest;
      EmptyArray(rest);
    } else {
      ItemsRoundTrip(items, rest, ascii);
      ItemsInArray(items, rest, ascii);
    }
  }

  lemma {:induction false} ObjRoundTrip(fields: seq<(string, Value)>, rest: string, ascii: bool)
    ensures ParseValue(Encode(Obj(fields), ascii) + rest) == Some((Obj(fields), rest))
    decreases fields, 1
  {
    EncodeObj(fields, rest, ascii);
    OpenObj(EncodeFields(fields, ascii) + ("}" + rest));
    if |fields| == 0 {
      assert EncodeFields(fields, ascii) + ("}" + rest) == "}" + rest;
      EmptyObject(rest);
    } else {
      FieldsRoundTrip(fields, rest, ascii);
      FieldsInObject(fields, rest, ascii);
    }
  }

  /** After a comma the encoder writes one space, which the reader skips. */
  lemma {:induction false} SkipOneSpace(t: string)
    requires |t| > 0 && !IsWs(t[0])
    ensures SkipWs(" " + t) == t
  {
    assert (" " + t)[1..] == t;
    SkipWsNoop(t);
  }

  lemma AfterClose(rest: string)
    ensures ItemsAfter("]" + rest) == Some(([], rest))
    ensures FieldsAfter("}" + rest) == Some(([], rest))
  {
    SkipWsNoop("]" + rest);
    assert ("]" + rest)[1..] == rest;
    SkipWsNoop("}" + rest);
    assert ("}" + rest)[1..] == rest;
  }

  /** The encoder's ", " separator, as the reader sees it. */
  lemma SkipComma(tail: string)
    requires |tail| > 0 && !IsWs(tail[0])
    ensures SkipWs(", " + tail) == ", " + tail
    ensures SkipWs((", " + tail)[1..]) == tail
  {
    var s := [','] + ([' '] + tail);
    assert s == ", " + tail;
    SkipWsNoop(s);
    assert s[1..] == [' '] + tail;
    SkipOneSpace(tail);
  }

  lemma AfterComma(tail: string)
    requires |tail| > 0 && !IsWs(tail[0])
    ensures ItemsAfter(", " + tail) == ParseItems(tail)
    ensures FieldsAfter(", " + tail) == ParseFields(tail)
  {
    SkipComma(tail);
  }

  lemma ItemsStep(s: string, v: Value, r1: string, vs: seq<Value>, rest: string)
    requires ParseValue(s) == Some((v, r1)) && ItemsAfter(r1) == Some((vs, rest))
    ensures ParseItems(s) == Some(([v] + vs, rest))
  {}

  lemma FieldsStep(s: string, f: (string, Value), r1: string, fs: seq<(string, Value)>, rest: string)
    requires ParseField(s) == Some((f, r1)) && FieldsAfter(r1) == Some((fs, rest))
    ensures ParseFields(s) == Some(([f] + fs, rest))
  {}

  lemma EncodeItemsCons(items: seq<Value>, after: string, ascii: bool)
    requires |items| > 1
    ensures EncodeItems(items, ascii) + after == Encode(items[0], ascii) + (", " + (EncodeItems(items[1..], ascii) + after))
  {
    var a := Encode(items[0], ascii);
    var b := EncodeItems(items[1..], ascii);
    Assoc(a + ", ", b, after);
    Assoc(a, ", ", b + after);
  }

  lemma ItemsCons(items: seq<Value>, rest: string, ascii: bool)
    requires |items| > 1
    requires ParseValue(Encode(items[0], ascii) + (", " + (EncodeItems(items[1..], ascii) + ("]" + rest))))
             == Some((items[0], ", " + (EncodeItems(items[1..], ascii) + ("]" + rest))))
    requires ParseItems(EncodeItems(items[1..], ascii) + ("]" + rest)) == Some((items[1..], rest))
    ensures ParseItems(EncodeItems(items, ascii) + ("]" + rest)) == Some((items, rest))
  {
    var tail := EncodeItems(items[1..], ascii) + ("]" + rest);
    EncodeItemsCons(items, "]" + rest, ascii);
    AfterComma(tail);
    ItemsStep(Encode(items[0], ascii) + (", " + tail), items[0], ", " + tail, items[1..], rest);
    ConsSplit(items);
  }

  lemma {:induction false} ItemsRoundTrip(items: seq<Value>, rest: string, ascii: bool)
    requires |items| > 0
    ensures ParseItems(EncodeItems(items, ascii) + ("]" + rest)) == Some((items, rest))
    decreases items, 0
  {
    if |items| == 1 {
      assert EncodeItems(items, ascii) == Encode(items[0], ascii);
      ValueRoundTrip(items[0], "]" + rest, ascii);
      AfterClose(rest);
      ItemsStep(Encode(items[0], ascii) + ("]" + rest), items[0], "]" + rest, [], rest);
      assert [items[0]] + [] == items;
    } else {
      ValueRoundTrip(items[0], ", " + (EncodeItems(items[1..], ascii) + ("]" + rest)), ascii);
      ItemsRoundTrip(items[1..], rest, ascii);
      ItemsCons(items, rest, ascii);
    }
  }

  lemma EncodeFieldSplit(f: (string, Value), rest: string, ascii: bool)
    ensures EncodeField(f, ascii) + rest == "\"" + (EscapeString(f.0, ascii) + ("\"" + (": " + (Encode(f.1, ascii) + rest))))
  {
    var k := EscapeString(f.0, ascii);
    var e := Encode(f.1, ascii);
    calc {
      EncodeField(f, ascii) + rest;
      ((("\"" + k) + "\"") + ": " + e) + rest;
      { Assoc((("\"" + k) + "\"") + ": ", e, rest); }
      (("\"" + k) + "\"") + ": " + (e + rest);
      { Assoc(("\"" + k) + "\"", ": ", e + rest); }
      (("\"" + k) + "\"") + (": " + (e + rest));
      { Assoc("\"" + k, "\"", ": " + (e + rest)); }
      ("\"" + k) + ("\"" + (": " + (e + rest)));
      { Assoc("\"", k, "\"" + (": " + (e + rest))); }
      "\"" + (k + ("\"" + (": " + (e + rest))));
    }
  }

  lemma FieldStep(s: string, key: string, e: string, v: Value, rest: string)
    requires |s| > 0 && s[0] == '"'
    requires ParseStringBody(s[1..]) == Some((key, ": " + e))
    requires |e| > 0 && !IsWs(e[0])
    requires ParseValue(e) == Some((v, rest))
    ensures ParseField(s) == Some(((key, v), rest))
  {
    SkipWsNoop(": " + e);
    assert (": " + e)[1..] == " " + e;
    SkipOneSpace(e);
  }

  lemma {:induction false} FieldRoundTrip(f: (string, Value), rest: string, ascii: bool)
    requires Boundary(rest)
    ensures ParseField(EncodeField(f, ascii) + rest) == Some((f, rest))
    decreases f, 1
  {
    var e := Encode(f.1, ascii) + rest;
    var s := "\"" + (EscapeString(f.0, ascii) + ("\"" + (": " + e)));
    EncodeFieldSplit(f, rest, ascii);
    assert s[1..] == EscapeString(f.0, ascii) + ("\"" + (": " + e));
    Assoc(EscapeString(f.0, ascii), "\"", ": " + e);
    EscapeStringRoundTrip(f.0, ": " + e, ascii);
    ValueRoundTrip(f.1, rest, ascii);
    FieldStep(s, f.0, e, f.1, rest);
  }

  lemma EncodeFieldsCons(fields: seq<(string, Value)>, after: string, ascii: bool)
    requires |fields| > 1
    ensures EncodeFields(fields, ascii) + after == EncodeField(fields[0], ascii) + (", " + (EncodeFields(fields[1..], ascii) + after))
  {
    var a := EncodeField(fields[0], ascii);
    var b := EncodeFields(fields[1..], ascii);
    Assoc(a + ", ", b, after);
    Assoc(a, ", ", b + after);
  }

  lemma Assoc<T>(a: seq<T>, b: seq<T>, c: seq<T>)
    ensures (a + b) + c == a + (b + c)
  {}

  lemma ConsSplit<T>(s: seq<T>)
    requires |s| > 0
    ensures [s[0]] + s[1..] == s
  {}

  lemma FieldsMore(s: string, tail: string, f: (string, Value), fs: seq<(string, Value)>, rest: string)
    requires ParseField(s) == Some((f, ", " + tail))
    requires |tail| > 0 && !IsWs(tail[0])
    requires ParseFields(tail) == Some((fs, rest))
    ensures ParseFields(s) == Some(([f] + fs, rest))
  {
    AfterComma(tail);
    FieldsStep(s, f, ", " + tail, fs, rest);
  }

  lemma FieldsTailHead(fields: seq<(string, Value)>, after: string, ascii: bool)
    requires |fields| > 0
    ensures |EncodeFields(fields, ascii) + after| > 0 && !IsWs((EncodeFields(fields, ascii) + after)[0])
  {}

  lemma FieldsCons(fields: seq<(string, Value)>, rest: string, tail: string, ascii: bool)
    requires |fields| > 1
    requires tail == EncodeFields(fields[1..], ascii) + ("}" + rest)
    requires ParseField(EncodeField(fields[0], ascii) + (", " + tail)) == Some((fields[0], ", " + tail))
    requires ParseFields(tail) == Some((fields[1..], rest))
    ensures ParseFields(EncodeFields(fields, ascii) + ("}" + rest)) == Some((fields, rest))
  {
    FieldsTailHead(fields[1..], "}" + rest, ascii);
    FieldsMore(EncodeField(fields[0], ascii) + (", " + tail), tail, fields[0], fields[1..], rest);
    EncodeFieldsCons(fields, "}" + rest, ascii);
    ConsSplit(fields);
  }

  lemma {:induction false} FieldsRoundTrip(fields: seq<(string, Value)>, rest: string, ascii: bool)
    requires |fields| > 0
    ensures ParseFields(EncodeFields(fields, ascii) + ("}" + rest)) == Some((fields, rest))
    decreases fields, 0
  {
    if |fields| == 1 {
      assert EncodeFields(fields, ascii) == EncodeField(fields[0], ascii);
      FieldRoundTrip(fields[0], "}" + rest, ascii);
      AfterClose(rest);
      FieldsStep(EncodeField(fields[0], ascii) + ("}" + rest), fields[0], "}" + rest, [], rest);
      assert [fields[0]] + [] == fields;
    } else {
      var tail := EncodeFields(fields[1..], ascii) + ("}" + rest);
      FieldRoundTrip(fields[0], ", " + tail, ascii);
      FieldsRoundTrip(fields[1..], rest, ascii);
      FieldsCons(fields, rest, tail, ascii);
    }
  }

  /** json.loads(json.dumps(v)) == v. */
  lemma {:induction false} DecodeEncode(v: Value, ascii: bool)
    ensures Decode(Encode(v, ascii)) == Some(v)
  {
    var s := Encode(v, ascii);
    SkipWsNoop(s);
    ValueRoundTrip(v, "", ascii);
    assert s + "" == s;
  }

  /** json.dumps output begins with a letter of a literal, a quote, a bracket, a sign or a
      digit, and ends with a letter, a quote, a bracket or a digit. */
  lemma EncodeEnds(v: Value, ascii: bool)
    ensures var s := Encode(v, ascii);
            (s[0] in "ntf\"[{-" || Numerals.IsDigit(s[0]))
            && (s[|s| - 1] in "le\"]}" || Numerals.IsDigit(s[|s| - 1]))
  {
    var s := Encode(v, ascii);
    match v
    case Num(n) =>
      var d := Numerals.NatToString(if n < 0 then -n else n);
      assert s == if n < 0 then "-" + d else d;
      assert s[|s| - 1] == d[|d| - 1];
    case _ =>
  }
}
