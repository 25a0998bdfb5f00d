/** Decimal rendering of integers and the three ways the application reads integers back
    from text: Python's int(s), Python's int(float(s)), and JavaScript's parseInt(s, 10). */
module Numerals {
  import opened Wrappers
  import Text

  predicate IsDigit(c: char) { '0' <= c <= '9' }

  predicate AllDigits(s: string) { forall i :: 0 <= i < |s| ==> IsDigit(s[i]) }

  function DigitChar(d: nat): (c: char)
    requires d < 10
    ensures IsDigit(c)
  {
    ('0' as int + d) as char
  }

  /** Value of a string of decimal digits, most significant first. */
  function DigitsValue(s: string): nat
    requires AllDigits(s)
  {
    if |s| == 0 then 0 else DigitsValue(s[..|s| - 1]) * 10 + (s[|s| - 1] as int - '0' as int)
  }

  /** Python's str(n) for n >= 0: no leading zeros. */
  function NatToString(n: nat): (s: string)
    ensures |s| > 0 && AllDigits(s)
    ensures |s| > 1 ==> s[0] != '0'
    ensures s[0] == '0' <==> n == 0
  {
    if n < 10 then [DigitChar(n)] else NatToString(n / 10) + [DigitChar(n % 10)]
  }

  /** Python's str(n) and JavaScript's String(n) for an integer n. */
  function IntToString(n: int): (s: string)
    ensures |s| > 0
    ensures n < 0 <==> s[0] == '-'
  {
    if n < 0 then "-" + NatToString(-n) else NatToString(n)
  }

  lemma {:induction false} NatToStringRoundTrip(n: nat)
    ensures DigitsValue(NatToString(n)) == n
  {
    if n >= 10 {
      NatToStringRoundTrip(n / 10);
      var s := NatToString(n);
      assert s[..|s| - 1] == NatToString(n / 10);
    }
  }

  lemma {:induction false} NatToStringInjective(a: nat, b: nat)
    requires NatToString(a) == NatToString(b)
    ensures a == b
  {
    NatToStringRoundTrip(a);
    NatToStringRoundTrip(b);
  }

  /** Number of leading decimal digits of s. */
  function DigitRun(s: string): (n: nat)
    ensures n <= |s| && AllDigits(s[..n])
    ensures n < |s| ==> !IsDigit(s[n])
  {
    if |s| > 0 && IsDigit(s[0]) then
      var k := DigitRun(s[1..]);
      assert s[..1 + k] == [s[0]] + s[1..][..k];
      1 + k
    else 0
  }

  /** The digit run of a string of digits followed by a non-digit is exactly those digits. */
  lemma {:induction false} DigitRunOfDigits(d: string, rest: string)
    requires AllDigits(d)
    requires |rest| == 0 || !IsDigit(rest[0])
    ensures DigitRun(d + rest) == |d|
  {
    if |d| > 0 {
      assert (d + rest)[1..] == d[1..] + rest;
      DigitRunOfDigits(d[1..], rest);
    } else {
      assert d + rest == rest;
    }
  }

  /** Optional sign followed by a non-empty digit string: returns the sign and the digits. */
  function SplitSign(s: string): (r: (bool, string))
    ensures |r.1| <= |s|
  {
    if |s| > 0 && (s[0] == '-' || s[0] == '+') then (s[0] == '-', s[1..]) else (false, s)
  }

  function Signed(negative: bool, v: nat): int {
    if negative then 0 - v else v
  }

  /** Python's int(s) for a string s: surrounding whitespace, an optional sign and at least
      one decimal digit; anything else raises ValueError, shown here as None. */
  function ParsePyInt(s: string): (r: Option<int>)
    ensures r.Some? ==> |Text.PyStrip(s)| > 0
  {
    var t := Text.PyStrip(s);
    var (neg, digits) := SplitSign(t);
    if |digits| > 0 && AllDigits(digits) then Some(Signed(neg, DigitsValue(digits))) else None
  }

  /** int(str(n)) == n. */
  lemma {:induction false} IntToStringRoundTrip(n: int)
    ensures ParsePyInt(IntToString(n)) == Some(n)
  {
    var s := IntToString(n);
    var m: nat := if n < 0 then -n else n;
    var d := NatToString(m);
    assert s == if n < 0 then "-" + d else d;
    assert !Text.IsPySpace(s[0]);
    assert !Text.IsPySpace(s[|s| - 1]) by { assert s[|s| - 1] == d[|d| - 1]; }
    Text.StripNoop(s, Text.IsPySpace);
    assert Text.PyStrip(s) == s;
    var (neg, digits) := SplitSign(s);
    assert digits == d && neg == (n < 0) by {
      if n < 0 { assert s[1..] == d; }
    }
    NatToStringRoundTrip(m);
  }

  /** Python's int(float(s)): an optional sign, digits, optionally a point and more digits
      (at least one digit in all); the value is truncated toward zero. Exponents, "inf" and
      "nan" are not accepted (int() of an infinite or NaN float raises as well). */
  function ParseFloatTrunc(s: string): (r: Option<int>)
  {
    var t := Text.PyStrip(s);
    var (neg, body) := SplitSign(t);
    var k := DigitRun(body);
    var whole := body[..k];
    var tail := body[k..];
    if |tail| == 0 then
      if k > 0 then Some(Signed(neg, DigitsValue(whole))) else None
    else if tail[0] == '.' && AllDigits(tail[1..]) && (k > 0 || |tail| > 1) then
      Some(Signed(neg, DigitsValue(whole)))
    else None
  }

  /** Whole numbers read the same through int() and int(float()). */
  lemma ParseFloatTruncOfInt(s: string)
    requires ParsePyInt(s).Some?
    ensures ParseFloatTrunc(s) == ParsePyInt(s)
  {
    var t := Text.PyStrip(s);
    var (neg, body) := SplitSign(t);
    assert DigitRun(body) == |body| by {
      DigitRunOfDigits(body, "");
      assert body + "" == body;
    }
    assert body[..|body|] == body;
  }

  /** JavaScript's parseInt(s, 10): skips leading whitespace, reads an optional sign and the
      longest run of digits; NaN (None) when there is no digit. */
  function JsParseInt(s: string): (r: Option<int>)
  {
    var t := s[Text.LeadCount(s, Text.IsJsSpace)..];
    var (neg, body) := SplitSign(t);
    var k := DigitRun(body);
    if k == 0 then None else Some(Signed(neg, DigitsValue(body[..k])))
  }

  /** parseInt finds no number in text that is empty or starts with anything but a space,
      a sign or a digit. */
  lemma JsParseIntNoDigit(s: string)
    requires |s| == 0 || (!Text.IsJsSpace(s[0]) && s[0] != '+' && s[0] != '-' && !IsDigit(s[0]))
    ensures JsParseInt(s).None?
  {
    if |s| > 0 {
      assert Text.LeadCount(s, Text.IsJsSpace) == 0;
      assert s[0..] == s;
    }
  }

  /** parseInt(String(n)) == n for an integer n. */
  lemma JsParseIntOfInt(n: int)
    ensures JsParseInt(IntToString(n)) == Some(n)
  {
    var s := IntToString(n);
    assert !Text.IsJsSpace(s[0]);
    assert Text.LeadCount(s, Text.IsJsSpace) == 0;
    assert s[0..] == s;
    var (neg, body) := SplitSign(s);
    var m: nat := if n < 0 then -n else n;
    assert body == NatToString(m) by {
      if n < 0 { assert s[1..] == NatToString(-n); }
    }
    DigitRunOfDigits(body, "");
    assert body + "" == body;
    assert body[..|body|] == body;
    NatToStringRoundTrip(m);
  }
}
