/** Character-level string helpers with the semantics of the Python and JavaScript built-ins
    that the application calls: strip/trim, lower-casing, substring tests, joins and slices. */
module Text {

  /** Characters Python's str.strip() removes (str.isspace()). */
  predicate IsPySpace(c: char) {
    c == ' ' || ('\t' <= c <= '\r') || ('\U{1c}' <= c <= '\U{1f}') || c == '\U{85}' || c == '\U{a0}'
    || c == '\U{1680}' || ('\U{2000}' <= c <= '\U{200a}') || c == '\U{2028}' || c == '\U{2029}'
    || c == '\U{202f}' || c == '\U{205f}' || c == '\U{3000}'
  }

  /** Characters JavaScript's String.prototype.trim() and parseInt skip. */
  predicate IsJsSpace(c: char) {
    c == ' ' || ('\t' <= c <= '\r') || c == '\U{a0}' || c == '\U{feff}'
    || c == '\U{1680}' || ('\U{2000}' <= c <= '\U{200a}') || c == '\U{2028}' || c == '\U{2029}'
    || c == '\U{202f}' || c == '\U{205f}' || c == '\U{3000}'
  }

  /** Number of leading characters of s in the class. */
  function LeadCount(s: string, isSpace: char -> bool): (n: nat)
    ensures n <= |s|
    ensures n < |s| ==> !isSpace(s[n])
    ensures forall i :: 0 <= i < n ==> isSpace(s[i])
  {
    if |s| > 0 && isSpace(s[0]) then 1 + LeadCount(s[1..], isSpace) else 0
  }

  /** Number of trailing characters of s in the class. */
  function TrailCount(s: string, isSpace: char -> bool): (n: nat)
    ensures n <= |s|
    ensures n < |s| ==> !isSpace(s[|s| - 1 - n])
    ensures forall i :: |s| - n <= i < |s| ==> isSpace(s[i])
  {
    if |s| > 0 && isSpace(s[|s| - 1]) then 1 + TrailCount(s[..|s| - 1], isSpace) else 0
  }

  /** Removes leading and trailing characters of the given class: the result is the piece
      s[i..j] such that everything before i and after j is in the class and, when the piece
      is not empty, neither of its ends is. */
  function Strip(s: string, isSpace: char -> bool): (r: string)
    ensures |r| <= |s|
    ensures |r| > 0 ==> !isSpace(r[0]) && !isSpace(r[|r| - 1])
    ensures var i := LeadCount(s, isSpace);
            i + |r| <= |s| && r == s[i..i + |r|]
            && (forall k :: i + |r| <= k < |s| ==> isSpace(s[k]))
  {
    var i := LeadCount(s, isSpace);
    var l := s[i..];
    var j := TrailCount(l, isSpace);
    assert forall k :: i + (|l| - j) <= k < |s| ==> s[k] == l[k - i];
    l[..|l| - j]
  }

  /** Python's str.strip() with no argument. */
  function PyStrip(s: string): (r: string)
    ensures |r| <= |s|
    ensures |r| > 0 ==> !IsPySpace(r[0]) && !IsPySpace(r[|r| - 1])
    ensures var i := LeadCount(s, IsPySpace);
            i + |r| <= |s| && r == s[i..i + |r|]
            && (forall k :: i + |r| <= k < |s| ==> IsPySpace(s[k]))
  {
    Strip(s, IsPySpace)
  }

  /** JavaScript's String.prototype.trim(). */
  function JsTrim(s: string): (r: string)
    ensures |r| <= |s|
    ensures |r| > 0 ==> !IsJsSpace(r[0]) && !IsJsSpace(r[|r| - 1])
    ensures var i := LeadCount(s, IsJsSpace);
            i + |r| <= |s| && r == s[i..i + |r|]
            && (forall k :: i + |r| <= k < |s| ==> IsJsSpace(s[k]))
  {
    Strip(s, IsJsSpace)
  }

  lemma {:induction false} StripNoop(s: string, isSpace: char -> bool)
    requires |s| > 0 ==> !isSpace(s[0]) && !isSpace(s[|s| - 1])
    ensures Strip(s, isSpace) == s
  {
    assert LeadCount(s, isSpace) == 0;
    assert s[0..] == s;
    assert TrailCount(s, isSpace) == 0;
  }

  /** Stripping leaves a text that does not start with a space unchanged at the front. */
  lemma {:induction false} StripKeepsFront(s: string, isSpace: char -> bool)
    requires |s| > 0 && !isSpace(s[0])
    ensures var r := Strip(s, isSpace); |r| > 0 && r[0] == s[0]
  {
    assert LeadCount(s, isSpace) == 0;
    assert s[0..] == s;
  }

  /** Stripping twice is the same as stripping once. */
  lemma StripIdempotent(s: string, isSpace: char -> bool)
    ensures Strip(Strip(s, isSpace), isSpace) == Strip(s, isSpace)
  {
    StripNoop(Strip(s, isSpace), isSpace);
  }

  lemma PyStripIdempotent(s: string)
    ensures PyStrip(PyStrip(s)) == PyStrip(s)
  {
    StripIdempotent(s, IsPySpace);
  }

  function LowerChar(c: char): char {
    if 'A' <= c <= 'Z' then (c as int + 32) as char else c
  }

  /** Python's str.lower() and JavaScript's toLowerCase(), for the ASCII letters. */
  function Lower(s: string): (r: string)
    ensures |r| == |s|
    ensures forall i :: 0 <= i < |s| ==> r[i] == LowerChar(s[i])
    ensures forall i :: 0 <= i < |r| ==> !('A' <= r[i] <= 'Z')
  {
    if |s| == 0 then "" else [LowerChar(s[0])] + Lower(s[1..])
  }

  lemma LowerIdempotent(s: string)
    ensures Lower(Lower(s)) == Lower(s)
  {
  }

  /** Lower-casing text without capitals changes nothing. */
  lemma {:induction false} LowerNoop(s: string)
    requires forall i :: 0 <= i < |s| ==> !('A' <= s[i] <= 'Z')
    ensures Lower(s) == s
  {
    if |s| > 0 {
      LowerNoop(s[1..]);
    }
  }

  /** s begins with p. */
  predicate StartsWith(s: string, p: string) {
    |p| <= |s| && s[..|p|] == p
  }

  /** sub occurs in s starting at index i. */
  predicate OccursAt(s: string, sub: string, i: int) {
    0 <= i && i + |sub| <= |s| && s[i..i + |sub|] == sub
  }

  /** Python's `sub in s` and JavaScript's s.includes(sub): some window of s equals sub. */
  function Contains(s: string, sub: string): (b: bool)
    ensures b <==> exists i :: OccursAt(s, sub, i)
  {
    if StartsWith(s, sub) then
      assert OccursAt(s, sub, 0);
      true
    else if |s| <= |sub| then
      NoWindow(s, sub);
      false
    else
      WindowShift(s, sub);
      Contains(s[1..], sub)
  }

  /** Text no longer than sub that does not begin with it holds no window of it. */
  lemma NoWindow(s: string, sub: string)
    requires !StartsWith(s, sub) && |s| <= |sub|
    ensures forall i :: !OccursAt(s, sub, i)
  {}

  /** Where s does not begin with sub, its windows of sub are those of its tail, one further on. */
  lemma WindowShift(s: string, sub: string)
    requires !StartsWith(s, sub) && |s| > |sub|
    ensures (exists i :: OccursAt(s, sub, i)) <==> exists j :: OccursAt(s[1..], sub, j)
  {
    var t := s[1..];
    if j :| OccursAt(t, sub, j) {
      assert s[j + 1..j + 1 + |sub|] == t[j..j + |sub|];
      assert OccursAt(s, sub, j + 1);
    }
    if i :| OccursAt(s, sub, i) {
      assert i != 0 by { assert s[..|sub|] == s[0..|sub|]; }
      assert t[i - 1..i - 1 + |sub|] == s[i..i + |sub|];
      assert OccursAt(t, sub, i - 1);
    }
  }

  /** Python's sep.join(parts). */
  function Join(sep: string, parts: seq<string>): (r: string)
    ensures |parts| == 0 ==> r == ""
    ensures |parts| == 1 ==> r == parts[0]
  {
    if |parts| == 0 then ""
    else if |parts| == 1 then parts[0]
    else parts[0] + sep + Join(sep, parts[1..])
  }

  /** Python's s[:n] for n >= 0. */
  function Prefix<T>(s: seq<T>, n: nat): (r: seq<T>)
    ensures |r| == if n <= |s| then n else |s|
    ensures r == s[..|r|]
  {
    if n <= |s| then s[..n] else s
  }

  /** Python's s.replace(a, b) for single characters. */
  function ReplaceChar(s: string, a: char, b: char): (r: string)
    ensures |r| == |s|
    ensures forall i :: 0 <= i < |s| ==> r[i] == (if s[i] == a then b else s[i])
  {
    if |s| == 0 then "" else [if s[0] == a then b else s[0]] + ReplaceChar(s[1..], a, b)
  }

  /** Normalises a Python slice bound against a sequence of length n. */
  function SliceBound(i: int, n: nat): (r: nat)
    ensures r <= n
  {
    if i < 0 then (if n + i < 0 then 0 else n + i) else if i > n then n else i
  }

  /** Python's s[start:stop]: negative bounds count from the end, bounds are clamped,
      and a start at or after the stop gives the empty sequence. */
  function PySlice<T>(s: seq<T>, start: int, stop: int): (r: seq<T>)
    ensures 0 <= start <= stop <= |s| ==> r == s[start..stop]
    ensures |r| <= |s|
    ensures start >= 0 && stop >= start ==> |r| <= stop - start
  {
    var a := SliceBound(start, |s|);
    var b := SliceBound(stop, |s|);
    if a < b then s[a..b] else []
  }
}
