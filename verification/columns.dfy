/** Spreadsheet column letters: the two independent conversions from a 0-based column
    index to its letters (A, B, …, Z, AA, AB, …), their common reference definition as
    bijective base 26, and the reading of letters back into an index. */
module Columns {

  predicate IsLetter(c: char) { 'A' <= c <= 'Z' }

  predicate AllLetters(s: string) { forall i :: 0 <= i < |s| ==> IsLetter(s[i]) }

  /** The letter for a digit 0..25. */
  function Letter(d: nat): (c: char)
    requires d < 26
    ensures IsLetter(c)
  {
    (65 + d) as char
  }

  /** The letters of column number n (1-based) in bijective base 26; no letters for 0. */
  function Letters(n: nat): (s: string)
    ensures n == 0 <==> s == []
    ensures AllLetters(s)
  {
    if n == 0 then [] else Letters((n - 1) / 26) + [Letter((n - 1) % 26)]
  }

  /** The column number a run of letters names: the inverse of Letters. */
  function Value(s: string): nat
    requires AllLetters(s)
  {
    if |s| == 0 then 0 else Value(s[..|s| - 1]) * 26 + ((s[|s| - 1] as int) - 65 + 1)
  }

  /** Reading the letters back gives the column number. */
  lemma {:induction false} ValueOfLetters(n: nat)
    ensures Value(Letters(n)) == n
  {
    if n > 0 {
      var s := Letters(n);
      var q := (n - 1) / 26;
      assert s[..|s| - 1] == Letters(q);
      ValueOfLetters(q);
    }
  }

  /** Different columns get different letters. */
  lemma LettersInjective(a: nat, b: nat)
    requires Letters(a) == Letters(b)
    ensures a == b
  {
    ValueOfLetters(a);
    ValueOfLetters(b);
  }

  /** The documented and edge values: 0 is A, 25 is Z, 26 is AA and 27 is AB. */
  lemma LetterExamples()
    ensures Letters(0 + 1) == "A" && Letters(25 + 1) == "Z"
    ensures Letters(26 + 1) == "AA" && Letters(27 + 1) == "AB"
  {
    assert Letters(1) == Letters(0) + [Letter(0)];
    assert Letters(26) == Letters(0) + [Letter(25)];
    assert Letters(27) == Letters(1) + [Letter(0)];
    assert Letters(28) == Letters(1) + [Letter(1)];
  }

  /** One letter for the first 26 columns: chr(65 + index). */
  lemma SingleLetter(index: nat)
    requires index < 26
    ensures Letters(index + 1) == [(65 + index) as char]
  {
    assert Letters(index + 1) == Letters(0) + [Letter(index)];
  }

  /** index_to_column_letter (users page): prepend the letter of index % 26 and continue
      with index // 26 - 1 while index is not negative. A negative index gives "". */
  method IndexToColumnLetter(index: int) returns (result: string)
    ensures index >= 0 ==> result == Letters(index + 1)
    ensures index < 0 ==> result == ""
  {
    result := "";
    var i := index;
    while i >= 0
      invariant i >= -1 || (i == index && result == "")
      invariant index >= -1 ==> Letters(i + 1) + result == Letters(index + 1)
      decreases i + 1
    {
      assert Letters(i + 1) == Letters(i / 26) + [Letter(i % 26)];
      result := [(i % 26 + 65) as char] + result;
      i := i / 26 - 1;
    }
  }

  /** col_index_to_letter (QR dashboard): n = idx0 + 1, then repeatedly
      (n, r) = divmod(n - 1, 26) and prepend chr(65 + r) until n is 0. */
  method ColIndexToLetter(idx0: int) returns (s: string)
    requires idx0 >= -1
    ensures s == Letters(idx0 + 1)
  {
    s := "";
    var n: nat := idx0 + 1;
    while n != 0
      invariant Letters(n) + s == Letters(idx0 + 1)
      decreases n
    {
      var r := (n - 1) % 26;
      assert Letters(n) == Letters((n - 1) / 26) + [Letter(r)];
      n := (n - 1) / 26;
      s := [(65 + r) as char] + s;
    }
  }

  /** The two conversions agree on every column index: both are Letters(index + 1). */
  method ConversionsAgree(index: int) returns (a: string, b: string)
    requires index >= 0
    ensures a == b && |a| > 0 && AllLetters(a)
  {
    a := IndexToColumnLetter(index);
    b := ColIndexToLetter(index);
  }
}
