/** Ordering as Python's sorted()/list.sort() and the pages use it: keys are sequences of
    integers compared lexicographically (which is how Python compares tuples of numbers and
    how it compares strings, code point by code point, a proper prefix first), the sort is
    stable in both directions (reverse=True keeps equal keys in input order), and
    sorted(set(xs)) gives the distinct values in strictly increasing order. */
module Order {

  /** Lexicographic "strictly less" on integer sequences; a proper prefix is smaller. */
  predicate Less(a: seq<int>, b: seq<int>)
    decreases |a|
  {
    if |b| == 0 then false
    else if |a| == 0 then true
    else if a[0] != b[0] then a[0] < b[0]
    else Less(a[1..], b[1..])
  }

  lemma {:induction false} LessIrreflexive(a: seq<int>)
    ensures !Less(a, a)
    decreases |a|
  {
    if |a| > 0 { LessIrreflexive(a[1..]); }
  }

  lemma {:induction false} LessTransitive(a: seq<int>, b: seq<int>, c: seq<int>)
    requires Less(a, b) && Less(b, c)
    ensures Less(a, c)
    decreases |a|
  {
    if |a| > 0 && a[0] == b[0] && b[0] == c[0] {
      LessTransitive(a[1..], b[1..], c[1..]);
    }
  }

  lemma {:induction false} LessTotal(a: seq<int>, b: seq<int>)
    ensures a == b || Less(a, b) || Less(b, a)
    decreases |a|
  {
    if |a| > 0 && |b| > 0 && a[0] == b[0] {
      LessTotal(a[1..], b[1..]);
      if a[1..] == b[1..] {
        assert a == [a[0]] + a[1..] && b == [b[0]] + b[1..];
      }
    }
  }

  /** The key of a string: its code points. */
  function StrKey(s: string): (k: seq<int>)
    ensures |k| == |s| && forall i :: 0 <= i < |s| ==> k[i] == s[i] as int
  {
    seq(|s|, i requires 0 <= i < |s| => s[i] as int)
  }

  lemma StrKeyInjective(a: string, b: string)
    requires StrKey(a) == StrKey(b)
    ensures a == b
  {
    assert |a| == |b|;
    forall i | 0 <= i < |a| ensures a[i] == b[i] {
      assert StrKey(a)[i] == StrKey(b)[i];
    }
  }

  lemma StrLessTotal(a: string, b: string)
    ensures a == b || Less(StrKey(a), StrKey(b)) || Less(StrKey(b), StrKey(a))
  {
    LessTotal(StrKey(a), StrKey(b));
    if StrKey(a) == StrKey(b) { StrKeyInjective(a, b); }
  }

  /** a comes strictly before b in the requested direction. */
  predicate Before(ka: seq<int>, kb: seq<int>, descending: bool) {
    if descending then Less(kb, ka) else Less(ka, kb)
  }

  /** xs is ordered by key in the requested direction. */
  predicate Sorted<T>(xs: seq<T>, key: T -> seq<int>, descending: bool) {
    forall i, j :: 0 <= i < j < |xs| ==> !Before(key(xs[j]), key(xs[i]), descending)
  }

  /** The elements of xs whose key is k, in order. */
  function WithKey<T>(xs: seq<T>, key: T -> seq<int>, k: seq<int>): (r: seq<T>)
    ensures |r| <= |xs|
  {
    if |xs| == 0 then []
    else WithKey(xs[..|xs| - 1], key, k) + (if key(xs[|xs| - 1]) == k then [xs[|xs| - 1]] else [])
  }

  /** Places x after every element that does not come strictly after it. */
  function Insert<T>(x: T, ys: seq<T>, key: T -> seq<int>, descending: bool): (r: seq<T>)
    ensures |r| == |ys| + 1
    ensures multiset(r) == multiset(ys) + multiset{x}
  {
    if |ys| == 0 then [x]
    else if Before(key(x), key(ys[0]), descending) then [x] + ys
    else
      assert ys == [ys[0]] + ys[1..];
      [ys[0]] + Insert(x, ys[1..], key, descending)
  }

  /** Python's sorted(xs, key=key, reverse=descending): a stable insertion sort. */
  function SortBy<T>(xs: seq<T>, key: T -> seq<int>, descending: bool): (r: seq<T>)
    ensures |r| == |xs|
    ensures multiset(r) == multiset(xs)
  {
    if |xs| == 0 then []
    else
      assert xs == xs[..|xs| - 1] + [xs[|xs| - 1]];
      Insert(xs[|xs| - 1], SortBy(xs[..|xs| - 1], key, descending), key, descending)
  }

  lemma {:induction false} BeforeAsymmetric(a: seq<int>, b: seq<int>, descending: bool)
    requires Before(a, b, descending)
    ensures !Before(b, a, descending) && a != b
  {
    if descending {
      if Less(a, b) { LessTransitive(b, a, b); LessIrreflexive(b); }
    } else {
      if Less(b, a) { LessTransitive(a, b, a); LessIrreflexive(a); }
    }
    LessIrreflexive(a);
  }

  lemma {:induction false} NotBeforeTransitive(a: seq<int>, b: seq<int>, c: seq<int>, descending: bool)
    requires !Before(b, a, descending) && !Before(c, b, descending)
    ensures !Before(c, a, descending)
  {
    if Before(c, a, descending) {
      LessTotal(a, b);
      LessTotal(b, c);
      if descending {
        if Less(c, b) { LessTransitive(a, c, b); }
      } else {
        if Less(a, b) { LessTransitive(c, a, b); }
      }
    }
  }

  lemma {:induction false} InsertSorted<T>(x: T, ys: seq<T>, key: T -> seq<int>, descending: bool)
    requires Sorted(ys, key, descending)
    ensures Sorted(Insert(x, ys, key, descending), key, descending)
    decreases |ys|
  {
    if |ys| == 0 {
    } else if Before(key(x), key(ys[0]), descending) {
      InsertSortedFront(x, ys, key, descending);
    } else {
      InsertSorted(x, ys[1..], key, descending);
      InsertSortedLater(x, ys, key, descending);
    }
  }

  /** x goes in front when it comes strictly before the first element. */
  lemma InsertSortedFront<T>(x: T, ys: seq<T>, key: T -> seq<int>, descending: bool)
    requires |ys| > 0 && Sorted(ys, key, descending) && Before(key(x), key(ys[0]), descending)
    ensures Sorted(Insert(x, ys, key, descending), key, descending)
  {
    var r := Insert(x, ys, key, descending);
    assert r == [x] + ys;
    forall i, j | 0 <= i < j < |r| ensures !Before(key(r[j]), key(r[i]), descending) {
      if i == 0 {
        BeforeAsymmetric(key(x), key(ys[0]), descending);
        if j > 1 { NotBeforeTransitive(key(x), key(ys[0]), key(ys[j - 1]), descending); }
      } else {
        assert r[i] == ys[i - 1] && r[j] == ys[j - 1];
      }
    }
  }

  /** Inserting keeps a property that x and every element have. */
  lemma {:induction false} InsertKeeps<T>(x: T, zs: seq<T>, key: T -> seq<int>, descending: bool, ok: T -> bool)
    requires ok(x) && forall k :: 0 <= k < |zs| ==> ok(zs[k])
    ensures forall j :: 0 <= j < |Insert(x, zs, key, descending)| ==> ok(Insert(x, zs, key, descending)[j])
    decreases |zs|
  {
    var r := Insert(x, zs, key, descending);
    if |zs| > 0 && !Before(key(x), key(zs[0]), descending) {
      var tail := Insert(x, zs[1..], key, descending);
      assert forall k :: 0 <= k < |zs[1..]| ==> zs[1..][k] == zs[k + 1];
      InsertKeeps(x, zs[1..], key, descending, ok);
      assert r == [zs[0]] + tail;
      assert forall j :: 1 <= j < |r| ==> r[j] == tail[j - 1];
    } else if |zs| > 0 {
      assert r == [x] + zs;
      assert forall j :: 1 <= j < |r| ==> r[j] == zs[j - 1];
    }
  }

  /** Otherwise the first element stays first, ahead of the sorted insertion into the rest. */
  lemma InsertSortedLater<T>(x: T, ys: seq<T>, key: T -> seq<int>, descending: bool)
    requires |ys| > 0 && Sorted(ys, key, descending) && !Before(key(x), key(ys[0]), descending)
    requires Sorted(Insert(x, ys[1..], key, descending), key, descending)
    ensures Sorted(Insert(x, ys, key, descending), key, descending)
  {
    var r := Insert(x, ys, key, descending);
    var tail := Insert(x, ys[1..], key, descending);
    assert r == [ys[0]] + tail;
    assert forall k :: 0 <= k < |ys[1..]| ==> ys[1..][k] == ys[k + 1];
    var ok := y => !Before(key(y), key(ys[0]), descending);
    InsertKeeps(x, ys[1..], key, descending, ok);
    assert forall j :: 0 <= j < |tail| ==> ok(tail[j]);
    ConsSorted(ys[0], tail, key, descending);
  }

  /** A sorted list stays sorted behind a head that none of its elements comes before. */
  lemma ConsSorted<T>(h: T, tail: seq<T>, key: T -> seq<int>, descending: bool)
    requires Sorted(tail, key, descending)
    requires forall j :: 0 <= j < |tail| ==> !Before(key(tail[j]), key(h), descending)
    ensures Sorted([h] + tail, key, descending)
  {
    var r := [h] + tail;
    forall i, j | 0 <= i < j < |r| ensures !Before(key(r[j]), key(r[i]), descending) {
      assert r[j] == tail[j - 1];
      if i > 0 {
        assert r[i] == tail[i - 1];
      }
    }
  }

  lemma {:induction false} SortSorted<T>(xs: seq<T>, key: T -> seq<int>, descending: bool)
    ensures Sorted(SortBy(xs, key, descending), key, descending)
    decreases |xs|
  {
    if |xs| > 0 {
      SortSorted(xs[..|xs| - 1], key, descending);
      InsertSorted(xs[|xs| - 1], SortBy(xs[..|xs| - 1], key, descending), key, descending);
    }
  }

  lemma {:induction false} WithKeyAppend<T>(xs: seq<T>, ys: seq<T>, key: T -> seq<int>, k: seq<int>)
    ensures WithKey(xs + ys, key, k) == WithKey(xs, key, k) + WithKey(ys, key, k)
    decreases |ys|
  {
    if |ys| == 0 {
      assert xs + ys == xs;
    } else {
      var zs := xs + ys;
      assert zs[..|zs| - 1] == xs + ys[..|ys| - 1];
      WithKeyAppend(xs, ys[..|ys| - 1], key, k);
    }
  }

  /** Inserting x into a sorted list adds x at the end of the elements with x's key and
      leaves the elements with every other key in place. */
  lemma {:induction false} InsertWithKey<T>(x: T, ys: seq<T>, key: T -> seq<int>, descending: bool, k: seq<int>)
    requires Sorted(ys, key, descending)
    ensures WithKey(Insert(x, ys, key, descending), key, k)
         == WithKey(ys, key, k) + (if key(x) == k then [x] else [])
    decreases |ys|
  {
    if |ys| == 0 {
      assert Insert(x, ys, key, descending) == [] + [x];
    } else if Before(key(x), key(ys[0]), descending) {
      InsertFront(x, ys, key, descending, k);
    } else {
      InsertWithKey(x, ys[1..], key, descending, k);
      InsertLater(x, ys, key, descending, k);
    }
  }

  lemma InsertFront<T>(x: T, ys: seq<T>, key: T -> seq<int>, descending: bool, k: seq<int>)
    requires |ys| > 0 && Sorted(ys, key, descending) && Before(key(x), key(ys[0]), descending)
    ensures WithKey(Insert(x, ys, key, descending), key, k)
         == WithKey(ys, key, k) + (if key(x) == k then [x] else [])
  {
    assert Insert(x, ys, key, descending) == [x] + ys;
    WithKeyAppend([x], ys, key, k);
    assert WithKey([x], key, k) == WithKey([], key, k) + (if key(x) == k then [x] else []) by {
      assert [x][..0] == [];
    }
    if key(x) == k {
      NoneWithKey(ys, key, descending, k);
    }
  }

  lemma InsertLater<T>(x: T, ys: seq<T>, key: T -> seq<int>, descending: bool, k: seq<int>)
    requires |ys| > 0 && !Before(key(x), key(ys[0]), descending)
    requires WithKey(Insert(x, ys[1..], key, descending), key, k)
          == WithKey(ys[1..], key, k) + (if key(x) == k then [x] else [])
    ensures WithKey(Insert(x, ys, key, descending), key, k)
         == WithKey(ys, key, k) + (if key(x) == k then [x] else [])
  {
    var tail := Insert(x, ys[1..], key, descending);
    assert Insert(x, ys, key, descending) == [ys[0]] + tail;
    WithKeyAppend([ys[0]], tail, key, k);
    WithKeyAppend([ys[0]], ys[1..], key, k);
    assert [ys[0]] + ys[1..] == ys;
  }

  /** When k comes strictly before the key of the first element of a sorted list, no element
      has key k. */
  lemma {:induction false} NoneWithKey<T>(ys: seq<T>, key: T -> seq<int>, descending: bool, k: seq<int>)
    requires |ys| > 0 && Sorted(ys, key, descending) && Before(k, key(ys[0]), descending)
    ensures WithKey(ys, key, k) == []
    decreases |ys|
  {
    var last := ys[|ys| - 1];
    if |ys| > 1 {
      NoneWithKey(ys[..|ys| - 1], key, descending, k);
      assert !Before(key(last), key(ys[0]), descending);
    } else {
      BeforeAsymmetric(k, key(ys[0]), descending);
    }
  }

  /** Stability: for every key, the elements with that key appear in the output in the order
      they had in the input. */
  lemma {:induction false} SortStable<T>(xs: seq<T>, key: T -> seq<int>, descending: bool, k: seq<int>)
    ensures WithKey(SortBy(xs, key, descending), key, k) == WithKey(xs, key, k)
    decreases |xs|
  {
    if |xs| > 0 {
      var init := xs[..|xs| - 1];
      SortStable(init, key, descending, k);
      SortSorted(init, key, descending);
      InsertWithKey(xs[|xs| - 1], SortBy(init, key, descending), key, descending, k);
    }
  }

  // ------------------------------------------------------------ distinct, sorted strings

  /** Strictly increasing strings. */
  predicate StrictlyIncreasing(xs: seq<string>) {
    forall i, j :: 0 <= i < j < |xs| ==> Less(StrKey(xs[i]), StrKey(xs[j]))
  }

  /** Adds s to a strictly increasing list unless it is already there. */
  function InsertDistinct(s: string, ys: seq<string>): (r: seq<string>)
    requires StrictlyIncreasing(ys)
    ensures StrictlyIncreasing(r)
    ensures forall x :: x in r <==> x in ys || x == s
  {
    if |ys| == 0 then [s]
    else if s == ys[0] then ys
    else if Less(StrKey(s), StrKey(ys[0])) then
      InsertDistinctFront(s, ys);
      [s] + ys
    else
      var tail := InsertDistinct(s, ys[1..]);
      InsertDistinctLater(s, ys, tail);
      [ys[0]] + tail
  }

  lemma InsertDistinctFront(s: string, ys: seq<string>)
    requires |ys| > 0 && StrictlyIncreasing(ys) && Less(StrKey(s), StrKey(ys[0]))
    ensures StrictlyIncreasing([s] + ys)
  {
    forall j | 0 < j < |ys| ensures Less(StrKey(s), StrKey(ys[j])) {
      LessTransitive(StrKey(s), StrKey(ys[0]), StrKey(ys[j]));
    }
  }

  lemma InsertDistinctLater(s: string, ys: seq<string>, tail: seq<string>)
    requires |ys| > 0 && StrictlyIncreasing(ys) && s != ys[0] && !Less(StrKey(s), StrKey(ys[0]))
    requires StrictlyIncreasing(tail)
    requires forall x :: x in tail <==> x in ys[1..] || x == s
    ensures StrictlyIncreasing([ys[0]] + tail)
    ensures forall x :: x in [ys[0]] + tail <==> x in ys || x == s
  {
    StrLessTotal(s, ys[0]);
    assert ys == [ys[0]] + ys[1..];
    forall j | 0 <= j < |tail| ensures Less(StrKey(ys[0]), StrKey(tail[j])) {
      assert tail[j] in tail;
      if tail[j] != s {
        var k :| 0 <= k < |ys[1..]| && ys[1..][k] == tail[j];
        assert ys[k + 1] == tail[j];
      }
    }
    var r := [ys[0]] + tail;
    forall i, j | 0 <= i < j < |r| ensures Less(StrKey(r[i]), StrKey(r[j])) {
      if i > 0 { assert r[i] == tail[i - 1] && r[j] == tail[j - 1]; }
      else { assert r[j] == tail[j - 1]; }
    }
  }

  /** Python's sorted(set(xs)) for strings. */
  function SortedSet(xs: seq<string>): (r: seq<string>)
    ensures StrictlyIncreasing(r)
    ensures forall x :: x in r <==> x in xs
  {
    if |xs| == 0 then []
    else
      assert xs == xs[..|xs| - 1] + [xs[|xs| - 1]];
      InsertDistinct(xs[|xs| - 1], SortedSet(xs[..|xs| - 1]))
  }

  /** The sorted set is determined by its elements: two strictly increasing lists with the
      same elements are equal. */
  lemma {:induction false} StrictlyIncreasingUnique(a: seq<string>, b: seq<string>)
    requires StrictlyIncreasing(a) && StrictlyIncreasing(b)
    requires forall x :: x in a <==> x in b
    ensures a == b
    decreases |a|
  {
    assert |a| > 0 ==> a[0] in b;
    assert |b| > 0 ==> b[0] in a;
    if |a| > 0 && |b| > 0 {
      assert a[0] in b;
      assert b[0] in a;
      var i :| 0 <= i < |b| && b[i] == a[0];
      var j :| 0 <= j < |a| && a[j] == b[0];
      if i > 0 {
        assert Less(StrKey(b[0]), StrKey(a[0]));
        if j > 0 { LessTransitive(StrKey(a[0]), StrKey(b[0]), StrKey(a[0])); }
        LessIrreflexive(StrKey(a[0]));
      }
      assert a[0] == b[0];
      forall x ensures x in a[1..] <==> x in b[1..] {
        if x in a[1..] {
          var k :| 1 <= k < |a| && a[k] == x;
          assert Less(StrKey(a[0]), StrKey(x));
          if x == b[0] { LessIrreflexive(StrKey(x)); }
          assert x in b;
        }
        if x in b[1..] {
          var k :| 1 <= k < |b| && b[k] == x;
          assert Less(StrKey(b[0]), StrKey(x));
          if x == a[0] { LessIrreflexive(StrKey(x)); }
          assert x in a;
        }
      }
      StrictlyIncreasingUnique(a[1..], b[1..]);
      assert a == [a[0]] + a[1..] && b == [b[0]] + b[1..];
    }
  }
}
