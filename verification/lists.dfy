/** Generic list helpers the routes' comprehensions share. */
module Lists {
  import opened Wrappers

  /** The list is a sublist of the other: its elements in the same order, some left out. */
  predicate Sublist<T(==)>(xs: seq<T>, ys: seq<T>)
    decreases |ys|
  {
    |xs| == 0 || (|ys| > 0 && (if xs[0] == ys[0] then Sublist(xs[1..], ys[1..]) else Sublist(xs, ys[1..])))
  }

  /** [x for x in xs if keep(x)]: the kept elements, in their order. */
  function Filter<T(==,!new)>(xs: seq<T>, keep: T -> bool): (r: seq<T>)
    ensures |r| <= |xs|
    ensures forall k :: 0 <= k < |r| ==> keep(r[k])
    ensures forall x :: x in r <==> x in xs && keep(x)
  {
    if |xs| == 0 then []
    else
      assert forall x :: x in xs <==> x == xs[0] || x in xs[1..];
      (if keep(xs[0]) then [xs[0]] else []) + Filter(xs[1..], keep)
  }

  /** The filter leaves the kept elements in the order they had. */
  lemma {:induction false} FilterIsSublist<T(!new)>(xs: seq<T>, keep: T -> bool)
    ensures Sublist(Filter(xs, keep), xs)
  {
    if |xs| > 0 {
      FilterIsSublist(xs[1..], keep);
      var rest := Filter(xs[1..], keep);
      if keep(xs[0]) {
        assert Filter(xs, keep) == [xs[0]] + rest;
        assert ([xs[0]] + rest)[1..] == rest;
      } else {
        assert Filter(xs, keep) == rest;
        assert |rest| > 0 ==> rest[0] != xs[0];
      }
    }
  }

  /** A kept value occurs in the filter as often as in the list; any other, never. */
  lemma {:induction false} FilterCount<T(!new)>(xs: seq<T>, keep: T -> bool, x: T)
    ensures multiset(Filter(xs, keep))[x] == if keep(x) then multiset(xs)[x] else 0
  {
    if |xs| > 0 {
      FilterCount(xs[1..], keep, x);
      var head := if keep(xs[0]) then [xs[0]] else [];
      assert multiset(Filter(xs, keep)) == multiset(head) + multiset(Filter(xs[1..], keep));
      assert xs == [xs[0]] + xs[1..];
      assert multiset(xs) == multiset{xs[0]} + multiset(xs[1..]);
    }
  }

  /** A filter that keeps every element keeps the list as it is. */
  lemma {:induction false} FilterKeepsAll<T(!new)>(xs: seq<T>, keep: T -> bool)
    requires forall k :: 0 <= k < |xs| ==> keep(xs[k])
    ensures Filter(xs, keep) == xs
  {
    if |xs| > 0 {
      FilterKeepsAll(xs[1..], keep);
      assert xs == [xs[0]] + xs[1..];
    }
  }

  /** Where two lists are permutations of each other, a position of the first holding the
      second's last element; without them both the rest are still permutations. */
  lemma MatchLast<T>(xs: seq<T>, ys: seq<T>) returns (i: nat)
    requires multiset(xs) == multiset(ys) && |ys| > 0
    ensures i < |xs| && xs[i] == ys[|ys| - 1]
    ensures multiset(xs[..i] + xs[i + 1..]) == multiset(ys[..|ys| - 1])
  {
    var n := |ys| - 1;
    var y := ys[n];
    assert ys == ys[..n] + [y];
    assert y in multiset(xs);
    i :| 0 <= i < |xs| && xs[i] == y;
    var rest := xs[..i] + xs[i + 1..];
    assert xs == xs[..i] + [y] + xs[i + 1..];
    assert multiset(xs) == multiset(rest) + multiset{y};
    assert multiset(ys) == multiset(ys[..n]) + multiset{y};
    assert multiset(rest) == multiset(xs) - multiset{y};
  }

  /** [f(x) for x in xs]. */
  function Map<T, U>(xs: seq<T>, f: T -> U): seq<U> {
    seq(|xs|, k requires 0 <= k < |xs| => f(xs[k]))
  }

  /** [f(x) for x in xs if keep(x)]. */
  function FilterMap<T, U>(xs: seq<T>, keep: T -> bool, f: T -> U): (r: seq<U>)
    ensures |r| <= |xs|
  {
    if |xs| == 0 then []
    else (if keep(xs[0]) then [f(xs[0])] else []) + FilterMap(xs[1..], keep, f)
  }

  /** The comprehension holds exactly the images of the kept elements. */
  lemma {:induction false} FilterMapMembers<T, U>(xs: seq<T>, keep: T -> bool, f: T -> U, y: U)
    ensures y in FilterMap(xs, keep, f) <==> exists j :: 0 <= j < |xs| && keep(xs[j]) && y == f(xs[j])
  {
    if |xs| > 0 {
      FilterMapMembers(xs[1..], keep, f, y);
      assert forall j :: 1 <= j < |xs| ==> xs[1..][j - 1] == xs[j];
    }
  }

  /** The comprehension is the images of the filter, in its order. */
  lemma {:induction false} FilterMapIsMapOfFilter<T(!new), U>(xs: seq<T>, keep: T -> bool, f: T -> U)
    ensures FilterMap(xs, keep, f) == Map(Filter(xs, keep), f)
  {
    if |xs| > 0 {
      FilterMapIsMapOfFilter(xs[1..], keep, f);
      var rest := Filter(xs[1..], keep);
      if keep(xs[0]) {
        assert Map([xs[0]] + rest, f) == [f(xs[0])] + Map(rest, f);
      }
    }
  }

  /** Array.prototype.find, or a Python loop that returns at the first match, over tests that
      may raise: the position of the first test that holds, None when all fail, Err where a
      test raises before any holds. */
  function FirstTrue<E>(tests: seq<Result<bool, E>>): (r: Result<Option<nat>, E>)
    ensures r.Ok? && r.value.Some? ==> r.value.value < |tests| && tests[r.value.value] == Ok(true)
                                       && forall j :: 0 <= j < r.value.value ==> tests[j] == Ok(false)
    ensures r.Ok? && r.value.None? <==> forall j :: 0 <= j < |tests| ==> tests[j] == Ok(false)
    ensures r.Err? ==> exists j :: 0 <= j < |tests| && tests[j].Err?
  {
    if |tests| == 0 then Ok(None)
    else
      match tests[0]
      case Err(e) => Err(e)
      case Ok(true) => Ok(Some(0))
      case Ok(false) =>
        assert forall j :: 1 <= j < |tests| ==> tests[1..][j - 1] == tests[j];
        match FirstTrue(tests[1..])
        case Err(e) => Err(e)
        case Ok(None) => Ok(None)
        case Ok(Some(j)) => Ok(Some(j + 1))
  }

  /** Conversely, a test that holds after tests that all fail is the one found. */
  lemma {:induction false} FirstTrueFinds<E>(tests: seq<Result<bool, E>>, i: nat)
    requires i < |tests| && tests[i] == Ok(true)
    requires forall j :: 0 <= j < i ==> tests[j] == Ok(false)
    ensures FirstTrue(tests) == Ok(Some(i))
  {
    if i > 0 {
      assert tests[0] == Ok(false);
      assert forall j :: 0 <= j < i - 1 ==> tests[1..][j] == tests[j + 1];
      FirstTrueFinds(tests[1..], i - 1);
    }
  }

  /** A loop that builds a list and stops at the first raise: every value where all the
      results are Ok, otherwise the first error. */
  function AllOk<T, E>(rs: seq<Result<T, E>>): (r: Result<seq<T>, E>)
    ensures r.Ok? ==> |r.value| == |rs| && forall k :: 0 <= k < |rs| ==> rs[k] == Ok(r.value[k])
    ensures r.Err? ==> exists k :: 0 <= k < |rs| && rs[k] == Err(r.error) && forall j :: 0 <= j < k ==> rs[j].Ok?
  {
    if |rs| == 0 then Ok([])
    else
      match rs[0]
      case Err(e) => Err(e)
      case Ok(x) =>
        assert forall k :: 1 <= k < |rs| ==> rs[1..][k - 1] == rs[k];
        match AllOk(rs[1..])
        case Err(e) => Err(e)
        case Ok(rest) => Ok([x] + rest)
  }
}
