/** The net-outstanding ledger that the catalog, log and user-statistics pages each compute
    from the movement log: a take adds its quantity to its key, a return subtracts it, any
    other action is ignored, and the keys whose net stays positive are reported in the order
    in which they first moved. The pages differ only in the key (article and user, or the
    article alone) and in how they read a log line, so the fold is written once here. */
module Ledger {
  import opened Wrappers

  datatype Action = Take | Return | Other

  /** The action of a log line, compared exactly ("take", "return"). */
  function ActionOf(word: string): (a: Action)
    ensures a == Take <==> word == "take"
    ensures a == Return <==> word == "return"
  {
    if word == "take" then Take else if word == "return" then Return else Other
  }

  /** One log line as the ledger sees it. */
  datatype Move<K> = Move(key: K, action: Action, qty: int)

  /** What a line adds to its key's net. */
  function Delta<K>(m: Move<K>): int {
    match m.action
    case Take => m.qty
    case Return => 0 - m.qty
    case Other => 0
  }

  /** A line enters the dict only when it is a take or a return. */
  predicate Counted<K>(m: Move<K>) {
    m.action != Other
  }

  /** The reference definition: the sum of the key's deltas over the lines. */
  function NetOf<K(==)>(ms: seq<Move<K>>, key: K): int {
    if |ms| == 0 then 0
    else NetOf(ms[..|ms| - 1], key) + (if ms[|ms| - 1].key == key then Delta(ms[|ms| - 1]) else 0)
  }

  /** Some take or return moved the key. */
  predicate Moved<K(==)>(ms: seq<Move<K>>, key: K) {
    exists i :: 0 <= i < |ms| && ms[i].key == key && Counted(ms[i])
  }

  /** A key that never moved nets to zero. */
  lemma {:induction false} UnmovedNetsZero<K>(ms: seq<Move<K>>, key: K)
    requires !Moved(ms, key)
    ensures NetOf(ms, key) == 0
  {
    if |ms| > 0 {
      var init := ms[..|ms| - 1];
      assert forall i :: 0 <= i < |init| ==> init[i] == ms[i];
      UnmovedNetsZero(init, key);
    }
  }

  /** The dict's value for a key, None where the key is absent. */
  function Find<K(==)>(acc: seq<(K, int)>, key: K): (r: Option<int>)
    ensures r.None? <==> forall i :: 0 <= i < |acc| ==> acc[i].0 != key
  {
    if |acc| == 0 then None
    else if acc[0].0 == key then Some(acc[0].1)
    else
      var r := Find(acc[1..], key);
      assert forall i :: 1 <= i < |acc| ==> acc[1..][i - 1] == acc[i];
      r
  }

  /** No key appears twice, as in a dict. */
  predicate DistinctKeys<K(==)>(acc: seq<(K, int)>) {
    forall i, j :: 0 <= i < j < |acc| ==> acc[i].0 != acc[j].0
  }

  /** d[key] = d.get(key, 0) + delta: an existing key keeps its place, a new one goes last. */
  function Bump<K(==)>(acc: seq<(K, int)>, key: K, delta: int): (r: seq<(K, int)>)
    ensures |r| == |acc| || (|r| == |acc| + 1 && r[|acc|].0 == key)
    ensures forall i :: 0 <= i < |acc| ==> r[i].0 == acc[i].0
    decreases |acc|
  {
    if |acc| == 0 then [(key, delta)]
    else if acc[0].0 == key then [(key, acc[0].1 + delta)] + acc[1..]
    else [acc[0]] + Bump(acc[1..], key, delta)
  }

  /** A bump changes only the bumped key's value and keeps the keys distinct. */
  lemma BumpSpec<K>(acc: seq<(K, int)>, key: K, delta: int, k: K)
    requires DistinctKeys(acc)
    ensures DistinctKeys(Bump(acc, key, delta))
    ensures Find(Bump(acc, key, delta), k) == if k == key then Some(Find(acc, key).GetOr(0) + delta) else Find(acc, k)
  {
    BumpGrows(acc, key, delta);
    BumpFind(acc, key, delta, k);
    var r := Bump(acc, key, delta);
    forall i, j | 0 <= i < j < |r| ensures r[i].0 != r[j].0 {
      if j == |acc| {
        assert r[i].0 == acc[i].0;
      }
    }
  }

  /** A bump adds a pair only for a key the dict does not hold. */
  lemma {:induction false} BumpGrows<K>(acc: seq<(K, int)>, key: K, delta: int)
    ensures |Bump(acc, key, delta)| == |acc| + 1 ==> forall i :: 0 <= i < |acc| ==> acc[i].0 != key
    decreases |acc|
  {
    if |acc| > 0 && acc[0].0 != key {
      BumpGrows(acc[1..], key, delta);
      assert forall i :: 1 <= i < |acc| ==> acc[1..][i - 1] == acc[i];
    }
  }

  /** The bumped key reads its old value (0 when absent) plus delta; every other key reads
      as before. */
  lemma {:induction false} BumpFind<K>(acc: seq<(K, int)>, key: K, delta: int, k: K)
    ensures Find(Bump(acc, key, delta), k) == if k == key then Some(Find(acc, key).GetOr(0) + delta) else Find(acc, k)
    decreases |acc|
  {
    if |acc| > 0 && acc[0].0 != key {
      var r := Bump(acc, key, delta);
      assert r == [acc[0]] + Bump(acc[1..], key, delta);
      assert r[1..] == Bump(acc[1..], key, delta);
      if acc[0].0 != k {
        BumpFind(acc[1..], key, delta, k);
      }
    } else if |acc| > 0 {
      var r := Bump(acc, key, delta);
      assert r[1..] == acc[1..];
    }
  }

  /** The dict the loop builds, as a list of (key, net) pairs in first-move order. */
  function Summary<K(==)>(ms: seq<Move<K>>): seq<(K, int)> {
    if |ms| == 0 then []
    else
      var acc := Summary(ms[..|ms| - 1]);
      var m := ms[|ms| - 1];
      if Counted(m) then Bump(acc, m.key, Delta(m)) else acc
  }

  /** The dict holds exactly the keys that moved, each with its net, and no key twice. */
  lemma SummarySpec<K>(ms: seq<Move<K>>, k: K)
    ensures DistinctKeys(Summary(ms))
    ensures Find(Summary(ms), k) == if Moved(ms, k) then Some(NetOf(ms, k)) else None
  {
    SummaryDistinct(ms);
    SummaryFind(ms, k);
  }

  lemma {:induction false} SummaryDistinct<K>(ms: seq<Move<K>>)
    ensures DistinctKeys(Summary(ms))
  {
    if |ms| > 0 {
      var init := ms[..|ms| - 1];
      var m := ms[|ms| - 1];
      SummaryDistinct(init);
      if Counted(m) {
        BumpSpec(Summary(init), m.key, Delta(m), m.key);
      }
    }
  }

  lemma {:induction false} SummaryFind<K>(ms: seq<Move<K>>, k: K)
    ensures Find(Summary(ms), k) == if Moved(ms, k) then Some(NetOf(ms, k)) else None
  {
    if |ms| > 0 {
      var init := ms[..|ms| - 1];
      var m := ms[|ms| - 1];
      var acc := Summary(init);
      SummaryFind(init, k);
      MovedSnoc(ms, k);
      assert NetOf(ms, k) == NetOf(init, k) + (if m.key == k then Delta(m) else 0);
      if Counted(m) {
        assert Summary(ms) == Bump(acc, m.key, Delta(m));
        BumpFind(acc, m.key, Delta(m), k);
        if m.key == k && !Moved(init, k) {
          UnmovedNetsZero(init, k);
        }
      } else {
        assert Summary(ms) == acc;
      }
    }
  }

  /** A key moved in a log exactly when it moved before the last line or on it. */
  lemma MovedSnoc<K>(ms: seq<Move<K>>, k: K)
    requires |ms| > 0
    ensures Moved(ms, k) <==> Moved(ms[..|ms| - 1], k) || (ms[|ms| - 1].key == k && Counted(ms[|ms| - 1]))
  {
    var init := ms[..|ms| - 1];
    assert forall i :: 0 <= i < |init| ==> init[i] == ms[i];
    if Moved(ms, k) && !Moved(init, k) {
      var i :| 0 <= i < |ms| && ms[i].key == k && Counted(ms[i]);
      assert i == |ms| - 1;
    }
  }

  /** The sum of the deltas of all the lines. */
  function DeltaSum<K>(ms: seq<Move<K>>): int {
    if |ms| == 0 then 0 else DeltaSum(ms[..|ms| - 1]) + Delta(ms[|ms| - 1])
  }

  /** The sum of the values in the dict. */
  function ValueSum<K>(acc: seq<(K, int)>): int {
    if |acc| == 0 then 0 else acc[0].1 + ValueSum(acc[1..])
  }

  lemma {:induction false} BumpSum<K>(acc: seq<(K, int)>, key: K, delta: int)
    ensures ValueSum(Bump(acc, key, delta)) == ValueSum(acc) + delta
    decreases |acc|
  {
    if |acc| > 0 && acc[0].0 != key {
      BumpSum(acc[1..], key, delta);
      assert ([acc[0]] + Bump(acc[1..], key, delta))[1..] == Bump(acc[1..], key, delta);
    } else if |acc| > 0 {
      assert ([(key, acc[0].1 + delta)] + acc[1..])[1..] == acc[1..];
    }
  }

  /** The nets in the dict add up to the sum of all the lines' deltas: no take or return is
      lost or counted twice. */
  lemma {:induction false} SummarySum<K>(ms: seq<Move<K>>)
    ensures ValueSum(Summary(ms)) == DeltaSum(ms)
  {
    if |ms| > 0 {
      var m := ms[|ms| - 1];
      SummarySum(ms[..|ms| - 1]);
      if Counted(m) {
        BumpSum(Summary(ms[..|ms| - 1]), m.key, Delta(m));
      }
    }
  }

  /** The pairs whose net is positive, in order. */
  function Positive<K>(acc: seq<(K, int)>): (r: seq<(K, int)>)
    ensures forall i :: 0 <= i < |r| ==> r[i] in acc && r[i].1 > 0
    ensures forall i :: 0 <= i < |acc| && acc[i].1 > 0 ==> acc[i] in r
  {
    if |acc| == 0 then []
    else
      var rest := Positive(acc[1..]);
      assert forall i :: 1 <= i < |acc| ==> acc[i] == acc[1..][i - 1];
      if acc[0].1 > 0 then [acc[0]] + rest else rest
  }

  /** The reported lines: the keys still out, with how many. */
  function Outstanding<K(==)>(ms: seq<Move<K>>): seq<(K, int)> {
    Positive(Summary(ms))
  }

  /** A pair is reported exactly when its net is positive, and then the net is the
      reference sum over the log. */
  lemma OutstandingIff<K>(ms: seq<Move<K>>, k: K, n: int)
    ensures (k, n) in Outstanding(ms) <==> n > 0 && n == NetOf(ms, k)
  {
    var acc := Summary(ms);
    SummarySpec(ms, k);
    if (k, n) in Outstanding(ms) {
      var j :| 0 <= j < |Outstanding(ms)| && Outstanding(ms)[j] == (k, n);
      assert (k, n) in acc;
    }
    if (k, n) in acc {
      var i :| 0 <= i < |acc| && acc[i] == (k, n);
      FindFirst(acc, k, i);
    }
    if n > 0 && n == NetOf(ms, k) {
      if !Moved(ms, k) {
        UnmovedNetsZero(ms, k);
      }
      FindIsMember(acc, k);
      var i :| 0 <= i < |acc| && acc[i] == (k, n);
      assert acc[i].1 > 0;
    }
  }

  /** In a list without repeated keys, the look-up finds the pair at any index with the key. */
  lemma {:induction false} FindFirst<K>(acc: seq<(K, int)>, k: K, i: nat)
    requires DistinctKeys(acc) && i < |acc| && acc[i].0 == k
    ensures Find(acc, k) == Some(acc[i].1)
    decreases i
  {
    if i > 0 {
      var tail := acc[1..];
      assert tail[i - 1] == acc[i];
      assert DistinctKeys(tail) by {
        forall a, b | 0 <= a < b < |tail| ensures tail[a].0 != tail[b].0 {
          assert tail[a] == acc[a + 1] && tail[b] == acc[b + 1];
        }
      }
      FindFirst(tail, k, i - 1);
    }
  }

  /** What the look-up finds is a pair of the list. */
  lemma {:induction false} FindIsMember<K>(acc: seq<(K, int)>, k: K)
    requires Find(acc, k).Some?
    ensures (k, Find(acc, k).value) in acc
  {
    if acc[0].0 != k {
      FindIsMember(acc[1..], k);
    }
  }
}
