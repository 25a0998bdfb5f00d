/** The aggregation half of the projects-to-analytics export job: reading one project's
    three embedded lists (projected items, items taken by workers, items returned by
    workers) into per-item totals, and building the analytics rows for that project. */
module AnalyticsAgg {
  import opened Wrappers
  import opened Json
  import Text
  import Numerals
  import Coerce
  import Order
  import Sheet
  import AnalyticsMerge

  /** The header row the job assumes for an empty analytics table. */
  const DefaultHeaders: seq<string> := [
    "Article Number", "Order time", "Order status", "Warehouse", "Driller",
    "Drilling unit / Project number", "Pickup time", "Item name",
    "Projected quantity", "Taken quantity", "Returned quantity", "Comments"]

  /** The list an entry came from: items, taken_by_worker or returned_by_worker. */
  datatype Kind = Projected | Taken | Returned

  /** One entry the job counts: its stripped item id, stripped name, quantity and, for a
      returned entry, its stripped lower-case return type ("" for the other lists). */
  datatype Line = Line(kind: Kind, iid: string, name: string, qty: int, rtype: string)

  /** An entry's id as the job keys it: a non-empty stripped string. */
  predicate WellFormed(l: Line) {
    l.iid != "" && Text.PyStrip(l.iid) == l.iid
  }

  /** str(it.get("item_id", "")).strip(). */
  function ItemId(it: Value): string {
    Text.PyStrip(PyStr(GetOr(it, "item_id", Str(""))))
  }

  /** The AttributeError Python raises when .get is called on a value that is not a dict. */
  function NoGet(v: Value): string {
    "AttributeError: '" + TypeName(v) + "' object has no attribute 'get'"
  }

  /** Reads one entry of a list: None for an entry without an id, an error where Python
      raises. */
  function ReadLine(kind: Kind, it: Value): (r: Result<Option<Line>, string>)
    ensures r.Ok? && r.value.Some? ==> r.value.value.kind == kind && WellFormed(r.value.value)
  {
    if !it.Obj? then Err(NoGet(it))
    else
      var iid := ItemId(it);
      if iid == "" then Ok(None)
      else
        Text.PyStripIdempotent(PyStr(GetOr(it, "item_id", Str(""))));
        match TextOr(Get(it, "item_name"))
        case Err(e) => Err(e)
        case Ok(nm) =>
          var q := Coerce.JobToInt(GetOrNull(it, "quantity"), 0);
          if kind != Returned then Ok(Some(Line(kind, iid, Text.PyStrip(nm), q, "")))
          else
            match TextOr(Get(it, "return_type"))
            case Err(e) => Err(e)
            case Ok(rt) => Ok(Some(Line(kind, iid, Text.PyStrip(nm), q, Text.Lower(Text.PyStrip(rt)))))
  }

  /** A list entry that is not a dict stops the job; a dict without an id is skipped; one
      with an id is read, unless its name (or, for a returned entry, its return type) is
      neither falsy nor text, and then carries that id and its quantity read by to_int. */
  lemma ReadLineSpec(kind: Kind, it: Value)
    ensures !it.Obj? ==> ReadLine(kind, it) == Err(NoGet(it))
    ensures it.Obj? && ItemId(it) == "" ==> ReadLine(kind, it) == Ok(None)
    ensures it.Obj? && ItemId(it) != "" ==>
              (ReadLine(kind, it).Ok? <==> TextOr(Get(it, "item_name")).Ok?
                                           && (kind == Returned ==> TextOr(Get(it, "return_type")).Ok?))
    ensures it.Obj? && ItemId(it) != "" && ReadLine(kind, it).Ok? ==>
              ReadLine(kind, it).value.Some?
              && ReadLine(kind, it).value.value.iid == ItemId(it)
              && ReadLine(kind, it).value.value.qty == Coerce.JobToInt(GetOrNull(it, "quantity"), 0)
              && (kind != Returned ==> ReadLine(kind, it).value.value.rtype == "")
  {}

  /** Each entry's reading, in order. */
  function Readings(kind: Kind, items: seq<Value>): (rs: seq<Result<Option<Line>, string>>)
    ensures |rs| == |items| && forall i :: 0 <= i < |items| ==> rs[i] == ReadLine(kind, items[i])
  {
    seq(|items|, i requires 0 <= i < |items| => ReadLine(kind, items[i]))
  }

  /** The values read, in order, or the first error. */
  function Collect<T>(rs: seq<Result<Option<T>, string>>): (r: Result<seq<T>, string>)
    ensures r.Ok? ==> |r.value| <= |rs| && forall x :: x in r.value ==> Ok(Some(x)) in rs
  {
    if |rs| == 0 then Ok([])
    else
      match rs[0]
      case Err(e) => Err(e)
      case Ok(o) =>
        match Collect(rs[1..])
        case Err(e) => Err(e)
        case Ok(rest) => Ok((if o.Some? then [o.value] else []) + rest)
  }

  /** Collecting succeeds exactly when every reading does, and otherwise fails with the
      first failing reading's error. */
  lemma {:induction false} CollectFails<T>(rs: seq<Result<Option<T>, string>>)
    ensures Collect(rs).Ok? <==> forall i :: 0 <= i < |rs| ==> rs[i].Ok?
    ensures Collect(rs).Err? ==>
              exists i :: 0 <= i < |rs| && rs[i] == Err(Collect(rs).error) && forall j :: 0 <= j < i ==> rs[j].Ok?
  {
    if |rs| > 0 {
      CollectFails(rs[1..]);
      assert forall i :: 1 <= i < |rs| ==> rs[i] == rs[1..][i - 1];
      if rs[0].Ok? && Collect(rs[1..]).Err? {
        var i :| 0 <= i < |rs[1..]| && rs[1..][i] == Err(Collect(rs[1..]).error) && forall j :: 0 <= j < i ==> rs[1..][j].Ok?;
        assert rs[i + 1] == Err(Collect(rs).error);
      }
    }
  }

  /** The entries of one list, in order; reading stops at the first entry Python fails
      on. */
  function ReadList(kind: Kind, items: seq<Value>): (r: Result<seq<Line>, string>)
    ensures r.Ok? ==> |r.value| <= |items| && forall l :: l in r.value ==> l.kind == kind && WellFormed(l)
  {
    Collect(Readings(kind, items))
  }

  /** The list is read exactly when every entry is, and otherwise the error is that of the
      first entry that fails. */
  lemma ReadListFails(kind: Kind, items: seq<Value>)
    ensures ReadList(kind, items).Ok? <==> forall i :: 0 <= i < |items| ==> ReadLine(kind, items[i]).Ok?
    ensures ReadList(kind, items).Err? ==>
              exists i :: 0 <= i < |items| && ReadLine(kind, items[i]) == Err(ReadList(kind, items).error)
                          && forall j :: 0 <= j < i ==> ReadLine(kind, items[j]).Ok?
  {
    CollectFails(Readings(kind, items));
  }

  /** `if isinstance(field, list): for it in field: ...`: a field that is not a list
      contributes nothing. */
  function ReadField(kind: Kind, v: Value): (r: Result<seq<Line>, string>)
    ensures !v.Arr? ==> r == Ok([])
    ensures v.Arr? ==> r == ReadList(kind, v.items)
  {
    if v.Arr? then ReadList(kind, v.items) else Ok([])
  }

  // ------------------------------------------------------------ totals by definition

  /** What an entry adds to the total of one list for one id. */
  function Own(l: Line, k: Kind, iid: string): int {
    if l.kind == k && l.iid == iid then l.qty else 0
  }

  /** The total quantity of one list's entries for one id. */
  function Total(ls: seq<Line>, k: Kind, iid: string): int {
    if |ls| == 0 then 0 else Own(ls[0], k, iid) + Total(ls[1..], k, iid)
  }

  lemma {:induction false} TotalAppend(a: seq<Line>, b: seq<Line>, k: Kind, iid: string)
    ensures Total(a + b, k, iid) == Total(a, k, iid) + Total(b, k, iid)
  {
    if |a| == 0 {
      assert a + b == b;
    } else {
      assert (a + b)[0] == a[0] && (a + b)[1..] == a[1..] + b;
      TotalAppend(a[1..], b, k, iid);
    }
  }

  /** What a returned entry adds to one return type's total for one id. */
  function OwnType(l: Line, iid: string, t: string): int {
    if l.kind == Returned && l.iid == iid && l.rtype == t then l.qty else 0
  }

  function TypeTotal(ls: seq<Line>, iid: string, t: string): int {
    if |ls| == 0 then 0 else OwnType(ls[0], iid, t) + TypeTotal(ls[1..], iid, t)
  }

  lemma {:induction false} TypeTotalAppend(a: seq<Line>, b: seq<Line>, iid: string, t: string)
    ensures TypeTotal(a + b, iid, t) == TypeTotal(a, iid, t) + TypeTotal(b, iid, t)
  {
    if |a| == 0 {
      assert a + b == b;
    } else {
      assert (a + b)[0] == a[0] && (a + b)[1..] == a[1..] + b;
      TypeTotalAppend(a[1..], b, iid, t);
    }
  }

  /** The sum of to_int(it.get("quantity"), 0) over the dict entries of a list whose id is
      iid. */
  function ItemTotal(items: seq<Value>, iid: string): int {
    if |items| == 0 then 0
    else
      (if items[0].Obj? && ItemId(items[0]) == iid then Coerce.JobToInt(GetOrNull(items[0], "quantity"), 0) else 0)
      + ItemTotal(items[1..], iid)
  }

  /** The entries read from a list add up, for every id, to that list's entries with the id:
      entries without an id are the only ones dropped. */
  lemma {:induction false} ReadListTotal(kind: Kind, items: seq<Value>, iid: string)
    requires ReadList(kind, items).Ok? && iid != ""
    decreases |items|
    ensures Total(ReadList(kind, items).value, kind, iid) == ItemTotal(items, iid)
  {
    if |items| > 0 {
      var rs := Readings(kind, items);
      assert rs[1..] == Readings(kind, items[1..]);
      CollectHead(rs);
      var own := Present(rs[0].value);
      var rest := ReadList(kind, items[1..]).value;
      ReadListTotal(kind, items[1..], iid);
      TotalAppend(own, rest, kind, iid);
      ReadLineTotal(kind, items[0], iid);
    }
  }

  /** [x] for Some(x), [] for None. */
  function Present<T>(o: Option<T>): seq<T> {
    if o.Some? then [o.value] else []
  }

  lemma CollectHead<T>(rs: seq<Result<Option<T>, string>>)
    requires |rs| > 0 && Collect(rs).Ok?
    ensures rs[0].Ok? && Collect(rs[1..]).Ok? && Collect(rs).value == Present(rs[0].value) + Collect(rs[1..]).value
  {}

  /** What one read entry adds to its list's total for an id. */
  lemma ReadLineTotal(kind: Kind, it: Value, iid: string)
    requires ReadLine(kind, it).Ok? && iid != ""
    ensures Total(Present(ReadLine(kind, it).value), kind, iid)
            == if it.Obj? && ItemId(it) == iid then Coerce.JobToInt(GetOrNull(it, "quantity"), 0) else 0
  {
    ReadLineSpec(kind, it);
    var own := Present(ReadLine(kind, it).value);
    if |own| > 0 {
      assert own[1..] == [];
    }
  }

  // ------------------------------------------------------------ the job's dictionaries

  /** The job's dictionaries for one project: names, proj_qty, taken_qty, returned_qty and
      return_types (per id, return type to summed quantity in insertion order). */
  datatype Agg = Agg(names: map<string, string>, proj: map<string, int>, taken: map<string, int>,
                     returned: map<string, int>, types: map<string, seq<(string, int)>>)

  const EmptyAgg := Agg(map[], map[], map[], map[], map[])

  /** d.get(k, 0). */
  function Amount(m: map<string, int>, k: string): int {
    if k in m then m[k] else 0
  }

  /** d[k] = d.get(k, 0) + q. */
  function Bump(m: map<string, int>, k: string, q: int): (r: map<string, int>)
    ensures r.Keys == m.Keys + {k}
    ensures Amount(r, k) == Amount(m, k) + q
    ensures forall j :: j != k ==> Amount(r, j) == Amount(m, j)
  {
    m[k := Amount(m, k) + q]
  }

  /** rtmap.get(t, 0) on a list of (type, quantity) pairs with distinct types. */
  function TypeAmount(al: seq<(string, int)>, t: string): int {
    if |al| == 0 then 0 else if al[0].0 == t then al[0].1 else TypeAmount(al[1..], t)
  }

  predicate HasType(al: seq<(string, int)>, t: string) {
    exists i :: 0 <= i < |al| && al[i].0 == t
  }

  predicate DistinctTypes(al: seq<(string, int)>) {
    forall i, j :: 0 <= i < j < |al| ==> al[i].0 != al[j].0
  }

  /** rtmap[t] = rtmap.get(t, 0) + q: an existing type keeps its place, a new one goes
      last. */
  function AddType(al: seq<(string, int)>, t: string, q: int): (r: seq<(string, int)>)
    requires DistinctTypes(al)
    ensures DistinctTypes(r)
    ensures TypeAmount(r, t) == TypeAmount(al, t) + q
    ensures forall u :: u != t ==> TypeAmount(r, u) == TypeAmount(al, u)
    ensures forall u :: HasType(r, u) <==> HasType(al, u) || u == t
  {
    if |al| == 0 then [(t, q)]
    else if al[0].0 == t then
      var r := [(t, al[0].1 + q)] + al[1..];
      assert forall i :: 1 <= i < |al| ==> r[i] == al[i];
      r
    else
      var tail := AddType(al[1..], t, q);
      assert al == [al[0]] + al[1..];
      forall u ensures HasType([al[0]] + tail, u) <==> u == al[0].0 || HasType(tail, u) {
        ConsHasType(al[0], tail, u);
      }
      forall u ensures HasType(al, u) <==> u == al[0].0 || HasType(al[1..], u) {
        ConsHasType(al[0], al[1..], u);
      }
      assert !HasType(al[1..], al[0].0) by {
        forall i | 0 <= i < |al[1..]| ensures al[1..][i].0 != al[0].0 {
          assert al[1..][i] == al[i + 1];
        }
      }
      ConsDistinct(al[0], tail);
      [al[0]] + tail
  }

  lemma ConsHasType(x: (string, int), tail: seq<(string, int)>, u: string)
    ensures HasType([x] + tail, u) <==> x.0 == u || HasType(tail, u)
  {
    assert ([x] + tail)[0] == x;
    if HasType(tail, u) {
      var i :| 0 <= i < |tail| && tail[i].0 == u;
      assert ([x] + tail)[i + 1] == tail[i];
    }
    if HasType([x] + tail, u) && x.0 != u {
      var i :| 0 <= i < |[x] + tail| && ([x] + tail)[i].0 == u;
      assert tail[i - 1].0 == u;
    }
  }

  lemma ConsDistinct(x: (string, int), tail: seq<(string, int)>)
    requires DistinctTypes(tail) && !HasType(tail, x.0)
    ensures DistinctTypes([x] + tail)
  {
    var r := [x] + tail;
    forall i, j | 0 <= i < j < |r| ensures r[i].0 != r[j].0 {
      assert r[j] == tail[j - 1];
      if i > 0 { assert r[i] == tail[i - 1]; }
    }
  }

  function TypesOf(a: Agg, iid: string): seq<(string, int)> {
    if iid in a.types then a.types[iid] else []
  }

  /** remember_name: the first non-empty name given for an id is kept. */
  function Remember(names: map<string, string>, l: Line): map<string, string> {
    if l.name != "" && l.iid !in names then names[l.iid := l.name] else names
  }

  /** The quantity dictionary of one list after an entry: only an entry of that list counts. */
  function BumpIf(m: map<string, int>, l: Line, k: Kind): map<string, int> {
    if l.kind == k then Bump(m, l.iid, l.qty) else m
  }

  /** return_types after an entry: only a returned entry with a return type counts. */
  function AddTypes(types: map<string, seq<(string, int)>>, l: Line): (r: map<string, seq<(string, int)>>)
    requires forall k :: k in types ==> DistinctTypes(types[k])
    ensures forall k :: k in r ==> DistinctTypes(r[k])
  {
    if l.kind == Returned && l.rtype != "" then
      types[l.iid := AddType(if l.iid in types then types[l.iid] else [], l.rtype, l.qty)]
    else types
  }

  /** The job's per-entry update of its dictionaries. */
  function AddLine(a: Agg, l: Line): Agg
    requires forall k :: k in a.types ==> DistinctTypes(a.types[k])
  {
    Agg(Remember(a.names, l), BumpIf(a.proj, l, Projected), BumpIf(a.taken, l, Taken),
        BumpIf(a.returned, l, Returned), AddTypes(a.types, l))
  }

  /** The job's three loops, over the entries in the order it meets them. */
  function Aggregate(lines: seq<Line>): (a: Agg)
    ensures forall k :: k in a.types ==> DistinctTypes(a.types[k])
  {
    if |lines| == 0 then EmptyAgg
    else AddLine(Aggregate(lines[..|lines| - 1]), lines[|lines| - 1])
  }

  /** The totals dictionary of one list. */
  function Sums(a: Agg, k: Kind): map<string, int> {
    match k
    case Projected => a.proj
    case Taken => a.taken
    case Returned => a.returned
  }

  /** Each totals dictionary holds exactly the ids some entry of its list carries, and for
      each the sum of that list's quantities for the id. */
  lemma {:induction false} SumsAreTotals(lines: seq<Line>, k: Kind, iid: string)
    ensures iid in Sums(Aggregate(lines), k) <==> exists i :: 0 <= i < |lines| && lines[i].kind == k && lines[i].iid == iid
    ensures Amount(Sums(Aggregate(lines), k), iid) == Total(lines, k, iid)
  {
    if |lines| > 0 {
      var init, l := lines[..|lines| - 1], lines[|lines| - 1];
      var a := Aggregate(init);
      assert lines == init + [l];
      assert Aggregate(lines) == AddLine(a, l);
      SumsAreTotals(init, k, iid);
      SumsStep(a, l, k, iid);
      TotalAppend(init, [l], k, iid);
      assert [l][1..] == [];
      assert forall i :: 0 <= i < |init| ==> init[i] == lines[i];
    }
  }

  /** One entry adds its quantity to its own list's total for its own id only. */
  lemma SumsStep(a: Agg, l: Line, k: Kind, iid: string)
    requires forall k :: k in a.types ==> DistinctTypes(a.types[k])
    ensures iid in Sums(AddLine(a, l), k) <==> iid in Sums(a, k) || (l.kind == k && l.iid == iid)
    ensures Amount(Sums(AddLine(a, l), k), iid) == Amount(Sums(a, k), iid) + Own(l, k, iid)
  {}

  /** An entry that names its id. */
  predicate Named(l: Line, iid: string) {
    l.iid == iid && l.name != ""
  }

  /** One entry keeps a name already known and otherwise gives its own, if any. */
  lemma NamesStep(a: Agg, l: Line, iid: string)
    requires forall k :: k in a.types ==> DistinctTypes(a.types[k])
    ensures iid in AddLine(a, l).names <==> iid in a.names || Named(l, iid)
    ensures iid in a.names ==> AddLine(a, l).names[iid] == a.names[iid]
    ensures iid !in a.names && Named(l, iid) ==> AddLine(a, l).names[iid] == l.name
  {}

  /** The name kept for an id is that of the first entry that names it; an id no entry
      names has none. */
  lemma {:induction false} NamesAreFirst(lines: seq<Line>, iid: string)
    ensures iid in Aggregate(lines).names <==> exists i :: 0 <= i < |lines| && Named(lines[i], iid)
    ensures iid in Aggregate(lines).names ==>
              exists i :: 0 <= i < |lines| && Named(lines[i], iid) && Aggregate(lines).names[iid] == lines[i].name
                          && forall j :: 0 <= j < i ==> !Named(lines[j], iid)
  {
    if |lines| > 0 {
      var init, l := lines[..|lines| - 1], lines[|lines| - 1];
      var a := Aggregate(init);
      assert Aggregate(lines) == AddLine(a, l);
      NamesAreFirst(init, iid);
      NamesStep(a, l, iid);
      assert forall i :: 0 <= i < |init| ==> init[i] == lines[i];
      if iid in a.names {
        var i :| 0 <= i < |init| && Named(init[i], iid) && a.names[iid] == init[i].name
                 && forall j :: 0 <= j < i ==> !Named(init[j], iid);
        assert Named(lines[i], iid) && Aggregate(lines).names[iid] == lines[i].name;
      } else if Named(l, iid) {
        assert Named(lines[|lines| - 1], iid) && Aggregate(lines).names[iid] == lines[|lines| - 1].name;
      }
    }
  }

  /** An entry whose return type counts for the id's comment. */
  predicate Typed(l: Line, iid: string, t: string) {
    l.kind == Returned && l.iid == iid && l.rtype == t && t != ""
  }

  lemma {:induction false} NoTypeNoAmount(al: seq<(string, int)>, t: string)
    requires !HasType(al, t)
    ensures TypeAmount(al, t) == 0
  {
    if |al| > 0 {
      ConsHasType(al[0], al[1..], t);
      assert al == [al[0]] + al[1..];
      NoTypeNoAmount(al[1..], t);
    }
  }

  /** One entry adds its quantity to its own return type, for its own id, and to nothing
      else. */
  lemma TypesStep(a: Agg, l: Line, iid: string, t: string)
    requires forall k :: k in a.types ==> DistinctTypes(a.types[k])
    ensures HasType(TypesOf(AddLine(a, l), iid), t) <==> HasType(TypesOf(a, iid), t) || Typed(l, iid, t)
    ensures TypeAmount(TypesOf(AddLine(a, l), iid), t)
            == TypeAmount(TypesOf(a, iid), t) + if Typed(l, iid, t) then l.qty else 0
  {}

  /** An id's return types are exactly the non-empty types of its returned entries, each
      once, each with the sum of those entries' quantities. */
  lemma {:induction false} TypesAreTotals(lines: seq<Line>, iid: string, t: string)
    ensures DistinctTypes(TypesOf(Aggregate(lines), iid))
    ensures HasType(TypesOf(Aggregate(lines), iid), t) <==> exists i :: 0 <= i < |lines| && Typed(lines[i], iid, t)
    ensures TypeAmount(TypesOf(Aggregate(lines), iid), t) == if t == "" then 0 else TypeTotal(lines, iid, t)
  {
    if |lines| > 0 {
      var init, l := lines[..|lines| - 1], lines[|lines| - 1];
      var a := Aggregate(init);
      assert lines == init + [l];
      assert Aggregate(lines) == AddLine(a, l);
      TypesAreTotals(init, iid, t);
      TypesStep(a, l, iid, t);
      TypeTotalAppend(init, [l], iid, t);
      assert [l][1..] == [];
      assert forall i :: 0 <= i < |init| ==> init[i] == lines[i];
    }
    if t == "" {
      NoTypeNoAmount(TypesOf(Aggregate(lines), iid), t);
    }
  }

  /** The ids in a project's entries, in order, repeats included. */
  function Iids(lines: seq<Line>): (r: seq<string>)
    ensures |r| == |lines| && forall i :: 0 <= i < |r| ==> r[i] == lines[i].iid
  {
    seq(|lines|, i requires 0 <= i < |lines| => lines[i].iid)
  }

  /** sorted(set(proj_qty) | set(taken_qty) | set(returned_qty)): the ids the job builds rows
      for are, in order, exactly the keys of its three totals dictionaries. */
  lemma IdsAreKeys(lines: seq<Line>, x: string)
    ensures var a := Aggregate(lines);
            x in Order.SortedSet(Iids(lines)) <==> x in a.proj || x in a.taken || x in a.returned
  {
    SumsAreTotals(lines, Projected, x);
    SumsAreTotals(lines, Taken, x);
    SumsAreTotals(lines, Returned, x);
    if x in Iids(lines) {
      var i :| 0 <= i < |lines| && Iids(lines)[i] == x;
      assert lines[i].kind == Projected || lines[i].kind == Taken || lines[i].kind == Returned;
    }
  }

  // ------------------------------------------------------------ one analytics row

  /** "; ".join(f"{k}:{v}" for k, v in rtmap.items()). */
  function Comment(al: seq<(string, int)>): string {
    Text.Join("; ", seq(|al|, i requires 0 <= i < |al| => al[i].0 + ":" + Numerals.IntToString(al[i].1)))
  }

  lemma {:induction false} JoinNonEmpty(sep: string, parts: seq<string>)
    requires |parts| > 0 && |parts[0]| > 0
    ensures |Text.Join(sep, parts)| > 0
  {
    if |parts| > 1 {
      assert Text.Join(sep, parts) == parts[0] + sep + Text.Join(sep, parts[1..]);
    }
  }

  /** The comment is empty exactly when the id has no return type. */
  lemma CommentEmpty(al: seq<(string, int)>)
    ensures Comment(al) == "" <==> |al| == 0
  {
    if |al| > 0 {
      var parts := seq(|al|, i requires 0 <= i < |al| => al[i].0 + ":" + Numerals.IntToString(al[i].1));
      assert parts[0] == al[0].0 + ":" + Numerals.IntToString(al[0].1);
      JoinNonEmpty("; ", parts);
    }
  }

  /** The project fields every row of the project repeats, each stripped. */
  datatype Meta = Meta(orderTime: string, status: string, warehouse: string, driller: string,
                       projectNumber: string, pickupTime: string)

  predicate StrippedMeta(m: Meta) {
    Text.PyStrip(m.orderTime) == m.orderTime && Text.PyStrip(m.projectNumber) == m.projectNumber
  }

  /** What the job writes about one id. */
  datatype Item = Item(name: string, projected: int, taken: int, returned: int, comment: string)

  function ItemOf(a: Agg, iid: string): Item {
    Item(if iid in a.names then a.names[iid] else "", Amount(a.proj, iid), Amount(a.taken, iid),
         Amount(a.returned, iid), Comment(TypesOf(a, iid)))
  }

  /** row_dict.get(h, ""): the cell the job writes under header h; headers it does not know
      get "". Quantities are written in decimal. */
  function Cell(h: string, m: Meta, iid: string, it: Item): string {
    if h == "Article Number" then iid
    else if h == "Order time" then m.orderTime
    else if h == "Order status" then m.status
    else if h == "Warehouse" then m.warehouse
    else if h == "Driller" then m.driller
    else if h == "Drilling unit / Project number" then m.projectNumber
    else if h == "Pickup time" then m.pickupTime
    else if h == "Item name" then it.name
    else if h == "Projected quantity" then Numerals.IntToString(it.projected)
    else if h == "Taken quantity" then Numerals.IntToString(it.taken)
    else if h == "Returned quantity" then Numerals.IntToString(it.returned)
    else if h == "Comments" then it.comment
    else ""
  }

  /** [row_dict.get(h, "") for h in headers]. */
  function NewRow(headers: seq<string>, m: Meta, iid: string, it: Item): (r: seq<string>)
    ensures |r| == |headers|
  {
    seq(|headers|, i requires 0 <= i < |headers| => Cell(headers[i], m, iid, it))
  }

  /** The rows the job builds for one project: one per id, in sorted order, keyed by (id,
      project number, order time). */
  function Candidates(headers: seq<string>, m: Meta, lines: seq<Line>): (cs: seq<AnalyticsMerge.Candidate>)
    ensures var ids := Order.SortedSet(Iids(lines));
            |cs| == |ids|
            && forall i :: 0 <= i < |cs| ==> cs[i].key == (ids[i], m.projectNumber, m.orderTime)
  {
    var a := Aggregate(lines);
    var ids := Order.SortedSet(Iids(lines));
    seq(|ids|, i requires 0 <= i < |ids| =>
          AnalyticsMerge.Candidate((ids[i], m.projectNumber, m.orderTime), NewRow(headers, m, ids[i], ItemOf(a, ids[i]))))
  }

  /** No two rows of one project share a key. */
  lemma CandidatesDistinct(headers: seq<string>, m: Meta, lines: seq<Line>)
    ensures AnalyticsMerge.DistinctKeys(Candidates(headers, m, lines))
  {
    var ids := Order.SortedSet(Iids(lines));
    forall i, j | 0 <= i < j < |ids| ensures ids[i] != ids[j] {
      if ids[i] == ids[j] {
        Order.LessIrreflexive(Order.StrKey(ids[i]));
      }
    }
  }

  /** What the job writes about an id: its total over each list, the first name given
      for it, and a comment that is empty exactly when no returned entry for it has a
      return type. */
  lemma {:induction false} ItemTotals(lines: seq<Line>, iid: string)
    ensures var it := ItemOf(Aggregate(lines), iid);
            it.projected == Total(lines, Projected, iid) && it.taken == Total(lines, Taken, iid)
            && it.returned == Total(lines, Returned, iid)
    ensures var it := ItemOf(Aggregate(lines), iid);
            (it.name != "" ==> exists k :: 0 <= k < |lines| && Named(lines[k], iid) && it.name == lines[k].name
                                           && forall k' :: 0 <= k' < k ==> !Named(lines[k'], iid))
            && (it.name == "" ==> forall k :: 0 <= k < |lines| ==> !Named(lines[k], iid))
    ensures ItemOf(Aggregate(lines), iid).comment == "" <==> forall k, t :: 0 <= k < |lines| ==> !Typed(lines[k], iid, t)
  {
    SumsAreTotals(lines, Projected, iid);
    SumsAreTotals(lines, Taken, iid);
    SumsAreTotals(lines, Returned, iid);
    NamesAreFirst(lines, iid);
    var al := TypesOf(Aggregate(lines), iid);
    CommentEmpty(al);
    if |al| > 0 {
      TypesAreTotals(lines, iid, al[0].0);
      assert HasType(al, al[0].0);
    }
    forall k, t | 0 <= k < |lines| && Typed(lines[k], iid, t) ensures |al| > 0 {
      TypesAreTotals(lines, iid, t);
    }
  }

  /** The cell under each header the job knows. */
  lemma CellByHeader(m: Meta, iid: string, it: Item)
    ensures Cell("Article Number", m, iid, it) == iid
    ensures Cell("Order time", m, iid, it) == m.orderTime
    ensures Cell("Drilling unit / Project number", m, iid, it) == m.projectNumber
    ensures Cell("Item name", m, iid, it) == it.name
    ensures Cell("Projected quantity", m, iid, it) == Numerals.IntToString(it.projected)
    ensures Cell("Taken quantity", m, iid, it) == Numerals.IntToString(it.taken)
    ensures Cell("Returned quantity", m, iid, it) == Numerals.IntToString(it.returned)
    ensures Cell("Comments", m, iid, it) == it.comment
  {}

  /** The row for the i-th id holds, under each header, what the job writes about that id. */
  lemma CandidateRow(headers: seq<string>, m: Meta, lines: seq<Line>, i: nat, j: nat)
    requires i < |Candidates(headers, m, lines)| && j < |headers|
    ensures var iid := Order.SortedSet(Iids(lines))[i];
            Candidates(headers, m, lines)[i].row[j] == Cell(headers[j], m, iid, ItemOf(Aggregate(lines), iid))
  {}

  /** The quantity cells of a project's row for an id are that id's totals over each list. */
  lemma CandidateCells(headers: seq<string>, m: Meta, lines: seq<Line>, i: nat, j: nat)
    requires i < |Candidates(headers, m, lines)| && j < |headers|
    ensures var iid := Order.SortedSet(Iids(lines))[i];
            var cell := Candidates(headers, m, lines)[i].row[j];
            (headers[j] == "Projected quantity" ==> cell == Numerals.IntToString(Total(lines, Projected, iid)))
            && (headers[j] == "Taken quantity" ==> cell == Numerals.IntToString(Total(lines, Taken, iid)))
            && (headers[j] == "Returned quantity" ==> cell == Numerals.IntToString(Total(lines, Returned, iid)))
  {
    var iid := Order.SortedSet(Iids(lines))[i];
    CandidateRow(headers, m, lines, i, j);
    CellByHeader(m, iid, ItemOf(Aggregate(lines), iid));
    ItemTotals(lines, iid);
  }

  /** Every row of a project is filed under its own key by a header row that names the
      three key columns: the job's key and the index's key agree. */
  lemma CandidatesShaped(headers: seq<string>, m: Meta, lines: seq<Line>)
    requires "Article Number" in headers && "Order time" in headers && "Drilling unit / Project number" in headers
    requires StrippedMeta(m) && forall l :: l in lines ==> WellFormed(l)
    ensures var cs := Candidates(headers, m, lines);
            forall i :: 0 <= i < |cs| ==> AnalyticsMerge.Shaped(AnalyticsMerge.ColsOf(headers), |headers|, cs[i])
  {
    forall i | 0 <= i < |Candidates(headers, m, lines)|
      ensures AnalyticsMerge.Shaped(AnalyticsMerge.ColsOf(headers), |headers|, Candidates(headers, m, lines)[i])
    {
      CandidateShaped(headers, m, lines, i);
    }
  }

  lemma CandidateShaped(headers: seq<string>, m: Meta, lines: seq<Line>, i: nat)
    requires "Article Number" in headers && "Order time" in headers && "Drilling unit / Project number" in headers
    requires StrippedMeta(m) && forall l :: l in lines ==> WellFormed(l)
    requires i < |Candidates(headers, m, lines)|
    ensures AnalyticsMerge.Shaped(AnalyticsMerge.ColsOf(headers), |headers|, Candidates(headers, m, lines)[i])
  {
    var cols := AnalyticsMerge.ColsOf(headers);
    var c := Candidates(headers, m, lines)[i];
    var iid := Order.SortedSet(Iids(lines))[i];
    var it := ItemOf(Aggregate(lines), iid);
    assert iid in Iids(lines);
    var k :| 0 <= k < |lines| && lines[k].iid == iid;
    assert lines[k] in lines;
    CellByHeader(m, iid, it);
    CandidateRow(headers, m, lines, i, cols.article);
    CandidateRow(headers, m, lines, i, cols.order);
    CandidateRow(headers, m, lines, i, cols.project);
    assert c.row[cols.article] == iid && c.row[cols.order] == m.orderTime && c.row[cols.project] == m.projectNumber;
    assert c.key == (iid, m.projectNumber, m.orderTime);
    AnalyticsMerge.ShapedBy(cols, |headers|, c);
  }

  // ------------------------------------------------------------ one project

  /** A project column as the value proj.get(name) hands to _safe_parse_json. */
  function Field(proj: Sheet.Dict, name: string): Value {
    match Sheet.Lookup(proj, name)
    case None => Null
    case Some(s) => Str(s)
  }

  /** (proj.get(name) or "").strip(). */
  function TextField(proj: Sheet.Dict, name: string): (r: string)
    ensures Text.PyStrip(r) == r
  {
    Text.PyStripIdempotent(Sheet.GetOr(proj, name, ""));
    Text.PyStrip(Sheet.GetOr(proj, name, ""))
  }

  /** The driller: the first worker's name, else its username, stripped; "" when there is no
      worker list or its first entry is empty. */
  function Driller(workers: Value): (r: Result<string, string>)
    ensures !workers.Arr? || |workers.items| == 0 ==> r == Ok("")
    ensures workers.Arr? && |workers.items| > 0 && !Truthy(workers.items[0]) ==> r == Ok("")
    ensures workers.Arr? && |workers.items| > 0 && Truthy(workers.items[0]) && !workers.items[0].Obj? ==>
              r == Err(NoGet(workers.items[0]))
    ensures workers.Arr? && |workers.items| > 0 ==>
              var w0 := workers.items[0];
              var name := Get(w0, "name");
              name.Some? && name.value.Str? && name.value.s != "" ==> r == Ok(Text.PyStrip(name.value.s))
    ensures workers.Arr? && |workers.items| > 0 && workers.items[0].Obj? ==>
              var name := GetOrNull(workers.items[0], "name");
              var user := GetOrNull(workers.items[0], "username");
              && (Truthy(name) && !name.Str? ==> r.Err?)
              && (!Truthy(name) && user.Str? ==> r == Ok(Text.PyStrip(user.s)))
              && (!Truthy(name) && !Truthy(user) ==> r == Ok(""))
              && (!Truthy(name) && Truthy(user) && !user.Str? ==> r.Err?)
  {
    if !workers.Arr? || |workers.items| == 0 then Ok("")
    else
      var w0 := workers.items[0];
      if !Truthy(w0) then Ok("")
      else if !w0.Obj? then Err(NoGet(w0))
      else
        var name := Get(w0, "name");
        var pick := if name.Some? && Truthy(name.value) then name else Get(w0, "username");
        match TextOr(pick)
        case Ok(s) => Ok(Text.PyStrip(s))
        case Err(e) => Err(e)
  }

  /** The three lists' entries in the order the job meets them, or the first error. */
  function Entries(projected: Value, taken: Value, returned: Value): (r: Result<seq<Line>, string>)
    ensures r.Ok? ==> forall l :: l in r.value ==> WellFormed(l)
  {
    match ReadField(Projected, projected)
    case Err(e) => Err(e)
    case Ok(pl) =>
      match ReadField(Taken, taken)
      case Err(e) => Err(e)
      case Ok(tl) =>
        match ReadField(Returned, returned)
        case Err(e) => Err(e)
        case Ok(rl) => Ok(pl + tl + rl)
  }

  /** _safe_parse_json(proj.get(name), default=[]). */
  function ListField(proj: Sheet.Dict, name: string): Value {
    Coerce.SafeParseJson(Field(proj, name), Arr([]))
  }

  /** One project's fields, driller and entries, or the error that stops the job: the
      driller is read before the entries. */
  function ReadProject(proj: Sheet.Dict): (r: Result<(Meta, seq<Line>), string>)
    ensures r.Ok? ==> StrippedMeta(r.value.0) && forall l :: l in r.value.1 ==> WellFormed(l)
    ensures r.Ok? ==> r.value.0.projectNumber == TextField(proj, "project_number")
                      && r.value.0.orderTime == TextField(proj, "created_at")
  {
    Assemble(proj, Driller(ListField(proj, "workers")),
             Entries(ListField(proj, "items"), ListField(proj, "taken_by_worker"), ListField(proj, "returned_by_worker")))
  }

  function Assemble(proj: Sheet.Dict, driller: Result<string, string>, entries: Result<seq<Line>, string>)
    : (r: Result<(Meta, seq<Line>), string>)
    requires entries.Ok? ==> forall l :: l in entries.value ==> WellFormed(l)
    ensures r.Ok? ==> StrippedMeta(r.value.0) && forall l :: l in r.value.1 ==> WellFormed(l)
    ensures r.Ok? ==> r.value.0.projectNumber == TextField(proj, "project_number")
                      && r.value.0.orderTime == TextField(proj, "created_at")
  {
    match driller
    case Err(e) => Err(e)
    case Ok(d) =>
      var m := Meta(TextField(proj, "created_at"), TextField(proj, "status"), TextField(proj, "customer_name"),
                    d, TextField(proj, "project_number"), TextField(proj, "start_date"));
      match entries
      case Err(e) => Err(e)
      case Ok(lines) => Ok((m, lines))
  }

  /** The rows the job builds for one project, under the given analytics headers. */
  function ProjectRows(headers: seq<string>, proj: Sheet.Dict): (r: Result<seq<AnalyticsMerge.Candidate>, string>)
    ensures r.Ok? ==> AnalyticsMerge.DistinctKeys(r.value)
    ensures r.Ok? ==> forall c :: c in r.value ==> c.key.1 == TextField(proj, "project_number")
                                                    && c.key.2 == TextField(proj, "created_at")
  {
    match ReadProject(proj)
    case Err(e) => Err(e)
    case Ok(ml) =>
      CandidatesDistinct(headers, ml.0, ml.1);
      Ok(Candidates(headers, ml.0, ml.1))
  }

  /** With headers that name the key columns, every row of a project is shaped by them. */
  lemma ProjectRowsShaped(headers: seq<string>, proj: Sheet.Dict)
    requires "Article Number" in headers && "Order time" in headers && "Drilling unit / Project number" in headers
    requires ProjectRows(headers, proj).Ok?
    ensures forall c :: c in ProjectRows(headers, proj).value ==>
              AnalyticsMerge.Shaped(AnalyticsMerge.ColsOf(headers), |headers|, c)
  {
    var ml := ReadProject(proj).value;
    CandidatesShaped(headers, ml.0, ml.1);
  }
}
