/** The projects pages: who sees a project, the status its card shows, the per-item sums on a
    card, the active and the finished listings, and the two manager edits (one item line of a
    project, and a project's status). */
module Projects {
  import opened Wrappers
  import opened Json
  import Text
  import Sheet
  import Order
  import Coerce
  import JsonCodec
  import Http
  import Seqs = Lists

  // ---------------------------------------------------------------- who sees a project

  /** The signed-in user as the session holds them. */
  datatype Session = Session(username: Option<string>, email: Option<string>, name: Option<string>)

  /** _norm(x) of a session field: (x or "").strip().lower(). */
  function SessionId(x: Option<string>): string {
    Text.Lower(Text.PyStrip(x.GetOr("")))
  }

  /** me_ids: the normalised username, email and name, with "" discarded. */
  function MeIds(s: Session): (ids: set<string>)
    ensures "" !in ids
    ensures forall x :: x in ids <==> x != "" && (x == SessionId(s.username) || x == SessionId(s.email) || x == SessionId(s.name))
  {
    {SessionId(s.username), SessionId(s.email), SessionId(s.name)} - {""}
  }

  /** _norm(w.get(key)) of a worker field: Err (AttributeError) for a truthy non-text value. */
  function Norm(x: Option<Value>): (r: Result<string, string>)
    ensures r.Err? <==> x.Some? && Truthy(x.value) && !x.value.Str?
    ensures x.Some? && x.value.Str? ==> r == Ok(Text.Lower(Text.PyStrip(x.value.s)))
  {
    match TextOr(x)
    case Err(e) => Err(e)
    case Ok(t) => Ok(Text.Lower(Text.PyStrip(t)))
  }

  /** A worker's identifiers: normalised username, email and name, with "" discarded; Err
      when one of the three raises. */
  function WorkerIds(w: Value): (r: Result<set<string>, string>)
    ensures r.Ok? ==> "" !in r.value
    ensures r.Err? <==> Norm(Get(w, "username")).Err? || Norm(Get(w, "email")).Err? || Norm(Get(w, "name")).Err?
  {
    match Norm(Get(w, "username"))
    case Err(e) => Err(e)
    case Ok(u) =>
      match Norm(Get(w, "email"))
      case Err(e) => Err(e)
      case Ok(m) =>
        match Norm(Get(w, "name"))
        case Err(e) => Err(e)
        case Ok(n) => Ok({u, m, n} - {""})
  }

  /** Whether a worker shares an identifier with me; Err where reading the worker raises. */
  function Hit(w: Value, me: set<string>): (r: Result<bool, string>)
    ensures r.Err? <==> WorkerIds(w).Err?
  {
    match WorkerIds(w)
    case Err(e) => Err(e)
    case Ok(ids) => Ok(ids * me != {})
  }

  predicate Shares(w: Value, me: set<string>) { Hit(w, me) == Ok(true) }

  /** assigned_match: any() over the workers, stopping at the first that shares an
      identifier; a worker reached before any match that raises makes the row fail. */
  function Assigned(workers: seq<Value>, me: set<string>): (r: Result<bool, string>)
    ensures r.Err? ==> exists i :: 0 <= i < |workers| && WorkerIds(workers[i]).Err?
  {
    if |workers| == 0 then Ok(false)
    else
      match Hit(workers[0], me)
      case Err(e) => Err(e)
      case Ok(true) => Ok(true)
      case Ok(false) =>
        var r := Assigned(workers[1..], me);
        assert r.Err? ==> exists i :: 1 <= i < |workers| && WorkerIds(workers[i]).Err? by {
          if r.Err? {
            var i :| 0 <= i < |workers[1..]| && WorkerIds(workers[1..][i]).Err?;
            assert workers[1..][i] == workers[i + 1];
          }
        }
        r
  }

  /** The creator identifier: created_by stripped, then normalised. */
  function CreatorId(createdBy: string): string {
    Text.Lower(Text.PyStrip(Text.PyStrip(createdBy)))
  }

  /** creator_match or assigned_match, with assigned_match evaluated first. */
  function Visible(createdBy: string, workers: seq<Value>, me: set<string>): (r: Result<bool, string>)
    ensures r.Err? <==> Assigned(workers, me).Err?
  {
    match Assigned(workers, me)
    case Err(e) => Err(e)
    case Ok(a) => Ok((CreatorId(createdBy) != "" && CreatorId(createdBy) in me) || a)
  }

  lemma {:induction false} AssignedIff(workers: seq<Value>, me: set<string>)
    requires forall i :: 0 <= i < |workers| ==> WorkerIds(workers[i]).Ok?
    ensures Assigned(workers, me) == Ok(exists i :: 0 <= i < |workers| && Shares(workers[i], me))
  {
    if |workers| > 0 {
      var rest := workers[1..];
      AssignedIff(rest, me);
      assert Hit(workers[0], me).Ok?;
      assert (exists i :: 0 <= i < |workers| && Shares(workers[i], me))
             <==> Shares(workers[0], me) || exists i :: 0 <= i < |rest| && Shares(rest[i], me) by {
        assert forall i :: 1 <= i < |workers| ==> rest[i - 1] == workers[i];
        if exists i :: 0 <= i < |workers| && Shares(workers[i], me) {
          var i :| 0 <= i < |workers| && Shares(workers[i], me);
          if i > 0 { assert Shares(rest[i - 1], me); }
        }
      }
    }
  }

  /** With every worker readable, a project is visible exactly when its non-empty creator is
      one of my identifiers or some worker shares a (non-empty) identifier with me; the empty
      identifier never matches anything. */
  lemma VisibleIff(createdBy: string, workers: seq<Value>, me: set<string>)
    requires "" !in me
    requires forall i :: 0 <= i < |workers| ==> WorkerIds(workers[i]).Ok?
    ensures Visible(createdBy, workers, me).Ok?
    ensures Visible(createdBy, workers, me).value
            <==> (CreatorId(createdBy) != "" && CreatorId(createdBy) in me)
                 || exists i, x :: 0 <= i < |workers| && x in WorkerIds(workers[i]).value && x in me && x != ""
  {
    AssignedIff(workers, me);
    if exists i :: 0 <= i < |workers| && Shares(workers[i], me) {
      var i :| 0 <= i < |workers| && Shares(workers[i], me);
      assert WorkerIds(workers[i]).value * me != {};
      var x :| x in WorkerIds(workers[i]).value * me;
      assert x in WorkerIds(workers[i]).value && x in me && x != "";
    }
  }

  /** A user with no identifier at all sees no project. */
  lemma NoIdentitySeesNothing(s: Session, createdBy: string, workers: seq<Value>)
    requires SessionId(s.username) == "" && SessionId(s.email) == "" && SessionId(s.name) == ""
    ensures Visible(createdBy, workers, MeIds(s)) != Ok(true)
  {
    assert MeIds(s) == {};
    if Assigned(workers, {}) == Ok(true) { AssignedNeedsShare(workers, {}); }
  }

  lemma {:induction false} AssignedNeedsShare(workers: seq<Value>, me: set<string>)
    requires Assigned(workers, me) == Ok(true)
    ensures exists i :: 0 <= i < |workers| && Shares(workers[i], me)
  {
    if Hit(workers[0], me) != Ok(true) {
      AssignedNeedsShare(workers[1..], me);
      var i :| 0 <= i < |workers[1..]| && Shares(workers[1..][i], me);
      assert Shares(workers[i + 1], me);
    }
  }

  // ---------------------------------------------------------------- status

  /** (project.get("status") or "active").lower(): no stripping. */
  function StoredStatus(cell: Option<string>): string {
    Text.Lower(if cell.None? || cell.value == "" then "active" else cell.value)
  }

  /** The status a card shows. start and end are the parsed dates (None where strptime
      fails) as day numbers, today is the current day: a stored "active" shows "upcoming"
      before its start day when both dates parse; every other case shows the stored status. */
  function DerivedStatus(original: string, start: Option<int>, end: Option<int>, today: int): (s: string)
    ensures s != original ==> original == "active" && s == "upcoming"
    ensures start.None? || end.None? ==> s == original
    ensures original != "active" ==> s == original
  {
    if start.Some? && end.Some? && original == "active" && today < start.value then "upcoming" else original
  }

  /** An active project past its end day still shows "active"; one between its dates too. */
  lemma ActiveStaysActive(start: int, end: int, today: int)
    requires today >= start
    ensures DerivedStatus("active", Some(start), Some(end), today) == "active"
  {}

  /** The upcoming case is exactly a stored active with both dates readable and today before
      the start. */
  lemma UpcomingIff(original: string, start: Option<int>, end: Option<int>, today: int)
    requires original != "upcoming"
    ensures DerivedStatus(original, start, end, today) == "upcoming"
            <==> original == "active" && start.Some? && end.Some? && today < start.value
  {}

  // ---------------------------------------------------------------- per-item sums

  /** The item id an entry is counted under. */
  function EntryId(e: Value): Value { GetOrNull(e, "item_id") }

  /** _to_int(entry.get("quantity"), default=1). */
  function EntryQty(e: Value): (q: int)
    ensures Coerce.PyInt(GetOrNull(e, "quantity")).None? ==> q == 1
  {
    Coerce.ProjectsToInt(GetOrNull(e, "quantity"), 1)
  }

  /** The entry counts toward id: its item id is id, and id is truthy. */
  predicate Counts(e: Value, id: Value) { EntryId(e) == id && Truthy(id) }

  /** The reference sum: the quantities of the entries counted under id, front to back. */
  function Total(entries: seq<Value>, id: Value): (n: int)
    ensures !Truthy(id) ==> n == 0
  {
    if |entries| == 0 then 0
    else (if Counts(entries[0], id) then EntryQty(entries[0]) else 0) + Total(entries[1..], id)
  }

  /** dict.get(id, 0). */
  function Amount(m: map<Value, int>, id: Value): int {
    if id in m then m[id] else 0
  }

  /** The dict the loop builds, entry by entry: a falsy id is skipped, a list or dict id
      raises TypeError, any other id adds the entry's quantity to its running sum. */
  function Sums(entries: seq<Value>): (r: Result<map<Value, int>, string>)
    ensures r.Ok? ==> forall id :: id in r.value ==> Truthy(id) && Hashable(id)
  {
    if |entries| == 0 then Ok(map[])
    else
      var e := entries[|entries| - 1];
      match Sums(entries[..|entries| - 1])
      case Err(err) => Err(err)
      case Ok(m) =>
        var id := EntryId(e);
        if !Truthy(id) then Ok(m)
        else if !Hashable(id) then Err("TypeError: unhashable type: '" + TypeName(id) + "'")
        else Ok(m[id := Amount(m, id) + EntryQty(e)])
  }

  lemma {:induction false} TotalSnoc(entries: seq<Value>, e: Value, id: Value)
    ensures Total(entries + [e], id) == Total(entries, id) + (if Counts(e, id) then EntryQty(e) else 0)
  {
    if |entries| == 0 {
      assert [e][1..] == [];
    } else {
      assert (entries + [e])[1..] == entries[1..] + [e];
      TotalSnoc(entries[1..], e, id);
    }
  }

  /** The loop's sum for every id is the reference sum. */
  lemma {:induction false} SumsAreTotals(entries: seq<Value>, id: Value)
    requires Sums(entries).Ok?
    ensures Amount(Sums(entries).value, id) == Total(entries, id)
  {
    if |entries| > 0 {
      var init := entries[..|entries| - 1];
      var e := entries[|entries| - 1];
      assert entries == init + [e];
      SumsAreTotals(init, id);
      TotalSnoc(init, e, id);
    }
  }

  /** The sums fail exactly when some entry has a truthy list or dict as its item id. */
  lemma {:induction false} SumsFailIff(entries: seq<Value>)
    ensures Sums(entries).Err? <==> exists i :: 0 <= i < |entries| && Truthy(EntryId(entries[i])) && !Hashable(EntryId(entries[i]))
  {
    if |entries| > 0 {
      var init := entries[..|entries| - 1];
      SumsFailIff(init);
      assert forall i :: 0 <= i < |init| ==> init[i] == entries[i];
    }
  }

  // ---------------------------------------------------------------- cards

  datatype CardItem = CardItem(itemId: Value, itemName: Value, projected: int, used: int, returned: int, isTaken: bool)

  datatype Card = Card(
    projectNumber: string, createdBy: string, startDate: string, endDate: string, status: string,
    workers: seq<Value>, items: seq<CardItem>, itemsCount: nat, customer: string)

  /** The card line of one planned item; Err where its item id is a list or a dict (the dict
      look-up raises TypeError). */
  function CardLine(i: Value, taken: map<Value, int>, returned: map<Value, int>): (r: Result<CardItem, string>)
    ensures r.Ok? <==> Hashable(GetOr(i, "item_id", Str("")))
  {
    var id := GetOr(i, "item_id", Str(""));
    if !Hashable(id) then Err("TypeError: unhashable type: '" + TypeName(id) + "'")
    else
      var used := Amount(taken, id);
      Ok(CardItem(id, GetOr(i, "item_name", Str("")), Coerce.ProjectsToInt(GetOrNull(i, "quantity"), 0),
                  used, Amount(returned, id), used > 0))
  }

  /** The card lines of the planned items, in order. */
  function CardLines(items: seq<Value>, taken: map<Value, int>, returned: map<Value, int>): (r: Result<seq<CardItem>, string>)
    ensures r.Ok? ==> |r.value| == |items|
                      && forall k :: 0 <= k < |items| ==> CardLine(items[k], taken, returned) == Ok(r.value[k])
    ensures r.Err? ==> exists k :: 0 <= k < |items| && CardLine(items[k], taken, returned).Err?
  {
    if |items| == 0 then Ok([])
    else
      match CardLine(items[0], taken, returned)
      case Err(e) => Err(e)
      case Ok(c) =>
        match CardLines(items[1..], taken, returned)
        case Err(e) => Err(e)
        case Ok(cs) =>
          assert forall k :: 1 <= k < |items| ==> items[1..][k - 1] == items[k];
          Ok([c] + cs)
  }

  /** The four embedded lists of a project, each through _safe_json_list. */
  datatype Lists = Lists(workers: seq<Value>, items: seq<Value>, taken: seq<Value>, returned: seq<Value>)

  function ReadLists(rec: Sheet.Dict): Lists {
    Lists(Coerce.SafeJsonList(Sheet.Lookup(rec, "workers")), Coerce.SafeJsonList(Sheet.Lookup(rec, "items")),
          Coerce.SafeJsonList(Sheet.Lookup(rec, "taken_by_worker")), Coerce.SafeJsonList(Sheet.Lookup(rec, "returned_by_worker")))
  }

  /** w.get("name") or w.get("username"). */
  function WorkerLabel(w: Value): Value {
    if Truthy(GetOrNull(w, "name")) then GetOrNull(w, "name") else GetOrNull(w, "username")
  }

  /** project.get("customer_name") or project.get("project_address") or "". */
  function Customer(rec: Sheet.Dict): string {
    var c := Sheet.Lookup(rec, "customer_name");
    var a := Sheet.Lookup(rec, "project_address");
    if c.Some? && c.value != "" then c.value else if a.Some? && a.value != "" then a.value else ""
  }

  /** The card of a shown project with the given status. */
  function BuildCard(rec: Sheet.Dict, ls: Lists, status: string): (r: Result<Card, string>)
    ensures r.Ok? ==> r.value.status == status && r.value.itemsCount == |ls.items| == |r.value.items|
  {
    match Sums(ls.taken)
    case Err(e) => Err(e)
    case Ok(tk) =>
      match Sums(ls.returned)
      case Err(e) => Err(e)
      case Ok(rt) =>
        match CardLines(ls.items, tk, rt)
        case Err(e) => Err(e)
        case Ok(lines) =>
          Ok(Card(Sheet.GetOr(rec, "project_number", "N/A"), Text.PyStrip(Sheet.GetOr(rec, "created_by", "")),
                  Sheet.GetOr(rec, "start_date", ""), Sheet.GetOr(rec, "end_date", ""), status,
                  seq(|ls.workers|, k requires 0 <= k < |ls.workers| => WorkerLabel(ls.workers[k])),
                  lines, |ls.items|, Customer(rec)))
  }

  /** Every line of a built card carries the reference sums of its item: taken and returned
      quantities are the totals over the project's lists, and is_taken holds exactly when
      something was taken. */
  lemma CardTotals(rec: Sheet.Dict, ls: Lists, status: string, k: nat)
    requires BuildCard(rec, ls, status).Ok? && k < |ls.items|
    ensures var c := BuildCard(rec, ls, status).value.items[k];
            var id := GetOr(ls.items[k], "item_id", Str(""));
            c.itemId == id && c.used == Total(ls.taken, id) && c.returned == Total(ls.returned, id)
            && (c.isTaken <==> Total(ls.taken, id) > 0)
            && c.projected == Coerce.ProjectsToInt(GetOrNull(ls.items[k], "quantity"), 0)
  {
    var id := GetOr(ls.items[k], "item_id", Str(""));
    SumsAreTotals(ls.taken, id);
    SumsAreTotals(ls.returned, id);
  }

  // ---------------------------------------------------------------- the two listings

  /** What one row contributes: Ok(Some(card)), Ok(None) where the row is filtered out, Err
      where reading it raises (the row is skipped). */
  type Entry = Result<Option<Card>, string>

  function CreatedBy(rec: Sheet.Dict): string { Text.PyStrip(Sheet.GetOr(rec, "created_by", "")) }

  /** The filter both listings apply to a row: a visibility check that may raise, then the
      listing's own condition, then the card, which may raise. */
  function Gate(visible: Result<bool, string>, keep: bool, card: Result<Card, string>): (e: Entry)
    ensures e.Ok? && e.value.Some? <==> visible == Ok(true) && keep && card.Ok?
    ensures e.Ok? && e.value.Some? ==> e.value.value == card.value
    ensures e.Err? <==> visible.Err? || (visible == Ok(true) && keep && card.Err?)
  {
    match visible
    case Err(e) => Err(e)
    case Ok(false) => Ok(None)
    case Ok(true) =>
      if !keep then Ok(None)
      else
        match card
        case Err(e) => Err(e)
        case Ok(c) => Ok(Some(c))
  }

  /** A row of the active listing (/projects). parse reads a "%Y-%m-%d" date as a day number. */
  function ActiveEntry(headers: Sheet.Row, row: Sheet.Row, s: Session, today: int, parse: string -> Option<int>): Entry {
    var rec := Sheet.Zip(headers, row);
    var ls := ReadLists(rec);
    var st := DerivedStatus(StoredStatus(Sheet.Lookup(rec, "status")),
                            parse(Sheet.GetOr(rec, "start_date", "")), parse(Sheet.GetOr(rec, "end_date", "")), today);
    Gate(Visible(CreatedBy(rec), ls.workers, MeIds(s)), st != "finished", BuildCard(rec, ls, st))
  }

  /** (project.get("status") or "").strip().lower() == "finished". */
  predicate StoredFinished(rec: Sheet.Dict) {
    Text.Lower(Text.PyStrip(Sheet.GetOr(rec, "status", ""))) == "finished"
  }

  /** A row of the finished listing (/projects/finished). */
  function FinishedEntry(headers: Sheet.Row, row: Sheet.Row, s: Session): Entry {
    var rec := Sheet.Zip(headers, row);
    var ls := ReadLists(rec);
    Gate(Visible(CreatedBy(rec), ls.workers, MeIds(s)), StoredFinished(rec), BuildCard(rec, ls, "finished"))
  }

  /** A card of the active listing belongs to a visible project whose shown status is the
      derived status and not "finished"; a visible project whose derived status is not
      "finished" and whose lists read without error gets a card. */
  lemma ActiveEntrySpec(headers: Sheet.Row, row: Sheet.Row, s: Session, today: int, parse: string -> Option<int>)
    ensures var rec := Sheet.Zip(headers, row);
            var st := DerivedStatus(StoredStatus(Sheet.Lookup(rec, "status")),
                                    parse(Sheet.GetOr(rec, "start_date", "")), parse(Sheet.GetOr(rec, "end_date", "")), today);
            var e := ActiveEntry(headers, row, s, today, parse);
            (e.Ok? && e.value.Some? <==>
               Visible(CreatedBy(rec), ReadLists(rec).workers, MeIds(s)) == Ok(true) && st != "finished"
               && BuildCard(rec, ReadLists(rec), st).Ok?)
            && (e.Ok? && e.value.Some? ==> e.value.value == BuildCard(rec, ReadLists(rec), st).value)
  {}

  /** A card of the finished listing belongs to a visible project whose stored status reads
      "finished", and every such project whose lists read without error gets one. */
  lemma FinishedEntrySpec(headers: Sheet.Row, row: Sheet.Row, s: Session)
    ensures var rec := Sheet.Zip(headers, row);
            var e := FinishedEntry(headers, row, s);
            (e.Ok? && e.value.Some? <==>
               Visible(CreatedBy(rec), ReadLists(rec).workers, MeIds(s)) == Ok(true) && StoredFinished(rec)
               && BuildCard(rec, ReadLists(rec), "finished").Ok?)
            && (e.Ok? && e.value.Some? ==>
                  e.value.value == BuildCard(rec, ReadLists(rec), "finished").value && e.value.value.status == "finished")
  {}

  /** The cards of the rows that produced one, in row order. */
  function Shown(es: seq<Entry>): (cs: seq<Card>)
    ensures |cs| <= |es|
  {
    if |es| == 0 then []
    else (if es[0].Ok? && es[0].value.Some? then [es[0].value.value] else []) + Shown(es[1..])
  }

  lemma {:induction false} ShownIff(es: seq<Entry>, c: Card)
    ensures c in Shown(es) <==> exists k :: 0 <= k < |es| && es[k] == Ok(Some(c))
  {
    if |es| > 0 {
      ShownIff(es[1..], c);
      assert forall k :: 1 <= k < |es| ==> es[1..][k - 1] == es[k];
      if c in Shown(es[1..]) {
        var k :| 0 <= k < |es[1..]| && es[1..][k] == Ok(Some(c));
        assert es[k + 1] == Ok(Some(c));
      }
    }
  }

  /** A row that produced a card. */
  predicate Produced(e: Entry) {
    e.Ok? && e.value.Some?
  }

  /** A card as the entry that produced it. */
  function AsEntry(c: Card): Entry {
    Ok(Some(c))
  }

  /** The cards are those of the rows that produced one, in row order and nothing else. */
  lemma {:induction false} ShownInOrder(es: seq<Entry>)
    ensures Seqs.Map(Shown(es), AsEntry) == Seqs.Filter(es, Produced)
  {
    if |es| > 0 {
      ShownInOrder(es[1..]);
      var rest := Shown(es[1..]);
      if Produced(es[0]) {
        var xs := [es[0].value.value] + rest;
        assert Seqs.Map(xs, AsEntry) == [es[0]] + Seqs.Map(rest, AsEntry) by {
          assert forall k :: 1 <= k < |xs| ==> xs[k] == rest[k - 1];
          assert AsEntry(xs[0]) == es[0];
        }
      }
    }
  }

  /** parse_date(start_date) for the ascending sort: an unreadable date sorts last. */
  function StartKey(parse: string -> Option<int>, c: Card): seq<int> {
    match parse(c.startDate)
    case Some(d) => [0, d]
    case None => [1]
  }

  /** The day number of 0001-01-01, the date of datetime.min: parsed dates are counted as
      date.toordinal() counts them, so no parsed date comes before it. */
  const MinDay := 1

  /** parse_date(end_date) for the descending sort: an unreadable date reads as
      datetime.min, the same instant as a parsed 0001-01-01. */
  function EndKey(parse: string -> Option<int>, c: Card): seq<int> {
    match parse(c.endDate)
    case Some(d) => [d]
    case None => [MinDay]
  }

  /** An unreadable end date ties with a parsed 0001-01-01 and comes after every later
      date in the descending order. */
  lemma UnreadableEndIsMinimum(parse: string -> Option<int>, a: Card, b: Card)
    requires parse(a.endDate).None?
    ensures parse(b.endDate) == Some(MinDay) ==> EndKey(parse, a) == EndKey(parse, b)
    ensures parse(b.endDate).Some? && parse(b.endDate).value > MinDay ==>
              Order.Before(EndKey(parse, b), EndKey(parse, a), true)
  {
  }

  function StartOrder(parse: string -> Option<int>): Card -> seq<int> { c => StartKey(parse, c) }

  function EndOrder(parse: string -> Option<int>): Card -> seq<int> { c => EndKey(parse, c) }

  /** What each data row contributes under a row reader, in row order. */
  function Entries(t: Sheet.Table, read: Sheet.Row -> Entry): (es: seq<Entry>)
    requires |t| >= 1
    ensures |es| == |t| - 1
    ensures forall k :: 0 <= k < |t| - 1 ==> es[k] == read(t[k + 1])
  {
    seq(|t| - 1, k requires 0 <= k < |t| - 1 => read(t[k + 1]))
  }

  /** The active listing's row reader. */
  function ActiveReader(headers: Sheet.Row, s: Session, today: int, parse: string -> Option<int>): Sheet.Row -> Entry {
    row => ActiveEntry(headers, row, s, today, parse)
  }

  /** The finished listing's row reader. */
  function FinishedReader(headers: Sheet.Row, s: Session): Sheet.Row -> Entry {
    row => FinishedEntry(headers, row, s)
  }

  /** projects(): the visible, not finished projects, sorted by start date (stable). */
  function ProjectsView(t: Sheet.Table, s: Session, today: int, parse: string -> Option<int>): (cs: seq<Card>)
    ensures |t| < 2 ==> cs == []
  {
    if |t| < 2 then []
    else Order.SortBy(Shown(Entries(t, ActiveReader(t[0], s, today, parse))), StartOrder(parse), false)
  }

  /** projects_finished(): the visible finished projects, latest end date first (stable). */
  function FinishedView(t: Sheet.Table, s: Session, parse: string -> Option<int>): (cs: seq<Card>)
    ensures |t| < 2 ==> cs == []
  {
    if |t| < 2 then []
    else Order.SortBy(Shown(Entries(t, FinishedReader(t[0], s))), EndOrder(parse), true)
  }

  /** A listing sorted from the entries holds exactly the cards the entries produced, and
      is in order. */
  lemma ListingSpec(es: seq<Entry>, key: Card -> seq<int>, descending: bool, c: Card)
    ensures c in Order.SortBy(Shown(es), key, descending) <==> exists k :: 0 <= k < |es| && es[k] == Ok(Some(c))
    ensures Order.Sorted(Order.SortBy(Shown(es), key, descending), key, descending)
    ensures multiset(Order.SortBy(Shown(es), key, descending)) == multiset(Shown(es))
  {
    ShownIff(es, c);
    var sorted := Order.SortBy(Shown(es), key, descending);
    assert multiset(sorted) == multiset(Shown(es));
    assert c in sorted <==> c in multiset(Shown(es));
    Order.SortSorted(Shown(es), key, descending);
  }

  /** The active listing holds exactly the cards the data rows produce (each of a visible
      project whose shown status is not "finished"), ordered by start date. */
  lemma ProjectsViewSpec(t: Sheet.Table, s: Session, today: int, parse: string -> Option<int>, c: Card)
    requires |t| >= 2
    ensures c in ProjectsView(t, s, today, parse) <==> exists k :: 0 <= k < |t| - 1 && Entries(t, ActiveReader(t[0], s, today, parse))[k] == Ok(Some(c))
    ensures Order.Sorted(ProjectsView(t, s, today, parse), StartOrder(parse), false)
    ensures multiset(ProjectsView(t, s, today, parse)) == multiset(Shown(Entries(t, ActiveReader(t[0], s, today, parse))))
  {
    var es := Entries(t, ActiveReader(t[0], s, today, parse));
    ListingSpec(es, StartOrder(parse), false, c);
  }

  /** The finished listing holds exactly the cards of visible projects whose stored status
      reads "finished", latest end date first. */
  lemma FinishedViewSpec(t: Sheet.Table, s: Session, parse: string -> Option<int>, c: Card)
    requires |t| >= 2
    ensures c in FinishedView(t, s, parse) <==> exists k :: 0 <= k < |t| - 1 && Entries(t, FinishedReader(t[0], s))[k] == Ok(Some(c))
    ensures Order.Sorted(FinishedView(t, s, parse), EndOrder(parse), true)
    ensures multiset(FinishedView(t, s, parse)) == multiset(Shown(Entries(t, FinishedReader(t[0], s))))
  {
    var es := Entries(t, FinishedReader(t[0], s));
    ListingSpec(es, EndOrder(parse), true, c);
  }

  /** Cards with the same end key, among them the unreadable dates and 0001-01-01, keep
      their row order on the finished page. */
  lemma FinishedTiesKeepRowOrder(t: Sheet.Table, s: Session, parse: string -> Option<int>, k: seq<int>)
    requires |t| >= 2
    ensures Order.WithKey(FinishedView(t, s, parse), EndOrder(parse), k)
            == Order.WithKey(Shown(Entries(t, FinishedReader(t[0], s))), EndOrder(parse), k)
  {
    Order.SortStable(Shown(Entries(t, FinishedReader(t[0], s))), EndOrder(parse), true, k);
  }

  // ---------------------------------------------------------------- update_project_item

  /** The fields update_project_item reads from its JSON body. */
  datatype ItemRequest = ItemRequest(projectNumber: Value, itemId: Value, quantity: Value, delete: bool, add: bool, itemName: Value)

  function ReadItemRequest(data: Value): ItemRequest
    requires data.Obj?
  {
    ItemRequest(GetOrNull(data, "project_number"), GetOrNull(data, "item_id"), GetOrNull(data, "quantity"),
                Truthy(GetOr(data, "delete", Bool(false))), Truthy(GetOrNull(data, "add")),
                GetOr(data, "item_name", Str("")))
  }

  /** project.get("project_number") == project_number, the record built with dict(zip()). */
  predicate IsProject(headers: Sheet.Row, row: Sheet.Row, pn: Value) {
    var v := Sheet.Lookup(Sheet.Zip(headers, row), "project_number");
    v.Some? && pn == Str(v.value)
  }

  /** The first data row at or after k that is the project. */
  function FindProject(t: Sheet.Table, k: nat, pn: Value): (r: Option<nat>)
    ensures r.Some? ==> k <= r.value < |t| && IsProject(t[0], t[r.value], pn)
                        && forall j :: k <= j < r.value ==> !IsProject(t[0], t[j], pn)
    ensures r.None? <==> forall j :: k <= j < |t| ==> !IsProject(t[0], t[j], pn)
    decreases |t| - k
  {
    if k >= |t| then None
    else if IsProject(t[0], t[k], pn) then Some(k)
    else FindProject(t, k + 1, pn)
  }

  /** The text of the exception int(v) raises. */
  function IntError(v: Value): string {
    if v.Str? then "invalid literal for int() with base 10: '" + v.s + "'"
    else "int() argument must be a string, a bytes-like object or a real number, not '" + TypeName(v) + "'"
  }

  predicate AllDicts(items: seq<Value>) { forall i :: 0 <= i < |items| ==> items[i].Obj? }

  /** Keeping the dicts of a list of dicts keeps all of it. */
  lemma {:induction false} OnlyDictsOfDicts(items: seq<Value>)
    requires AllDicts(items)
    ensures Coerce.OnlyDicts(items) == items
  {
    if |items| > 0 { OnlyDictsOfDicts(items[1..]); }
  }

  /** json.loads(project.get("items", "[]")) with its dict elements kept: Err for malformed
      text (JSONDecodeError) and for a number, bool or null (TypeError: not iterable); a dict
      or a string iterates to non-dicts and leaves no line. */
  function ItemsOf(headers: Sheet.Row, row: Sheet.Row): (r: Result<seq<Value>, string>)
    ensures r.Ok? ==> AllDicts(r.value)
  {
    match JsonCodec.Decode(Sheet.GetOr(Sheet.Zip(headers, row), "items", "[]"))
    case None => Err("JSONDecodeError")
    case Some(v) =>
      match Iterate(v)
      case None => Err("'" + TypeName(v) + "' object is not iterable")
      case Some(xs) => Ok(Coerce.OnlyDicts(xs))
  }

  /** The line the add flag appends. */
  function NewLine(req: ItemRequest, n: int): (v: Value)
    ensures v.Obj? && EntryId(v) == req.itemId && Get(v, "quantity") == Some(Num(n))
  {
    var fs := [("item_id", req.itemId), ("item_name", req.itemName), ("quantity", Num(n))];
    GetStep(fs, "item_id");
    GetStep(fs[..2], "item_id");
    GetStep(fs[..2][..1], "item_id");
    GetStep(fs, "quantity");
    Obj([("item_id", req.itemId), ("item_name", req.itemName), ("quantity", Num(n))])
  }

  /** The edit loop as written, from position k over the list as it stands: the first line
      whose item_id equals the request's is popped (delete) or given quantity int(quantity);
      while nothing is updated, the add flag appends a new line after each line that does not
      match, and the loop goes on over the grown list. Returns the list and `updated`. */
  function EditLines(items: seq<Value>, k: nat, updated: bool, req: ItemRequest): (r: Result<(seq<Value>, bool), string>)
    requires AllDicts(items)
    ensures r.Ok? ==> AllDicts(r.value.0)
    ensures r.Ok? && !updated && !r.value.1 ==> r.value.0 == items
    ensures r.Ok? && updated ==> r.value.1
    decreases |items| + (if updated then 0 else 1) - k
  {
    if k >= |items| then Ok((items, updated))
    else if EntryId(items[k]) == req.itemId then
      if req.delete then Ok((items[..k] + items[k + 1..], true))
      else
        match Coerce.PyInt(req.quantity)
        case None => Err(IntError(req.quantity))
        case Some(n) => Ok((items[k := Set(items[k], "quantity", Num(n))], true))
    else if !updated && req.add then
      match Coerce.PyInt(req.quantity)
      case None => Err(IntError(req.quantity))
      case Some(n) => EditLines(items + [NewLine(req, n)], k + 1, true, req)
    else EditLines(items, k + 1, updated, req)
  }

  /** The item ids of the lines, in order. */
  function Ids(items: seq<Value>): (ids: seq<Value>)
    ensures |ids| == |items| && forall i :: 0 <= i < |items| ==> ids[i] == EntryId(items[i])
  {
    seq(|items|, i requires 0 <= i < |items| => EntryId(items[i]))
  }

  /** The point edit: at the first line with the item id, remove the line (delete) or set
      its quantity to int(quantity); nothing is updated when no line has the id. */
  function PointEdit(items: seq<Value>, req: ItemRequest): (r: Result<(seq<Value>, bool), string>)
    requires AllDicts(items)
    ensures r.Ok? ==> AllDicts(r.value.0) && |r.value.0| <= |items|
  {
    match Sheet.IndexOf(Ids(items), req.itemId)
    case None => Ok((items, false))
    case Some(m) =>
      if req.delete then Ok((items[..m] + items[m + 1..], true))
      else
        match Coerce.PyInt(req.quantity)
        case None => Err(IntError(req.quantity))
        case Some(n) => Ok((items[m := Set(items[m], "quantity", Num(n))], true))
  }

  lemma {:induction false} EditNoAddFrom(items: seq<Value>, k: nat, req: ItemRequest)
    requires AllDicts(items) && !req.add && k <= |items|
    requires forall j :: 0 <= j < k ==> EntryId(items[j]) != req.itemId
    ensures EditLines(items, k, false, req) == PointEdit(items, req)
    decreases |items| - k
  {
    var ids := Ids(items);
    if k == |items| {
      assert req.itemId !in ids;
    } else if EntryId(items[k]) == req.itemId {
      assert Sheet.IndexOf(ids, req.itemId) == Some(k) by {
        assert ids[k] == req.itemId;
      }
    } else {
      EditNoAddFrom(items, k + 1, req);
    }
  }

  /** Without the add flag the loop is the point edit: the first line with the item id is
      removed or re-quantified and every other line is kept; no line with the id means no
      update and the list unchanged. */
  lemma EditWithoutAdd(items: seq<Value>, req: ItemRequest)
    requires AllDicts(items) && !req.add
    ensures EditLines(items, 0, false, req) == PointEdit(items, req)
    ensures PointEdit(items, req).Ok? && PointEdit(items, req).value.1 ==>
              exists m :: 0 <= m < |items| && EntryId(items[m]) == req.itemId
                          && (forall j :: 0 <= j < m ==> EntryId(items[j]) != req.itemId)
                          && PointEdit(items, req).value.0
                             == if req.delete then items[..m] + items[m + 1..]
                                else items[m := Set(items[m], "quantity", Num(Coerce.PyInt(req.quantity).value))]
    ensures PointEdit(items, req) == Ok((items, false)) <==> forall j :: 0 <= j < |items| ==> EntryId(items[j]) != req.itemId
  {
    EditNoAddFrom(items, 0, req);
    var ids := Ids(items);
    match Sheet.IndexOf(ids, req.itemId)
    case None =>
    case Some(m) =>
      assert EntryId(items[m]) == req.itemId;
  }

  /** An empty list is never updated, with or without the add flag. */
  lemma EmptyListNeverUpdated(req: ItemRequest)
    ensures EditLines([], 0, false, req) == Ok(([], false))
  {}

  lemma {:induction false} AddFrom(items: seq<Value>, k: nat, req: ItemRequest, n: int)
    requires AllDicts(items) && req.add && !req.delete && Coerce.PyInt(req.quantity) == Some(n)
    requires 0 < |items| && k <= |items| - 1
    requires forall j :: 0 <= j < |items| - 1 ==> EntryId(items[j]) != req.itemId
    requires items[|items| - 1] == NewLine(req, n)
    ensures EditLines(items, k, true, req) == Ok((items, true))
    decreases |items| - k
  {
    if k < |items| - 1 {
      AddFrom(items, k + 1, req, n);
    } else {
      var line := items[k];
      assert line.fields == [("item_id", req.itemId), ("item_name", req.itemName), ("quantity", Num(n))];
      assert Get(line, "quantity") == Some(Num(n));
      assert ReplaceAll(line.fields, "quantity", Num(n)) == line.fields;
      assert Set(line, "quantity", Num(n)) == line;
      assert items[k := line] == items;
    }
  }

  /** With the add flag and no line holding the id, a non-empty list gains exactly one new
      line at its end (the loop sets the same quantity on it once more when it reaches it). */
  lemma AddWhenAbsent(items: seq<Value>, req: ItemRequest, n: int)
    requires AllDicts(items) && 0 < |items| && req.add && !req.delete && Coerce.PyInt(req.quantity) == Some(n)
    requires forall j :: 0 <= j < |items| ==> EntryId(items[j]) != req.itemId
    ensures EditLines(items, 0, false, req) == Ok((items + [NewLine(req, n)], true))
  {
    var grown := items + [NewLine(req, n)];
    assert forall j :: 0 <= j < |grown| - 1 ==> grown[j] == items[j];
    AddFrom(grown, 1, req, n);
  }

  /** The loop as written with the add flag duplicates a line that is not the first: lines
      a and b, a request for b with quantity 5 gives a, b with quantity 5, and a new b line. */
  lemma AddDuplicatesLine()
    ensures var a := Obj([("item_id", Str("a"))]);
            var b := Obj([("item_id", Str("b")), ("quantity", Num(1))]);
            var req := ItemRequest(Str("p1"), Str("b"), Num(5), false, true, Str("Bolt"));
            var r := EditLines([a, b], 0, false, req);
            r.Ok? && r.value.1 && |r.value.0| == 3
            && EntryId(r.value.0[1]) == Str("b") && EntryId(r.value.0[2]) == Str("b")
  {
    var a := Obj([("item_id", Str("a"))]);
    var b := Obj([("item_id", Str("b")), ("quantity", Num(1))]);
    var req := ItemRequest(Str("p1"), Str("b"), Num(5), false, true, Str("Bolt"));
    assert EntryId(a) == Str("a");
    assert EntryId(b) == Str("b");
    var grown := [a, b, NewLine(req, 5)];
    assert [a, b] + [NewLine(req, 5)] == grown;
    assert EntryId(grown[2]) == Str("b");
    var b5 := Set(b, "quantity", Num(5));
    GetSet(b, "quantity", Num(5), "item_id");
    assert EditLines(grown, 1, true, req) == Ok((grown[1 := b5], true));
  }

  /** The corrected edit: when a line has the id it is edited as without the add flag, and
      only a list with no such line can grow by the add flag. */
  function FixedEdit(items: seq<Value>, req: ItemRequest): (r: Result<(seq<Value>, bool), string>)
    requires AllDicts(items)
    ensures r.Ok? ==> AllDicts(r.value.0)
  {
    if req.itemId in Ids(items) then PointEdit(items, req) else EditLines(items, 0, false, req)
  }

  /** The corrected edit never adds a line for an id the list already holds, and otherwise
      behaves as written; without the add flag it is the point edit. */
  lemma FixedEditSpec(items: seq<Value>, req: ItemRequest)
    requires AllDicts(items)
    ensures req.itemId in Ids(items) && FixedEdit(items, req).Ok? ==> |FixedEdit(items, req).value.0| <= |items|
    ensures req.itemId !in Ids(items) ==> FixedEdit(items, req) == EditLines(items, 0, false, req)
    ensures !req.add ==> FixedEdit(items, req) == EditLines(items, 0, false, req)
  {
    if !req.add { EditWithoutAdd(items, req); }
  }

  /** The edit the handler applies: the loop as written, or the corrected one. */
  function Edit(items: seq<Value>, req: ItemRequest, fixed: bool): (r: Result<(seq<Value>, bool), string>)
    requires AllDicts(items)
  {
    if fixed then FixedEdit(items, req) else EditLines(items, 0, false, req)
  }

  /** What the handler settles on before writing: the sheet row, the items column and the new
      lines, or the error answer. */
  function ItemPlan(t: Sheet.Table, req: ItemRequest, fixed: bool): (r: Result<(nat, nat, seq<Value>), Http.Response>)
    requires |t| >= 2
    ensures r.Ok? ==> FindProject(t, 1, req.projectNumber) == Some(r.value.0)
                      && Sheet.IndexOf(t[0], "items") == Some(r.value.1) && r.value.1 < |t[r.value.0]|
                      && ItemsOf(t[0], t[r.value.0]).Ok?
                      && Edit(ItemsOf(t[0], t[r.value.0]).value, req, fixed) == Ok((r.value.2, true))
    ensures r.Err? ==> r.error.status == 404 || r.error.status == 500
    ensures r.Err? && FindProject(t, 1, req.projectNumber).None? ==> r.error == Http.Error(404, "Project not found")
  {
    match FindProject(t, 1, req.projectNumber)
    case None => Err(Http.Error(404, "Project not found"))
    case Some(k) =>
      match ItemsOf(t[0], t[k])
      case Err(e) => Err(Http.Error(500, e))
      case Ok(items) =>
        match Edit(items, req, fixed)
        case Err(e) => Err(Http.Error(500, e))
        case Ok((lines, updated)) =>
          if !updated then Err(Http.Error(404, "Item not found in project"))
          else
            match Sheet.IndexOf(t[0], "items")
            case None => Err(Http.Error(500, "'items' is not in list"))
            case Some(col) =>
              if col >= |t[k]| then Err(Http.Error(500, "list assignment index out of range"))
              else Ok((k, col, lines))
  }

  /** update_project_item, with the edit as written (fixed false) or corrected (fixed true):
      manager only; project_number and item_id must be truthy; the first row of the project
      gets its items cell replaced by json.dumps of the edited lines. */
  function UpdateProjectItemWith(isManager: bool, data: Value, t: Sheet.Table, fixed: bool): (r: (Http.Response, Sheet.Table))
    ensures r.0.status != 200 ==> r.1 == t
    ensures r.0.status == 403 <==> !isManager
    ensures isManager && data.Obj? && (!Truthy(GetOrNull(data, "project_number")) || !Truthy(GetOrNull(data, "item_id")))
            ==> r.0 == Http.Error(400, "Missing data")
  {
    if !isManager then (Http.Error(403, "Unauthorized"), t)
    else if !data.Obj? then (Http.Crash(), t)
    else
      var req := ReadItemRequest(data);
      if !Truthy(req.projectNumber) || !Truthy(req.itemId) then (Http.Error(400, "Missing data"), t)
      else if |t| < 2 then (Http.Error(404, "No project data"), t)
      else
        match ItemPlan(t, req, fixed)
        case Err(resp) => (resp, t)
        case Ok((k, col, lines)) =>
          (Http.Response(200, Obj([("success", Bool(true))])),
           Sheet.UpdateRow(t, k + 1, t[k][col := JsonCodec.Encode(Arr(lines), true)]))
  }

  function UpdateProjectItem(isManager: bool, data: Value, t: Sheet.Table): (Http.Response, Sheet.Table) {
    UpdateProjectItemWith(isManager, data, t, false)
  }

  function UpdateProjectItemFixed(isManager: bool, data: Value, t: Sheet.Table): (Http.Response, Sheet.Table) {
    UpdateProjectItemWith(isManager, data, t, true)
  }

  /** A successful edit rewrites one cell: the items cell of the project's first row, and the
      page reads back exactly the edited lines from it; every other row and cell is kept. */
  lemma ItemEditWrites(isManager: bool, data: Value, t: Sheet.Table, fixed: bool)
    requires UpdateProjectItemWith(isManager, data, t, fixed).0.status == 200
    ensures isManager && data.Obj? && |t| >= 2 && ItemPlan(t, ReadItemRequest(data), fixed).Ok?
    ensures var p := ItemPlan(t, ReadItemRequest(data), fixed).value;
            var t2 := UpdateProjectItemWith(isManager, data, t, fixed).1;
            var k := p.0; var col := p.1;
            |t2| == |t| && (forall i :: 0 <= i < |t| && i != k ==> t2[i] == t[i])
            && |t2[k]| == |t[k]| && (forall j :: 0 <= j < |t[k]| && j != col ==> t2[k][j] == t[k][j])
            && Coerce.SafeJsonList(Some(t2[k][col])) == p.2
  {
    var p := ItemPlan(t, ReadItemRequest(data), fixed).value;
    ItemsOfDicts(t, ReadItemRequest(data), fixed);
    Coerce.SafeJsonListOfEncoded(p.2, true);
    OnlyDictsOfDicts(p.2);
  }

  lemma ItemsOfDicts(t: Sheet.Table, req: ItemRequest, fixed: bool)
    requires |t| >= 2 && ItemPlan(t, req, fixed).Ok?
    ensures AllDicts(ItemPlan(t, req, fixed).value.2)
  {
    var p := ItemPlan(t, req, fixed).value;
    var items := ItemsOf(t[0], t[p.0]).value;
    if !fixed {
      assert EditLines(items, 0, false, req) == Ok((p.2, true));
    }
  }

  /** Without the add flag the written lines are the point edit of the stored lines. */
  lemma ItemEditIsPointEdit(t: Sheet.Table, req: ItemRequest, fixed: bool)
    requires |t| >= 2 && !req.add && ItemPlan(t, req, fixed).Ok?
    ensures var p := ItemPlan(t, req, fixed).value;
            PointEdit(ItemsOf(t[0], t[p.0]).value, req) == Ok((p.2, true))
  {
    var p := ItemPlan(t, req, fixed).value;
    var items := ItemsOf(t[0], t[p.0]).value;
    EditWithoutAdd(items, req);
    FixedEditSpec(items, req);
  }

  /** A project whose stored lines are empty or absent is answered 404 with no write, with or
      without the add flag. */
  lemma EmptyItemsNotFound(isManager: bool, data: Value, t: Sheet.Table)
    requires isManager && data.Obj? && |t| >= 2
    requires Truthy(GetOrNull(data, "project_number")) && Truthy(GetOrNull(data, "item_id"))
    requires var k := FindProject(t, 1, GetOrNull(data, "project_number"));
             k.Some? && ItemsOf(t[0], t[k.value]) == Ok([])
    ensures UpdateProjectItem(isManager, data, t) == (Http.Error(404, "Item not found in project"), t)
  {
    EmptyListNeverUpdated(ReadItemRequest(data));
  }

  /** Without the add flag, a found project none of whose lines has the item id is answered
      404 with no write, as written and corrected alike. */
  lemma MissingItemNotFound(isManager: bool, data: Value, t: Sheet.Table, fixed: bool)
    requires isManager && data.Obj? && |t| >= 2
    requires Truthy(GetOrNull(data, "project_number")) && Truthy(GetOrNull(data, "item_id"))
    requires !Truthy(GetOrNull(data, "add"))
    requires var k := FindProject(t, 1, GetOrNull(data, "project_number"));
             k.Some? && ItemsOf(t[0], t[k.value]).Ok?
             && forall j :: 0 <= j < |ItemsOf(t[0], t[k.value]).value| ==>
                  EntryId(ItemsOf(t[0], t[k.value]).value[j]) != GetOrNull(data, "item_id")
    ensures UpdateProjectItemWith(isManager, data, t, fixed) == (Http.Error(404, "Item not found in project"), t)
  {
    var req := ReadItemRequest(data);
    var k := FindProject(t, 1, req.projectNumber).value;
    var items := ItemsOf(t[0], t[k]).value;
    EditWithoutAdd(items, req);
    FixedEditSpec(items, req);
    assert Edit(items, req, fixed) == Ok((items, false));
  }

  // ---------------------------------------------------------------- projects_update_status

  /** {"ok": False, "error": message}. */
  function StatusError(status: nat, message: string): Http.Response {
    Http.Response(status, Obj([("ok", Bool(false)), ("error", Str(message))]))
  }

  /** The first data row at or after k whose project-number cell exists and equals pn. */
  function FindNumbered(t: Sheet.Table, k: nat, pnIdx: nat, pn: string): (r: Option<nat>)
    ensures r.Some? ==> k <= r.value < |t| && pnIdx < |t[r.value]| && t[r.value][pnIdx] == pn
                        && forall j :: k <= j < r.value ==> !(pnIdx < |t[j]| && t[j][pnIdx] == pn)
    ensures r.None? <==> forall j :: k <= j < |t| ==> !(pnIdx < |t[j]| && t[j][pnIdx] == pn)
    decreases |t| - k
  {
    if k >= |t| then None
    else if pnIdx < |t[k]| && t[k][pnIdx] == pn then Some(k)
    else FindNumbered(t, k + 1, pnIdx, pn)
  }

  /** The requested status, (payload.get("status") or "").strip().lower(); Err where the
      handler crashes (a truthy payload that is not a dict, a truthy status that is not text). */
  function RequestedStatus(payload: Value): (r: Result<string, string>)
  {
    var p := if Truthy(payload) then payload else Obj([]);
    if !p.Obj? then Err("AttributeError")
    else
      match TextOr(Get(p, "status"))
      case Err(e) => Err(e)
      case Ok(s) => Ok(Text.Lower(Text.PyStrip(s)))
  }

  /** The row the status update writes: padded to the header length, the status cell set. */
  function StatusRow(row: Sheet.Row, width: nat, statusIdx: nat, status: string): (r: Sheet.Row)
    requires statusIdx < width
    ensures |r| == if |row| < width then width else |row|
    ensures r[statusIdx] == status
    ensures forall j :: 0 <= j < |r| && j != statusIdx ==> r[j] == if j < |row| then row[j] else ""
  {
    Sheet.Pad(row, width)[statusIdx := status]
  }

  /** What projects_update_status settles on before writing: the data row, the status
      column and the new status, or the error answer. */
  function StatusPlan(isManager: bool, payload: Value, pn: string, t: Sheet.Table): (r: Result<(nat, nat, string), Http.Response>)
    ensures r.Err? ==> r.error.status != 200
    ensures r.Err? && r.error.status == 403 <==> !isManager
    ensures isManager && RequestedStatus(payload).Ok? && RequestedStatus(payload).value != "finished"
            && RequestedStatus(payload).value != "active"
            ==> r == Err(StatusError(400, "Status must be 'finished' or 'active'."))
    ensures isManager && (RequestedStatus(payload) == Ok("finished") || RequestedStatus(payload) == Ok("active"))
            && |t| >= 2 && Sheet.IndexOf(t[0], "status").Some? && Sheet.IndexOf(t[0], "project_number").Some?
            && FindNumbered(t, 1, Sheet.IndexOf(t[0], "project_number").value, pn).None?
            ==> r == Err(StatusError(404, "Project not found"))
    ensures r.Ok? ==> isManager && RequestedStatus(payload) == Ok(r.value.2) && (r.value.2 == "finished" || r.value.2 == "active")
                      && |t| >= 2 && Sheet.IndexOf(t[0], "status") == Some(r.value.1)
                      && Sheet.IndexOf(t[0], "project_number").Some?
                      && FindNumbered(t, 1, Sheet.IndexOf(t[0], "project_number").value, pn) == Some(r.value.0)
  {
    if !isManager then Err(StatusError(403, "Unauthorized"))
    else
      match RequestedStatus(payload)
      case Err(_) => Err(Http.Crash())
      case Ok(ns) =>
        if ns != "finished" && ns != "active" then Err(StatusError(400, "Status must be 'finished' or 'active'."))
        else if |t| < 2 then Err(StatusError(404, "No project data"))
        else
          match (Sheet.IndexOf(t[0], "status"), Sheet.IndexOf(t[0], "project_number"))
          case (Some(si), Some(pi)) =>
            (match FindNumbered(t, 1, pi, pn)
             case None => Err(StatusError(404, "Project not found"))
             case Some(k) => Ok((k, si, ns)))
          case _ => Err(StatusError(500, "Sheet missing required columns"))
  }

  /** {"ok": True, "project_number": pn, "status": status}, 200. */
  function StatusSet(pn: string, status: string): Http.Response {
    Http.Response(200, Obj([("ok", Bool(true)), ("project_number", Str(pn)), ("status", Str(status))]))
  }

  /** projects_update_status(project_number): manager only; the status must read "finished"
      or "active"; the first data row whose project-number cell equals the number gets the
      status written into its row, padded to the header length. */
  function UpdateStatus(isManager: bool, payload: Value, pn: string, t: Sheet.Table): (r: (Http.Response, Sheet.Table))
    ensures r.0.status != 200 ==> r.1 == t
    ensures r.0.status == 403 <==> !isManager
  {
    match StatusPlan(isManager, payload, pn, t)
    case Err(resp) => (resp, t)
    case Ok((k, si, ns)) =>
      (StatusSet(pn, ns), Sheet.UpdateRow(t, k + 1, StatusRow(t[k], |t[0]|, si, ns)))
  }

  /** A valid status for a number no data row holds is answered 404 with no write. */
  lemma UnknownProjectNotFound(payload: Value, pn: string, t: Sheet.Table)
    requires RequestedStatus(payload) == Ok("finished") || RequestedStatus(payload) == Ok("active")
    requires |t| >= 2 && Sheet.IndexOf(t[0], "status").Some? && Sheet.IndexOf(t[0], "project_number").Some?
    requires forall j :: 1 <= j < |t| ==>
               var pi := Sheet.IndexOf(t[0], "project_number").value;
               !(pi < |t[j]| && t[j][pi] == pn)
    ensures UpdateStatus(true, payload, pn, t) == (StatusError(404, "Project not found"), t)
  {
    var pi := Sheet.IndexOf(t[0], "project_number").value;
    assert FindNumbered(t, 1, pi, pn).None?;
    assert StatusPlan(true, payload, pn, t) == Err(StatusError(404, "Project not found"));
  }

  /** A successful status update writes only the status cell of the first row with the
      number, padded to the header length; the status written is "finished" or "active". */
  lemma StatusWrites(isManager: bool, payload: Value, pn: string, t: Sheet.Table)
    requires UpdateStatus(isManager, payload, pn, t).0.status == 200
    ensures StatusPlan(isManager, payload, pn, t).Ok?
    ensures var p := StatusPlan(isManager, payload, pn, t).value;
            var t2 := UpdateStatus(isManager, payload, pn, t).1;
            (p.2 == "finished" || p.2 == "active") && RequestedStatus(payload) == Ok(p.2)
            && |t2| == |t| && (forall i :: 0 <= i < |t| && i != p.0 ==> t2[i] == t[i])
            && t2[p.0] == StatusRow(t[p.0], |t[0]|, p.1, p.2)
  {}

  /** On the table a status update wrote, the update settles on the same row, column and
      status again. */
  lemma {:induction false} PlanOnWritten(isManager: bool, payload: Value, pn: string, t: Sheet.Table, k: nat, si: nat, ns: string)
    requires StatusPlan(isManager, payload, pn, t) == Ok((k, si, ns))
    ensures k < |t| && si < |t[0]|
    ensures StatusPlan(isManager, payload, pn, t[k := StatusRow(t[k], |t[0]|, si, ns)]) == Ok((k, si, ns))
  {
    var pi := Sheet.IndexOf(t[0], "project_number").value;
    var row := StatusRow(t[k], |t[0]|, si, ns);
    var t2 := t[k := row];
    assert t2[0] == t[0];
    assert pi < |row| && row[pi] == pn;
    assert forall j :: 1 <= j < k ==> t2[j] == t[j];
    FindNumberedAt(t2, 1, pi, pn, k);
  }

  /** The search answers the first matching row. */
  lemma FindNumberedAt(t: Sheet.Table, k: nat, pnIdx: nat, pn: string, m: nat)
    requires k <= m < |t| && pnIdx < |t[m]| && t[m][pnIdx] == pn
    requires forall j :: k <= j < m ==> !(pnIdx < |t[j]| && t[j][pnIdx] == pn)
    ensures FindNumbered(t, k, pnIdx, pn) == Some(m)
  {}

  lemma UpdateStatusApplies(isManager: bool, payload: Value, pn: string, t: Sheet.Table, k: nat, si: nat, ns: string)
    requires StatusPlan(isManager, payload, pn, t) == Ok((k, si, ns))
    ensures k < |t| && si < |t[0]|
    ensures UpdateStatus(isManager, payload, pn, t) == (StatusSet(pn, ns), t[k := StatusRow(t[k], |t[0]|, si, ns)])
  {}

  /** Setting the same status twice is setting it once. */
  lemma StatusIdempotent(isManager: bool, payload: Value, pn: string, t: Sheet.Table)
    requires StatusPlan(isManager, payload, pn, t).Ok?
    ensures var t2 := UpdateStatus(isManager, payload, pn, t).1;
            UpdateStatus(isManager, payload, pn, t2) == UpdateStatus(isManager, payload, pn, t)
  {
    var p := StatusPlan(isManager, payload, pn, t).value;
    var k := p.0;
    var si := p.1;
    var ns := p.2;
    var row := StatusRow(t[k], |t[0]|, si, ns);
    var t2 := t[k := row];
    UpdateStatusApplies(isManager, payload, pn, t, k, si, ns);
    PlanOnWritten(isManager, payload, pn, t, k, si, ns);
    UpdateStatusApplies(isManager, payload, pn, t2, k, si, ns);
    Sheet.PadIdempotent(t[k], |t[0]|);
    assert t2[0] == t[0];
    assert StatusRow(t2[k], |t2[0]|, si, ns) == row;
    assert t2[k := row] == t2;
  }

  /** The finished listing's check on a row whose only "status" cell was set: it reads
      "finished" exactly when "finished" was set. */
  lemma RowReadsStatus(headers: Sheet.Row, row: Sheet.Row, si: nat, ns: string)
    requires si < |headers| && headers[si] == "status"
    requires forall j :: 0 <= j < |headers| && headers[j] == "status" ==> j == si
    requires ns == "finished" || ns == "active"
    ensures StoredFinished(Sheet.Zip(headers, StatusRow(row, |headers|, si, ns))) <==> ns == "finished"
  {
    var rec := Sheet.Zip(headers, StatusRow(row, |headers|, si, ns));
    assert |rec| == |headers| && rec[si] == ("status", ns);
    Sheet.LookupSpec(rec, "status");
    assert Sheet.Lookup(rec, "status") == Some(ns);
    StatusWord(ns);
  }

  /** "finished" and "active" read as themselves after strip() and lower(). */
  lemma StatusWord(ns: string)
    requires ns == "finished" || ns == "active"
    ensures Text.Lower(Text.PyStrip(ns)) == ns
  {
    Text.StripNoop(ns, Text.IsPySpace);
    Text.LowerNoop(ns);
  }

  /** After a status update, the finished listing's check on the project's row reads
      "finished" exactly when the status set was "finished" (when "status" names one column
      only). */
  lemma StatusReadsBack(isManager: bool, payload: Value, pn: string, t: Sheet.Table)
    requires UpdateStatus(isManager, payload, pn, t).0.status == 200
    requires |t| >= 1 && forall j :: 0 <= j < |t[0]| && t[0][j] == "status" ==> Sheet.IndexOf(t[0], "status") == Some(j)
    ensures StatusPlan(isManager, payload, pn, t).Ok?
    ensures var t2 := UpdateStatus(isManager, payload, pn, t).1;
            var k := StatusPlan(isManager, payload, pn, t).value.0;
            StoredFinished(Sheet.Zip(t2[0], t2[k])) <==> RequestedStatus(payload).value == "finished"
  {
    StatusWrites(isManager, payload, pn, t);
    var p := StatusPlan(isManager, payload, pn, t).value;
    RowReadsStatus(t[0], t[p.0], p.1, p.2);
  }
}
