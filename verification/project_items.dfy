/** The project sub-ledger routes of the take and return pages: the listing of a project's
    planned items for a worker assigned to it (joined with catalog details), and the appends
    of what a worker took or returned to the project's taken_by_worker or returned_by_worker
    list. */
module ProjectItems {
  import opened Wrappers
  import opened Json
  import Text
  import Sheet
  import Coerce
  import JsonCodec
  import Http
  import Lists

  // ---------------------------------------------------------------- shared reading

  /** d.get(key, "").strip(): Err (AttributeError) where the value is not text. */
  function GetText(d: Value, key: string): (r: Result<string, string>)
    ensures r.Ok? ==> GetOr(d, key, Str("")).Str?
  {
    var v := GetOr(d, key, Str(""));
    if v.Str? then Ok(Text.PyStrip(v.s)) else Err("AttributeError: '" + TypeName(v) + "' object has no attribute 'strip'")
  }

  /** The project number of a row: project.get("project_number", "").strip(). */
  function NumberOf(headers: Sheet.Row, row: Sheet.Row): string {
    Text.PyStrip(Sheet.GetOr(Sheet.Zip(headers, row), "project_number", ""))
  }

  /** The project number of every row, the header row included. */
  function Numbers(t: Sheet.Table): (ns: seq<string>)
    requires |t| >= 1
    ensures |ns| == |t| && forall i :: 0 <= i < |t| ==> ns[i] == NumberOf(t[0], t[i])
  {
    seq(|t|, i requires 0 <= i < |t| => NumberOf(t[0], t[i]))
  }

  /** The first index at or after k holding pn. */
  function FindFrom(ns: seq<string>, k: nat, pn: string): (r: Option<nat>)
    ensures r.Some? ==> k <= r.value < |ns| && ns[r.value] == pn
                        && forall j :: k <= j < r.value ==> ns[j] != pn
    ensures r.None? <==> forall j :: k <= j < |ns| ==> ns[j] != pn
    decreases |ns| - k
  {
    if k >= |ns| then None else if ns[k] == pn then Some(k) else FindFrom(ns, k + 1, pn)
  }

  /** The first data row whose project number is pn. */
  function FindRow(t: Sheet.Table, pn: string): (r: Option<nat>)
    requires |t| >= 1
    ensures r.Some? ==> 1 <= r.value < |t| && NumberOf(t[0], t[r.value]) == pn
                        && forall j :: 1 <= j < r.value ==> NumberOf(t[0], t[j]) != pn
    ensures r.None? <==> forall j :: 1 <= j < |t| ==> NumberOf(t[0], t[j]) != pn
  {
    FindFrom(Numbers(t), 1, pn)
  }

  /** w.get("name", "").strip().lower(), as the listings read a worker: Err where the worker
      is not a dict or its name is not text. */
  function StrictName(w: Value): (r: Result<string, string>)
    ensures r.Ok? ==> w.Obj?
  {
    if !w.Obj? then Err("AttributeError: '" + TypeName(w) + "' object has no attribute 'get'")
    else
      var v := GetOr(w, "name", Str(""));
      if v.Str? then Ok(Text.Lower(Text.PyStrip(v.s)))
      else Err("AttributeError: '" + TypeName(v) + "' object has no attribute 'strip'")
  }

  /** (w.get("name") or "").strip().lower(), as insert_project_returns reads a worker. */
  function LooseName(w: Value): (r: Result<string, string>)
    ensures r.Ok? ==> w.Obj?
  {
    if !w.Obj? then Err("AttributeError: '" + TypeName(w) + "' object has no attribute 'get'")
    else
      match TextOr(Get(w, "name"))
      case Err(e) => Err(e)
      case Ok(t) => Ok(Text.Lower(Text.PyStrip(t)))
  }

  /** The worker names, in order; Err where one of them raises. */
  function Names(ws: seq<Value>, name: Value -> Result<string, string>): (r: Result<seq<string>, string>)
    ensures r.Ok? ==> |r.value| == |ws| && forall i :: 0 <= i < |ws| ==> name(ws[i]) == Ok(r.value[i])
    ensures r.Err? ==> exists i :: 0 <= i < |ws| && name(ws[i]).Err?
  {
    if |ws| == 0 then Ok([])
    else
      match name(ws[0])
      case Err(e) => Err(e)
      case Ok(n) =>
        match Names(ws[1..], name)
        case Err(e) =>
          assert exists i :: 1 <= i < |ws| && name(ws[i]).Err? by {
            var i :| 0 <= i < |ws[1..]| && name(ws[1..][i]).Err?;
            assert ws[1..][i] == ws[i + 1];
          }
          Err(e)
        case Ok(ns) =>
          assert forall i :: 1 <= i < |ws| ==> ws[1..][i - 1] == ws[i];
          Ok([n] + ns)
  }

  /** The user is one of the names exactly when some worker's name reads as the user. */
  lemma NamedIff(ws: seq<Value>, name: Value -> Result<string, string>, user: string)
    requires Names(ws, name).Ok?
    ensures user in Names(ws, name).value <==> exists i :: 0 <= i < |ws| && name(ws[i]) == Ok(user)
  {
    var ns := Names(ws, name).value;
    if user in ns {
      var i :| 0 <= i < |ns| && ns[i] == user;
      assert name(ws[i]) == Ok(user);
    }
  }

  // ---------------------------------------------------------------- get_project_items

  /** A catalog cell as a Python value: None where the row is too short to hold it. */
  function AsValue(o: Option<string>): Value {
    if o.None? then Null else Str(o.value)
  }

  /** The catalog records, dict(zip(headers, row)) for each data row. */
  function Records(catalog: Sheet.Table): (rs: seq<Sheet.Dict>)
    requires |catalog| >= 1
    ensures |rs| == |catalog| - 1
    ensures forall k :: 0 <= k < |rs| ==> rs[k] == Sheet.Zip(catalog[0], catalog[k + 1])
  {
    seq(|catalog| - 1, k requires 0 <= k < |catalog| - 1 => Sheet.Zip(catalog[0], catalog[k + 1]))
  }

  /** next(c for c in catalog if c.get("article_number") == id): the first record whose
      article number equals id, None where there is none. */
  function Match(rs: seq<Sheet.Dict>, id: Value): (r: Option<nat>)
    ensures r.Some? ==> r.value < |rs| && AsValue(Sheet.Lookup(rs[r.value], "article_number")) == id
                        && forall j :: 0 <= j < r.value ==> AsValue(Sheet.Lookup(rs[j], "article_number")) != id
    ensures r.None? <==> forall j :: 0 <= j < |rs| ==> AsValue(Sheet.Lookup(rs[j], "article_number")) != id
  {
    if |rs| == 0 then None
    else if AsValue(Sheet.Lookup(rs[0], "article_number")) == id then Some(0)
    else
      match Match(rs[1..], id)
      case None =>
        assert forall j :: 1 <= j < |rs| ==> rs[1..][j - 1] == rs[j];
        None
      case Some(i) =>
        assert forall j :: 1 <= j < i + 1 ==> rs[1..][j - 1] == rs[j];
        Some(i + 1)
  }

  /** match.get(key, default) of the matched record, or of {} when nothing matched. */
  function Detail(rs: seq<Sheet.Dict>, m: Option<nat>, key: string, default: string): Value
    requires m.Some? ==> m.value < |rs|
  {
    Str(if m.None? then default else Sheet.GetOr(rs[m.value], key, default))
  }

  /** The enriched line of one planned item. */
  function Enriched(item: Value, rs: seq<Sheet.Dict>): (v: Value)
    ensures v.Obj? && |v.fields| == 8
  {
    var m := Match(rs, GetOrNull(item, "item_id"));
    Obj([("item_id", GetOrNull(item, "item_id")), ("item_name", GetOrNull(item, "item_name")),
         ("quantity", GetOrNull(item, "quantity")),
         ("location", Detail(rs, m, "location", "-")), ("unit", Detail(rs, m, "unit", "-")),
         ("type", Detail(rs, m, "category", "-")), ("available", Detail(rs, m, "stock", "-")),
         ("image_url", Detail(rs, m, "product_image_url", ""))])
  }

  /** The enriched lines, one per planned item in order; Err where an item is not a dict
      (item.get raises). */
  function Enrich(items: seq<Value>, rs: seq<Sheet.Dict>): (r: Result<seq<Value>, string>)
    ensures r.Ok? <==> forall k :: 0 <= k < |items| ==> items[k].Obj?
    ensures r.Ok? ==> |r.value| == |items| && forall k :: 0 <= k < |items| ==> r.value[k] == Enriched(items[k], rs)
  {
    if |items| == 0 then Ok([])
    else if !items[0].Obj? then Err("AttributeError: '" + TypeName(items[0]) + "' object has no attribute 'get'")
    else
      match Enrich(items[1..], rs)
      case Err(e) =>
        assert exists k :: 1 <= k < |items| && !items[k].Obj? by {
          var k :| 0 <= k < |items[1..]| && !items[1..][k].Obj?;
          assert items[1..][k] == items[k + 1];
        }
        Err(e)
      case Ok(es) =>
        assert forall k :: 1 <= k < |items| ==> items[1..][k - 1] == items[k];
        Ok([Enriched(items[0], rs)] + es)
  }

  /** An item no catalog record matches gets "-" for every detail and "" for its image. */
  lemma UnmatchedDefaults(item: Value, rs: seq<Sheet.Dict>)
    requires forall j :: 0 <= j < |rs| ==> AsValue(Sheet.Lookup(rs[j], "article_number")) != GetOrNull(item, "item_id")
    ensures var f := Enriched(item, rs).fields;
            f[3] == ("location", Str("-")) && f[4] == ("unit", Str("-")) && f[5] == ("type", Str("-"))
            && f[6] == ("available", Str("-")) && f[7] == ("image_url", Str(""))
  {}

  /** The signed-in user as the listings compare it: username stripped and lower-cased. */
  function Me(username: Option<string>): string {
    Text.Lower(Text.PyStrip(username.GetOr("")))
  }

  /** The names of the project's workers as the listing reads them; Err where
      json.loads fails ("Invalid worker data") or a worker raises (a crash). */
  function ListedNames(rec: Sheet.Dict): (r: Result<seq<string>, Http.Response>)
  {
    match JsonCodec.Decode(Sheet.GetOr(rec, "workers", "[]"))
    case None => Err(Http.Error(500, "Invalid worker data"))
    case Some(wv) =>
      match Iterate(wv)
      case None => Err(Http.Crash())
      case Some(ws) =>
        match Names(ws, StrictName)
        case Err(_) => Err(Http.Crash())
        case Ok(ns) => Ok(ns)
  }

  /** The checks of get_project_items before the catalog is read: Ok with the project's
      row and its decoded items for a worker of the project, otherwise the answer given. */
  function ListPlan(username: Option<string>, data: Value, t: Sheet.Table): (r: Result<(nat, Value), Http.Response>)
    ensures r.Ok? ==>
              data.Obj? && GetText(data, "project_number").Ok? && |t| >= 2
              && FindRow(t, GetText(data, "project_number").value) == Some(r.value.0)
              && var rec := Sheet.Zip(t[0], t[r.value.0]);
                 ListedNames(rec).Ok? && Me(username) in ListedNames(rec).value
                 && JsonCodec.Decode(Sheet.GetOr(rec, "items", "[]")) == Some(r.value.1)
    ensures r.Err? ==> r.error.status != 200
  {
    if !data.Obj? then Err(Http.Crash())
    else
      match GetText(data, "project_number")
      case Err(_) => Err(Http.Crash())
      case Ok(pn) =>
        if |t| < 2 then Err(Http.Error(404, "No project data"))
        else
          match FindRow(t, pn)
          case None => Err(Http.Error(404, "Project not found"))
          case Some(k) =>
            var rec := Sheet.Zip(t[0], t[k]);
            match ListedNames(rec)
            case Err(resp) => Err(resp)
            case Ok(names) =>
              if Me(username) !in names then Err(Http.Error(403, "Not authorized for this project"))
              else
                match JsonCodec.Decode(Sheet.GetOr(rec, "items", "[]"))
                case None => Err(Http.Error(500, "Invalid item data"))
                case Some(v) => Ok((k, v))
  }

  /** get_project_items (take and return pages alike): the project's planned items, each
      joined with the first catalog record of its article, for a worker of the project only. */
  function ListItems(username: Option<string>, data: Value, t: Sheet.Table, catalog: Sheet.Table): (r: Http.Response)
    ensures r.status == 200 ==>
              ListPlan(username, data, t).Ok? && |catalog| >= 2
              && exists items :: Iterate(ListPlan(username, data, t).value.1) == Some(items)
                                 && Enrich(items, Records(catalog)).Ok?
                                 && r.body == Obj([("items", Arr(Enrich(items, Records(catalog)).value))])
    ensures ListPlan(username, data, t).Err? ==> r == ListPlan(username, data, t).error
  {
    match ListPlan(username, data, t)
    case Err(resp) => resp
    case Ok((_, v)) =>
      if |catalog| < 2 then Http.Error(500, "Catalog unavailable")
      else
        match Iterate(v)
        case None => Http.Crash()
        case Some(items) =>
          match Enrich(items, Records(catalog))
          case Err(_) => Http.Crash()
          case Ok(es) => Http.Response(200, Obj([("items", Arr(es))]))
  }

  /** For a found project whose workers read without error, the listing is refused with 403
      exactly when the signed-in user is none of them. */
  lemma ListAuthorization(username: Option<string>, data: Value, t: Sheet.Table, catalog: Sheet.Table)
    requires data.Obj? && GetText(data, "project_number").Ok? && |t| >= 2
    requires FindRow(t, GetText(data, "project_number").value).Some?
    requires ListedNames(Sheet.Zip(t[0], t[FindRow(t, GetText(data, "project_number").value).value])).Ok?
    ensures var names := ListedNames(Sheet.Zip(t[0], t[FindRow(t, GetText(data, "project_number").value).value])).value;
            ListItems(username, data, t, catalog).status == 403 <==> Me(username) !in names
  {
    PlanRefusal(username, data, t);
    ItemsRefusal(username, data, t, catalog);
  }

  /** Under the same conditions the checks refuse with 403 exactly when the user is none of
      the project's workers. */
  lemma PlanRefusal(username: Option<string>, data: Value, t: Sheet.Table)
    requires data.Obj? && GetText(data, "project_number").Ok? && |t| >= 2
    requires FindRow(t, GetText(data, "project_number").value).Some?
    requires ListedNames(Sheet.Zip(t[0], t[FindRow(t, GetText(data, "project_number").value).value])).Ok?
    ensures var names := ListedNames(Sheet.Zip(t[0], t[FindRow(t, GetText(data, "project_number").value).value])).value;
            ListPlan(username, data, t).Err? && ListPlan(username, data, t).error.status == 403 <==> Me(username) !in names
  {
  }

  /** The listing answers 403 only where the checks do: once they pass it answers 200 or
      500. */
  lemma ItemsRefusal(username: Option<string>, data: Value, t: Sheet.Table, catalog: Sheet.Table)
    ensures ListItems(username, data, t, catalog).status == 403
            <==> ListPlan(username, data, t).Err? && ListPlan(username, data, t).error.status == 403
  {
    if ListPlan(username, data, t).Ok? {
      PlannedNotRefused(username, data, t, catalog);
    }
  }

  /** Once the checks pass, the listing answers 200 or 500, never 403. */
  lemma PlannedNotRefused(username: Option<string>, data: Value, t: Sheet.Table, catalog: Sheet.Table)
    requires ListPlan(username, data, t).Ok?
    ensures ListItems(username, data, t, catalog).status in {200, 500}
  {
  }

  /** No workers, no listing: a project whose workers list is empty is shown to nobody. */
  lemma NoWorkersNoListing(username: Option<string>, data: Value, t: Sheet.Table, catalog: Sheet.Table)
    requires data.Obj? && GetText(data, "project_number").Ok? && |t| >= 2
    requires FindRow(t, GetText(data, "project_number").value).Some?
    requires JsonCodec.Decode(Sheet.GetOr(Sheet.Zip(t[0], t[FindRow(t, GetText(data, "project_number").value).value]), "workers", "[]")) == Some(Arr([]))
    ensures ListItems(username, data, t, catalog) == Http.Error(403, "Not authorized for this project")
  {}

  // ---------------------------------------------------------------- insert_project_items / insert_project_returns

  /** Which list an insert appends to. */
  datatype Kind = Taken | Returned

  function Column(kind: Kind): string {
    match kind
    case Taken => "taken_by_worker"
    case Returned => "returned_by_worker"
  }

  /** The text of the exception int(v) raises. */
  function IntError(v: Value): string {
    if v.Str? then "invalid literal for int() with base 10: '" + v.s + "'"
    else "int() argument must be a string, a bytes-like object or a real number, not '" + TypeName(v) + "'"
  }

  /** The entry appended for one submitted dict: item_id = article_number, item_name =
      product_name (default ""), quantity = int(quantity, default 0), and for returns
      return_type lower-cased (default ""); Err where int() or lower() raises. */
  function NewEntry(kind: Kind, it: Value): (r: Result<Value, string>)
    requires it.Obj?
    ensures r.Ok? ==> r.value.Obj?
  {
    var q := GetOr(it, "quantity", Num(0));
    match Coerce.PyInt(q)
    case None => Err(IntError(q))
    case Some(n) =>
      var base := [("item_id", GetOrNull(it, "article_number")), ("item_name", GetOr(it, "product_name", Str(""))), ("quantity", Num(n))];
      match kind
      case Taken => Ok(Obj(base))
      case Returned =>
        match TextOr(Get(it, "return_type"))
        case Err(e) => Err(e)
        case Ok(rt) => Ok(Obj(base + [("return_type", Str(Text.Lower(rt)))]))
  }

  /** The entries for the submitted dicts, one per dict in order (non-dicts are skipped
      before this); Err where one of them raises. */
  function NewEntries(kind: Kind, dicts: seq<Value>): (r: Result<seq<Value>, string>)
    requires forall k :: 0 <= k < |dicts| ==> dicts[k].Obj?
    ensures r.Ok? ==> |r.value| == |dicts| && forall k :: 0 <= k < |dicts| ==> NewEntry(kind, dicts[k]) == Ok(r.value[k])
    ensures r.Err? ==> exists k :: 0 <= k < |dicts| && NewEntry(kind, dicts[k]) == Err(r.error)
  {
    var rs := seq(|dicts|, k requires 0 <= k < |dicts| => NewEntry(kind, dicts[k]));
    assert forall k :: 0 <= k < |dicts| ==> rs[k] == NewEntry(kind, dicts[k]);
    Lists.AllOk(rs)
  }

  /** json.loads of the stored list, with [] where it fails. */
  function Existing(cell: string): Value {
    JsonCodec.Decode(cell).GetOr(Arr([]))
  }

  /** existing.append(entry) for each entry: a stored value that is not a list raises
      AttributeError at the first append. */
  function Appended(existing: Value, entries: seq<Value>): (r: Result<Value, string>)
    ensures |entries| == 0 ==> r == Ok(existing)
    ensures |entries| > 0 && existing.Arr? ==> r == Ok(Arr(existing.items + entries))
    ensures |entries| > 0 && !existing.Arr? ==> r.Err?
  {
    if |entries| == 0 then Ok(existing)
    else if existing.Arr? then Ok(Arr(existing.items + entries))
    else Err("AttributeError: '" + TypeName(existing) + "' object has no attribute 'append'")
  }

  /** The submitted request, once read: the user as compared, the project number, the items. */
  datatype Submission = Submission(user: string, projectNumber: string, items: Value)

  /** The checks both inserts make once the request is read: Ok with the project's row
      where the write goes ahead, otherwise the refusal (400, 500, 404, and for returns 403). */
  function Target(kind: Kind, sub: Submission, t: Sheet.Table): (r: Result<nat, Http.Response>)
    ensures r.Ok? ==> sub.user != "" && sub.projectNumber != "" && sub.items.Arr? && |t| >= 2
                      && FindRow(t, sub.projectNumber) == Some(r.value)
                      && Member(kind, Sheet.Zip(t[0], t[r.value]), sub.user).None?
    ensures r.Err? ==> r.error.status != 200
    ensures sub.user == "" || sub.projectNumber == "" || !sub.items.Arr? ==>
              r == Err(Http.Error(400, "Missing required fields or invalid data"))
    ensures (sub.user != "" && sub.projectNumber != "" && sub.items.Arr? && |t| >= 2
             && FindRow(t, sub.projectNumber).None?) ==> r == Err(Http.Error(404, "Project not found"))
  {
    if sub.user == "" || sub.projectNumber == "" || !sub.items.Arr? then
      Err(Http.Error(400, "Missing required fields or invalid data"))
    else if |t| < 2 then Err(Http.Error(500, "Projects sheet unavailable"))
    else
      match FindRow(t, sub.projectNumber)
      case None => Err(Http.Error(404, "Project not found"))
      case Some(k) =>
        match Member(kind, Sheet.Zip(t[0], t[k]), sub.user)
        case Some(resp) => Err(resp)
        case None => Ok(k)
  }

  /** The part both inserts share once the request is read: past the checks, append the new
      entries to the stored list and write the list back into its column (the row padded as
      needed). */
  function AppendFor(kind: Kind, sub: Submission, t: Sheet.Table): (r: (Http.Response, Sheet.Table))
    ensures r.0.status != 200 ==> r.1 == t
    ensures Target(kind, sub, t).Err? ==> r == (Target(kind, sub, t).error, t)
    ensures Target(kind, sub, t).Ok? ==> r.0.status == 200 || r.0 == Http.Crash()
  {
    match Target(kind, sub, t)
    case Err(resp) => (resp, t)
    case Ok(k) =>
      var rec := Sheet.Zip(t[0], t[k]);
      match NewEntries(kind, Coerce.OnlyDicts(sub.items.items))
      case Err(_) => (Http.Crash(), t)
      case Ok(entries) =>
        match Appended(Existing(Sheet.GetOr(rec, Column(kind), "[]")), entries)
        case Err(_) => (Http.Crash(), t)
        case Ok(list) =>
          match Sheet.IndexOf(t[0], Column(kind))
          case None => (Http.Crash(), t)
          case Some(col) =>
            (Http.Response(200, Obj([("success", Bool(true))])),
             Sheet.WriteCell(t, k + 1, col, JsonCodec.Encode(list, kind == Taken)))
  }

  /** The worker check of insert_project_returns, None where it passes: an unreadable
      workers cell counts as no workers; a user not among the names is refused with 403.
      insert_project_items makes no such check. */
  function Member(kind: Kind, rec: Sheet.Dict, user: string): (r: Option<Http.Response>)
    ensures kind == Taken ==> r.None?
    ensures r.Some? ==> r.value.status != 200
  {
    match kind
    case Taken => None
    case Returned =>
      match Iterate(Existing(Sheet.GetOr(rec, "workers", "[]")))
      case None => Some(Http.Crash())
      case Some(ws) =>
        match Names(ws, LooseName)
        case Err(_) => Some(Http.Crash())
        case Ok(names) => if user in names then None else Some(Http.Error(403, "Not authorized for this project"))
  }

  /** insert_project_items: session username stripped; project_number stripped; items must
      be a list. */
  function InsertTaken(username: Option<string>, data: Value, t: Sheet.Table): (r: (Http.Response, Sheet.Table))
    ensures r.0.status != 200 ==> r.1 == t
  {
    if !data.Obj? then (Http.Crash(), t)
    else
      match GetText(data, "project_number")
      case Err(_) => (Http.Crash(), t)
      case Ok(pn) =>
        AppendFor(Taken, Submission(Text.PyStrip(username.GetOr("")), pn, GetOr(data, "items", Arr([]))), t)
  }

  /** insert_project_returns: (username or "") stripped and lower-cased; an empty body reads
      as {}; (project_number or "") stripped; items must be a list. */
  function InsertReturned(username: Option<string>, data: Value, t: Sheet.Table): (r: (Http.Response, Sheet.Table))
    ensures r.0.status != 200 ==> r.1 == t
  {
    var d := if Truthy(data) then data else Obj([]);
    if !d.Obj? then (Http.Crash(), t)
    else
      match TextOr(Get(d, "project_number"))
      case Err(_) => (Http.Crash(), t)
      case Ok(pn) =>
        AppendFor(Returned, Submission(Me(username), Text.PyStrip(pn), GetOr(d, "items", Arr([]))), t)
  }

  /** A successful insert rewrites one cell, the list column of the project's first row
      (padded as needed), and that cell reads back as the stored list (or [] where it did
      not parse) followed by one new entry per submitted dict, in order. */
  lemma AppendWrites(kind: Kind, sub: Submission, t: Sheet.Table)
    requires AppendFor(kind, sub, t).0.status == 200
    ensures |t| >= 2 && sub.items.Arr? && FindRow(t, sub.projectNumber).Some? && Sheet.IndexOf(t[0], Column(kind)).Some?
    ensures var k := FindRow(t, sub.projectNumber).value;
            var col := Sheet.IndexOf(t[0], Column(kind)).value;
            var rec := Sheet.Zip(t[0], t[k]);
            var t2 := AppendFor(kind, sub, t).1;
            var old_ := Existing(Sheet.GetOr(rec, Column(kind), "[]"));
            NewEntries(kind, Coerce.OnlyDicts(sub.items.items)).Ok?
            && |t2| == |t| && (forall i :: 0 <= i < |t| && i != k ==> t2[i] == t[i])
            && col < |t2[k]| && (forall j :: 0 <= j < |t2[k]| && j != col ==> t2[k][j] == if j < |t[k]| then t[k][j] else "")
            && JsonCodec.Decode(t2[k][col])
               == Some(if |NewEntries(kind, Coerce.OnlyDicts(sub.items.items)).value| == 0 then old_
                       else Arr(old_.items + NewEntries(kind, Coerce.OnlyDicts(sub.items.items)).value))
  {
    var k := FindRow(t, sub.projectNumber).value;
    var rec := Sheet.Zip(t[0], t[k]);
    var entries := NewEntries(kind, Coerce.OnlyDicts(sub.items.items)).value;
    var list := Appended(Existing(Sheet.GetOr(rec, Column(kind), "[]")), entries).value;
    AppendedCell(kind, sub, t);
    JsonCodec.DecodeEncode(list, kind == Taken);
  }

  /** What a successful insert is: every check passed, and the table is the stored list
      with the new entries encoded into the list column of the project's row. */
  lemma AppendedCell(kind: Kind, sub: Submission, t: Sheet.Table)
    requires AppendFor(kind, sub, t).0.status == 200
    ensures Target(kind, sub, t).Ok?
    ensures |t| >= 2 && sub.items.Arr? && FindRow(t, sub.projectNumber) == Some(Target(kind, sub, t).value)
    ensures Sheet.IndexOf(t[0], Column(kind)).Some?
    ensures NewEntries(kind, Coerce.OnlyDicts(sub.items.items)).Ok?
    ensures var k := Target(kind, sub, t).value;
            var rec := Sheet.Zip(t[0], t[k]);
            var list := Appended(Existing(Sheet.GetOr(rec, Column(kind), "[]")), NewEntries(kind, Coerce.OnlyDicts(sub.items.items)).value);
            list.Ok?
            && AppendFor(kind, sub, t).1 == Sheet.WriteCell(t, k + 1, Sheet.IndexOf(t[0], Column(kind)).value, JsonCodec.Encode(list.value, kind == Taken))
  {
  }

  /** Taking needs no membership: with a user, a project number and a list of items whose
      dicts all carry a readable quantity, a found project with a readable list column is
      written, whoever its workers are. */
  lemma TakeNeedsNoMembership(sub: Submission, t: Sheet.Table)
    requires sub.user != "" && sub.projectNumber != "" && sub.items.Arr? && |t| >= 2
    requires FindRow(t, sub.projectNumber).Some? && Sheet.IndexOf(t[0], Column(Taken)).Some?
    requires NewEntries(Taken, Coerce.OnlyDicts(sub.items.items)).Ok?
    requires var rec := Sheet.Zip(t[0], t[FindRow(t, sub.projectNumber).value]);
             Existing(Sheet.GetOr(rec, "taken_by_worker", "[]")).Arr?
    ensures AppendFor(Taken, sub, t).0.status == 200
  {}

  /** The worker check refuses with 403 exactly when the workers read without error and
      none of their names is the user's; any other refusal is a crash. */
  lemma MemberRefusal(rec: Sheet.Dict, user: string)
    ensures Member(Returned, rec, user) == Some(Http.Error(403, "Not authorized for this project")) <==>
              exists ws :: Iterate(Existing(Sheet.GetOr(rec, "workers", "[]"))) == Some(ws)
                           && Names(ws, LooseName).Ok? && user !in Names(ws, LooseName).value
    ensures Member(Returned, rec, user).Some? ==>
              Member(Returned, rec, user) in {Some(Http.Error(403, "Not authorized for this project")), Some(Http.Crash())}
  {}

  /** A return is refused with 403, and nothing written, exactly when the project's workers
      read without error and none of their names is the user's. */
  lemma ReturnNeedsMembership(sub: Submission, t: Sheet.Table)
    requires sub.user != "" && sub.projectNumber != "" && sub.items.Arr? && |t| >= 2
    requires FindRow(t, sub.projectNumber).Some?
    ensures var rec := Sheet.Zip(t[0], t[FindRow(t, sub.projectNumber).value]);
            var r := AppendFor(Returned, sub, t);
            (r.0.status == 403 <==>
               exists ws :: Iterate(Existing(Sheet.GetOr(rec, "workers", "[]"))) == Some(ws)
                            && Names(ws, LooseName).Ok? && sub.user !in Names(ws, LooseName).value)
            && (r.0.status == 403 ==> r.1 == t)
  {
    var rec := Sheet.Zip(t[0], t[FindRow(t, sub.projectNumber).value]);
    MemberRefusal(rec, sub.user);
    var m := Member(Returned, rec, sub.user);
    assert Target(Returned, sub, t) == if m.Some? then Err(m.value) else Ok(FindRow(t, sub.projectNumber).value);
  }

  /** A workers cell that does not parse reads as no workers, so every return is refused. */
  lemma UnreadableWorkersRefuse(sub: Submission, t: Sheet.Table)
    requires sub.user != "" && sub.projectNumber != "" && sub.items.Arr? && |t| >= 2
    requires FindRow(t, sub.projectNumber).Some?
    requires var rec := Sheet.Zip(t[0], t[FindRow(t, sub.projectNumber).value]);
             JsonCodec.Decode(Sheet.GetOr(rec, "workers", "[]")).None?
    ensures AppendFor(Returned, sub, t) == (Http.Error(403, "Not authorized for this project"), t)
  {
    var rec := Sheet.Zip(t[0], t[FindRow(t, sub.projectNumber).value]);
    assert Existing(Sheet.GetOr(rec, "workers", "[]")) == Arr([]);
    assert Member(Returned, rec, sub.user) == Some(Http.Error(403, "Not authorized for this project"));
  }

  /** A return entry carries the item's article number and product name, the submitted
      quantity as a number, and the lower-cased return type, in that order. */
  lemma ReturnEntryShape(it: Value, n: int, rt: string)
    requires it.Obj? && Coerce.PyInt(GetOr(it, "quantity", Num(0))) == Some(n)
    requires Get(it, "return_type") == Some(Str(rt))
    ensures NewEntry(Returned, it)
            == Ok(Obj([("item_id", GetOrNull(it, "article_number")),
                       ("item_name", GetOr(it, "product_name", Str(""))),
                       ("quantity", Num(n)),
                       ("return_type", Str(Text.Lower(rt)))]))
  {
    var base := [("item_id", GetOrNull(it, "article_number")), ("item_name", GetOr(it, "product_name", Str(""))), ("quantity", Num(n))];
    assert TextOr(Get(it, "return_type")) == Ok(rt);
    assert NewEntry(Returned, it) == Ok(Obj(base + [("return_type", Str(Text.Lower(rt)))]));
    assert base + [("return_type", Str(Text.Lower(rt)))]
           == [base[0], base[1], base[2], ("return_type", Str(Text.Lower(rt)))];
  }
}
