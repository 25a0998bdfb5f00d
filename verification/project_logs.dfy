/** The project-log page: the projects a user may see, each put in exactly one of three
    lists (active, upcoming, completed) by its stored status and its dates. A row that
    cannot be read (workers or items that are not JSON, or not lists of objects) is passed
    over. */
module ProjectLogs {
  import opened Wrappers
  import opened Json
  import Text
  import Sheet
  import JsonCodec

  datatype Bucket = Active | Upcoming | Completed

  /** The list a project goes in. start and end are its parsed dates (None where strptime
      fails) as day numbers and today is the current day: a project with an unreadable date
      is active whatever its status; otherwise a completed status wins, then a start still
      ahead; everything else is active, even past its end. */
  function BucketOf(status: string, start: Option<int>, end: Option<int>, today: int): Bucket {
    if start.None? || end.None? then Active
    else if status == "completed" then Completed
    else if today < start.value then Upcoming
    else Active
  }

  /** Each bucket in terms of the inputs, both directions. */
  lemma BucketIff(status: string, start: Option<int>, end: Option<int>, today: int)
    ensures BucketOf(status, start, end, today) == Completed <==> start.Some? && end.Some? && status == "completed"
    ensures BucketOf(status, start, end, today) == Upcoming <==>
              start.Some? && end.Some? && status != "completed" && today < start.value
    ensures BucketOf(status, start, end, today) == Active <==>
              start.None? || end.None? || (status != "completed" && today >= start.value)
  {}

  /** A line of a project's item list, each field defaulting to "". */
  datatype LogItem = LogItem(itemId: Value, itemName: Value, quantity: Value)

  /** A project as the page shows it. */
  datatype ProjectLog = ProjectLog(projectNumber: string, createdBy: string, startDate: string, endDate: string,
                                   workers: seq<Value>, items: seq<LogItem>, status: string, itemsCount: nat)

  /** The session's user as Python compares it: None where there is no user. */
  function Me(user: Option<string>): Value {
    if user.None? then Null else Str(user.value)
  }

  /** any(user_email == w.get("username") for w in workers): stops at the first match; a
      worker that is not a dict before any match raises. */
  function AnyIsMe(workers: seq<Value>, me: Value): (r: Result<bool, string>)
    ensures r == Ok(true) ==> exists i :: 0 <= i < |workers| && workers[i].Obj? && GetOrNull(workers[i], "username") == me
    ensures r == Ok(false) <==> forall i :: 0 <= i < |workers| ==> workers[i].Obj? && GetOrNull(workers[i], "username") != me
  {
    if |workers| == 0 then Ok(false)
    else if !workers[0].Obj? then Err("'" + TypeName(workers[0]) + "' object has no attribute 'get'")
    else if GetOrNull(workers[0], "username") == me then Ok(true)
    else
      var r := AnyIsMe(workers[1..], me);
      assert forall i :: 1 <= i < |workers| ==> workers[1..][i - 1] == workers[i];
      r
  }

  /** [w.get("name") or w.get("username") for w in workers]: Err at a worker that is not a
      dict. */
  function WorkerLabels(workers: seq<Value>): (r: Result<seq<Value>, string>)
    ensures r.Ok? <==> forall i :: 0 <= i < |workers| ==> workers[i].Obj?
    ensures r.Ok? ==> |r.value| == |workers| && forall i :: 0 <= i < |workers| ==>
              r.value[i] == (if Truthy(GetOrNull(workers[i], "name")) then GetOrNull(workers[i], "name") else GetOrNull(workers[i], "username"))
  {
    if |workers| == 0 then Ok([])
    else if !workers[0].Obj? then Err("'" + TypeName(workers[0]) + "' object has no attribute 'get'")
    else
      var w := workers[0];
      var tag := if Truthy(GetOrNull(w, "name")) then GetOrNull(w, "name") else GetOrNull(w, "username");
      match WorkerLabels(workers[1..])
      case Err(e) =>
        assert forall i :: 1 <= i < |workers| ==> workers[1..][i - 1] == workers[i];
        Err(e)
      case Ok(rest) =>
        assert forall i :: 1 <= i < |workers| ==> workers[1..][i - 1] == workers[i];
        Ok([tag] + rest)
  }

  /** The item lines: Err at an item that is not a dict. */
  function LogItems(items: seq<Value>): (r: Result<seq<LogItem>, string>)
    ensures r.Ok? <==> forall i :: 0 <= i < |items| ==> items[i].Obj?
    ensures r.Ok? ==> |r.value| == |items| && forall i :: 0 <= i < |items| ==>
              r.value[i] == LogItem(GetOr(items[i], "item_id", Str("")), GetOr(items[i], "item_name", Str("")),
                                    GetOr(items[i], "quantity", Str("")))
  {
    if |items| == 0 then Ok([])
    else if !items[0].Obj? then Err("'" + TypeName(items[0]) + "' object has no attribute 'get'")
    else
      var i0 := items[0];
      var line := LogItem(GetOr(i0, "item_id", Str("")), GetOr(i0, "item_name", Str("")), GetOr(i0, "quantity", Str("")));
      match LogItems(items[1..])
      case Err(e) =>
        assert forall i :: 1 <= i < |items| ==> items[1..][i - 1] == items[i];
        Err(e)
      case Ok(rest) =>
        assert forall i :: 1 <= i < |items| ==> items[1..][i - 1] == items[i];
        Ok([line] + rest)
  }

  /** The page's viewer: the session user, whether the role is the master role, the current
      day and the date parser (strptime with "%Y-%m-%d", as a day number). */
  datatype Viewer = Viewer(user: Option<string>, isMaster: bool, today: int, parse: string -> Option<int>)

  /** json.loads of a cell read with a default, then iterated: None where either fails. */
  function ListCell(p: Sheet.Dict, key: string): Option<seq<Value>> {
    match JsonCodec.Decode(Sheet.GetOr(p, key, "[]"))
    case None => None
    case Some(v) => Iterate(v)
  }

  /** What one row gives: its list and its card, or None where it is not visible to the
      viewer or cannot be read. */
  function Read(headers: Sheet.Row, row: Sheet.Row, v: Viewer): Option<(Bucket, ProjectLog)> {
    var p := Sheet.Zip(headers, row);
    match ListCell(p, "workers")
    case None => None
    case Some(workers) =>
      match ListCell(p, "items")
      case None => None
      case Some(items) =>
        var seen := if v.isMaster then Ok(true) else AnyIsMe(workers, Me(v.user));
        if seen != Ok(true) then None
        else
          var start := Sheet.GetOr(p, "start_date", "");
          var end := Sheet.GetOr(p, "end_date", "");
          var status := Text.Lower(Sheet.GetOr(p, "status", "active"));
          var bucket := BucketOf(status, v.parse(start), v.parse(end), v.today);
          match WorkerLabels(workers)
          case Err(_) => None
          case Ok(labels) =>
            match LogItems(items)
            case Err(_) => None
            case Ok(lines) =>
              Some((bucket, ProjectLog(Sheet.GetOr(p, "project_number", "N/A"), Sheet.GetOr(p, "created_by", "Unknown"),
                                       start, end, labels, lines, status, |items|)))
  }

  /** The three lists the page renders. */
  datatype Page = Page(active: seq<ProjectLog>, upcoming: seq<ProjectLog>, completed: seq<ProjectLog>)

  /** The card goes to the end of its list. */
  function Put(page: Page, b: Bucket, x: ProjectLog): Page {
    match b
    case Active => page.(active := page.active + [x])
    case Upcoming => page.(upcoming := page.upcoming + [x])
    case Completed => page.(completed := page.completed + [x])
  }

  /** What each data row gives, in order. */
  function Reads(headers: Sheet.Row, rows: seq<Sheet.Row>, v: Viewer): (rs: seq<Option<(Bucket, ProjectLog)>>)
    ensures |rs| == |rows| && forall j :: 0 <= j < |rows| ==> rs[j] == Read(headers, rows[j], v)
  {
    seq(|rows|, j requires 0 <= j < |rows| => Read(headers, rows[j], v))
  }

  /** The loop: each card goes to the end of its list, rows in order. */
  function Place(rs: seq<Option<(Bucket, ProjectLog)>>): Page {
    if |rs| == 0 then Page([], [], [])
    else
      var page := Place(rs[..|rs| - 1]);
      match rs[|rs| - 1]
      case None => page
      case Some((b, x)) => Put(page, b, x)
  }

  /** project_logs: no lists without a data row. */
  function ProjectLogsPage(t: Sheet.Table, v: Viewer): (page: Page)
    ensures |t| < 2 ==> page == Page([], [], [])
  {
    if |t| < 2 then Page([], [], []) else Place(Reads(t[0], t[1..], v))
  }

  /** The rows that give a card. */
  function Cards(rs: seq<Option<(Bucket, ProjectLog)>>): nat {
    if |rs| == 0 then 0 else Cards(rs[..|rs| - 1]) + (if rs[|rs| - 1].Some? then 1 else 0)
  }

  /** The list a bucket names. */
  function ListOf(page: Page, b: Bucket): seq<ProjectLog> {
    match b
    case Active => page.active
    case Upcoming => page.upcoming
    case Completed => page.completed
  }

  /** The lists together hold one card per row that gives one. */
  lemma {:induction false} PlaceCount(rs: seq<Option<(Bucket, ProjectLog)>>)
    ensures |Place(rs).active| + |Place(rs).upcoming| + |Place(rs).completed| == Cards(rs)
  {
    if |rs| > 0 {
      PlaceCount(rs[..|rs| - 1]);
    }
  }

  /** A card is in a list exactly when some row gives it for that list. */
  lemma {:induction false} PlaceMembers(rs: seq<Option<(Bucket, ProjectLog)>>, b: Bucket, x: ProjectLog)
    ensures x in ListOf(Place(rs), b) <==> Some((b, x)) in rs
  {
    if |rs| > 0 {
      var init := rs[..|rs| - 1];
      var last := rs[|rs| - 1];
      PlaceMembers(init, b, x);
      assert rs == init + [last];
      assert Some((b, x)) in rs <==> Some((b, x)) in init || last == Some((b, x));
      match last
      case None =>
      case Some((b', y)) =>
        assert ListOf(Place(rs), b) == ListOf(Place(init), b) + (if b' == b then [y] else []);
    }
  }

  /** The page puts every project a row gives in the list of its bucket, and in no other. */
  lemma PageSpec(t: Sheet.Table, v: Viewer, b: Bucket, x: ProjectLog)
    requires |t| >= 2
    ensures x in ListOf(ProjectLogsPage(t, v), b) <==> exists j :: 1 <= j < |t| && Read(t[0], t[j], v) == Some((b, x))
  {
    var rows := t[1..];
    var rs := Reads(t[0], rows, v);
    PlaceMembers(rs, b, x);
    if Some((b, x)) in rs {
      var j :| 0 <= j < |rs| && rs[j] == Some((b, x));
      assert t[j + 1] == rows[j];
    }
    if exists j :: 1 <= j < |t| && Read(t[0], t[j], v) == Some((b, x)) {
      var j :| 1 <= j < |t| && Read(t[0], t[j], v) == Some((b, x));
      assert rs[j - 1] == Some((b, x));
    }
  }

  /** Someone without the master role sees a project only when one of its workers has
      exactly their user name. */
  lemma OnlyOwnProjects(headers: Sheet.Row, row: Sheet.Row, v: Viewer)
    requires !v.isMaster && Read(headers, row, v).Some?
    ensures var ws := ListCell(Sheet.Zip(headers, row), "workers");
            ws.Some? && exists i :: 0 <= i < |ws.value| && GetOrNull(ws.value[i], "username") == Me(v.user)
  {}

  /** The master role sees every readable project. */
  lemma MasterSeesAll(headers: Sheet.Row, row: Sheet.Row, v: Viewer)
    requires v.isMaster
    requires ListCell(Sheet.Zip(headers, row), "workers").Some? && ListCell(Sheet.Zip(headers, row), "items").Some?
    requires forall i :: 0 <= i < |ListCell(Sheet.Zip(headers, row), "workers").value| ==> ListCell(Sheet.Zip(headers, row), "workers").value[i].Obj?
    requires forall i :: 0 <= i < |ListCell(Sheet.Zip(headers, row), "items").value| ==> ListCell(Sheet.Zip(headers, row), "items").value[i].Obj?
    ensures Read(headers, row, v).Some?
  {}
}
