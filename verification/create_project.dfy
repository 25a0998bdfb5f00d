/** Project creation: the project list with its search, the row a new project is stored
    as, and the list of workers a project can be staffed with. */
module CreateProject {
  import opened Wrappers
  import opened Json
  import Text
  import Sheet
  import JsonCodec
  import Http
  import Lists

  /** A row at least as long as the header row. */
  function IsFull(headers: Sheet.Row): Sheet.Row -> bool {
    row => |row| >= |headers|
  }

  /** The records of the rows that are at least as long as the header row, in row order;
      shorter rows are dropped. */
  function FullRecords(headers: Sheet.Row, rows: seq<Sheet.Row>): (r: seq<Sheet.Dict>)
    ensures |r| <= |rows|
    ensures forall p :: p in r <==> exists j :: 0 <= j < |rows| && |rows[j]| >= |headers| && p == Sheet.Zip(headers, rows[j])
  {
    if |rows| == 0 then []
    else
      var rest := FullRecords(headers, rows[1..]);
      assert forall j :: 1 <= j < |rows| ==> rows[1..][j - 1] == rows[j];
      if |rows[0]| >= |headers| then [Sheet.Zip(headers, rows[0])] + rest else rest
  }

  /** The full rows' records, in row order and nothing else. */
  lemma {:induction false} FullRecordsInOrder(headers: Sheet.Row, rows: seq<Sheet.Row>)
    ensures FullRecords(headers, rows) == Lists.FilterMap(rows, IsFull(headers), Sheet.RecordOf(headers))
  {
    if |rows| > 0 {
      FullRecordsInOrder(headers, rows[1..]);
    }
  }

  /** The search test: the lower-cased project number contains the lower-cased term. */
  predicate NumberMatches(search: string, p: Sheet.Dict) {
    Text.Contains(Text.Lower(Sheet.GetOr(p, "project_number", "")), search)
  }

  /** The search test with the term fixed. */
  function MatchesOf(search: string): Sheet.Dict -> bool {
    p => NumberMatches(search, p)
  }

  /** The records that pass the search test, in row order. */
  function Matching(ps: seq<Sheet.Dict>, search: string): (r: seq<Sheet.Dict>)
    ensures forall p :: p in r <==> p in ps && NumberMatches(search, p)
  {
    if |ps| == 0 then []
    else
      var rest := Matching(ps[1..], search);
      assert forall p :: p in ps <==> p == ps[0] || p in ps[1..];
      if NumberMatches(search, ps[0]) then [ps[0]] + rest else rest
  }

  /** The matching records, in row order and nothing else. */
  lemma {:induction false} MatchingInOrder(ps: seq<Sheet.Dict>, search: string)
    ensures Matching(ps, search) == Lists.Filter(ps, MatchesOf(search))
  {
    if |ps| > 0 {
      MatchingInOrder(ps[1..], search);
    }
  }

  /** get_projects: every full row's record whose project number contains the search term
      (all of them for an empty term); nothing for an empty sheet. */
  function GetProjects(searchArg: string, t: Sheet.Table): (r: seq<Sheet.Dict>)
    ensures forall p :: p in r <==>
              |t| > 0 && (exists j :: 1 <= j < |t| && |t[j]| >= |t[0]| && p == Sheet.Zip(t[0], t[j]))
              && (Text.Lower(searchArg) == "" || NumberMatches(Text.Lower(searchArg), p))
  {
    if |t| == 0 then []
    else
      var all := FullRecords(t[0], t[1..]);
      assert forall j :: 1 <= j < |t| ==> t[1..][j - 1] == t[j];
      var search := Text.Lower(searchArg);
      if search == "" then all else Matching(all, search)
  }

  // ---------------------------------------------------------------- create_project_api

  /** A value as the sheet stores it: text as itself, None as an empty cell, anything else
      as its JSON text. */
  function CellText(v: Value): string {
    match v
    case Str(s) => s
    case Null => ""
    case _ => JsonCodec.Encode(v, true)
  }

  /** The row a new project is stored as: its id, number, dates, creator, creation time,
      status "active", workers and items as JSON text, and customer name. */
  function NewRow(data: Value, creator: string, id: string, now: string): (row: Sheet.Row)
    ensures |row| == 10
  {
    [id, CellText(GetOrNull(data, "project_number")), CellText(GetOrNull(data, "start_date")),
     CellText(GetOrNull(data, "end_date")), creator, now, "active",
     JsonCodec.Encode(GetOr(data, "workers", Arr([])), true), JsonCodec.Encode(GetOr(data, "items", Arr([])), true),
     CellText(GetOr(data, "customer_name", Str("")))]
  }

  /** session.get("username") or "unknown@user.no" */
  function Creator(user: Option<string>): (c: string)
    ensures c == "unknown@user.no" <==> user.None? || user.value == "" || user.value == "unknown@user.no"
  {
    if user.None? || user.value == "" then "unknown@user.no" else user.value
  }

  /** create_project_api: id and now stand for the fresh UUID and the current time. */
  function CreateProjectApi(data: Value, user: Option<string>, id: string, now: string, t: Sheet.Table): (r: (Http.Response, Sheet.Table))
    ensures r.0.status == 200 <==> data.Obj? && Has(data, "project_number") && Truthy(GetOrNull(data, "project_number"))
    ensures r.0.status != 200 ==> r.1 == t
  {
    if !data.Obj? then
      (Http.Response(500, Obj([("success", Bool(false)), ("error", Str("'" + TypeName(data) + "' object has no attribute 'get'")),
                               ("message", Str("Failed to create project")), ("status", Str("error"))])), t)
    else if !Truthy(GetOrNull(data, "project_number")) then
      (Http.Response(400, Obj([("success", Bool(false)), ("error", Str("Project number is required"))])), t)
    else
      (Http.Response(200, Obj([("success", Bool(true)), ("message", Str("Project created successfully")),
                               ("project_id", Str(id)), ("status", Str("success"))])),
       Sheet.AppendRow(t, NewRow(data, Creator(user), id, now)))
  }

  /** A created project adds exactly one row, after the others: ten cells in the fixed
      order (id, a non-empty project number, the two dates, creator, creation time, status
      active, workers, items, customer name), with workers and items stored so that reading
      them back gives the lists sent. */
  lemma CreatedRow(data: Value, user: Option<string>, id: string, now: string, t: Sheet.Table)
    requires CreateProjectApi(data, user, id, now, t).0.status == 200
    ensures var t' := CreateProjectApi(data, user, id, now, t).1;
            |t'| == |t| + 1 && t'[..|t|] == t
            && |t'[|t|]| == 10 && t'[|t|][0] == id && t'[|t|][4] == Creator(user) && t'[|t|][5] == now
            && t'[|t|][6] == "active"
            && t'[|t|][1] == CellText(GetOrNull(data, "project_number")) && t'[|t|][1] != ""
            && t'[|t|][2] == CellText(GetOrNull(data, "start_date"))
            && t'[|t|][3] == CellText(GetOrNull(data, "end_date"))
            && t'[|t|][9] == CellText(GetOr(data, "customer_name", Str("")))
            && JsonCodec.Decode(t'[|t|][7]) == Some(GetOr(data, "workers", Arr([])))
            && JsonCodec.Decode(t'[|t|][8]) == Some(GetOr(data, "items", Arr([])))
  {
    JsonCodec.DecodeEncode(GetOr(data, "workers", Arr([])), true);
    JsonCodec.DecodeEncode(GetOr(data, "items", Arr([])), true);
  }

  // ---------------------------------------------------------------- get_workers

  /** A looked-up cell as JSON: None where the key is absent. */
  function AsValue(o: Option<string>): Value {
    if o.None? then Null else Str(o.value)
  }

  /** {"username": u.get("email"), "name": u.get("name")} */
  function WorkerOf(u: Sheet.Dict): Value {
    Obj([("username", AsValue(Sheet.Lookup(u, "email"))), ("name", AsValue(Sheet.Lookup(u, "name")))])
  }

  predicate IsWorker(u: Sheet.Dict) {
    Sheet.Lookup(u, "role") == Some("worker")
  }

  function Workers(us: seq<Sheet.Dict>): (r: seq<Value>)
    ensures |r| <= |us|
    ensures forall w :: w in r <==> exists k :: 0 <= k < |us| && IsWorker(us[k]) && w == WorkerOf(us[k])
  {
    if |us| == 0 then []
    else
      var rest := Workers(us[1..]);
      assert forall k :: 1 <= k < |us| ==> us[1..][k - 1] == us[k];
      if IsWorker(us[0]) then [WorkerOf(us[0])] + rest else rest
  }

  /** The workers' entries, in row order and nothing else. */
  lemma {:induction false} WorkersInOrder(us: seq<Sheet.Dict>)
    ensures Workers(us) == Lists.FilterMap(us, IsWorker, WorkerOf)
  {
    if |us| > 0 {
      WorkersInOrder(us[1..]);
    }
  }

  /** get_workers: the users whose role is exactly "worker", from the full rows. */
  function GetWorkers(t: Sheet.Table): (r: seq<Value>)
    ensures |t| == 0 ==> r == []
  {
    if |t| == 0 then [] else Workers(FullRecords(t[0], t[1..]))
  }

  /** Only workers are offered, each with their e-mail as user name, and every worker of a
      full row is. */
  lemma GetWorkersIff(t: Sheet.Table, w: Value)
    requires |t| > 0
    ensures w in GetWorkers(t) <==>
              exists j :: 1 <= j < |t| && |t[j]| >= |t[0]| && IsWorker(Sheet.Zip(t[0], t[j])) && w == WorkerOf(Sheet.Zip(t[0], t[j]))
  {
    if w in GetWorkers(t) {
      OfferedIsWorker(t, w);
    }
    if exists j :: 1 <= j < |t| && |t[j]| >= |t[0]| && IsWorker(Sheet.Zip(t[0], t[j])) && w == WorkerOf(Sheet.Zip(t[0], t[j])) {
      var j :| 1 <= j < |t| && |t[j]| >= |t[0]| && IsWorker(Sheet.Zip(t[0], t[j])) && w == WorkerOf(Sheet.Zip(t[0], t[j]));
      WorkerIsOffered(t, j);
    }
  }

  lemma OfferedIsWorker(t: Sheet.Table, w: Value)
    requires |t| > 0 && w in GetWorkers(t)
    ensures exists j :: 1 <= j < |t| && |t[j]| >= |t[0]| && IsWorker(Sheet.Zip(t[0], t[j])) && w == WorkerOf(Sheet.Zip(t[0], t[j]))
  {
    var us := FullRecords(t[0], t[1..]);
    var k :| 0 <= k < |us| && IsWorker(us[k]) && w == WorkerOf(us[k]);
    assert us[k] in us;
    var j :| 0 <= j < |t[1..]| && |t[1..][j]| >= |t[0]| && us[k] == Sheet.Zip(t[0], t[1..][j]);
    assert t[1..][j] == t[j + 1];
    var d := Sheet.Zip(t[0], t[j + 1]);
    assert 1 <= j + 1 < |t| && |t[j + 1]| >= |t[0]| && IsWorker(d) && w == WorkerOf(d);
  }

  lemma WorkerIsOffered(t: Sheet.Table, j: int)
    requires 1 <= j < |t| && |t[j]| >= |t[0]| && IsWorker(Sheet.Zip(t[0], t[j]))
    ensures WorkerOf(Sheet.Zip(t[0], t[j])) in GetWorkers(t)
  {
    var us := FullRecords(t[0], t[1..]);
    assert t[1..][j - 1] == t[j];
    assert Sheet.Zip(t[0], t[j]) in us;
    var k :| 0 <= k < |us| && us[k] == Sheet.Zip(t[0], t[j]);
  }
}
