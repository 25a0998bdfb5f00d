/** The project form: choosing the workers, building the item list from the catalogue, and
    the checks the form passes before it is sent to the project-creation handler. */
module ProjectForm {
  import opened Wrappers
  import opened Json
  import Text
  import Numerals
  import Carts
  import CreateProject
  import JsonCodec
  import Sheet
  import Lists

  // ---------------------------------------------------------------- workers

  /** A chosen worker as the clicked element holds it: user name and display name. */
  datatype Worker = Worker(username: string, name: string)

  predicate Chosen(sel: seq<Worker>, username: string) {
    exists k :: 0 <= k < |sel| && sel[k].username == username
  }

  /** At most one entry per user name. */
  predicate Unique(sel: seq<Worker>) {
    forall i, j :: 0 <= i < j < |sel| ==> sel[i].username != sel[j].username
  }

  /** findIndex(w => w.username === username) */
  function IndexOf(sel: seq<Worker>, username: string): (r: Option<nat>)
    ensures r.Some? ==> r.value < |sel| && sel[r.value].username == username
                        && forall k :: 0 <= k < r.value ==> sel[k].username != username
    ensures r.None? <==> !Chosen(sel, username)
  {
    if |sel| == 0 then None
    else if sel[0].username == username then Some(0)
    else
      match IndexOf(sel[1..], username)
      case None =>
        assert forall k :: 1 <= k < |sel| ==> sel[1..][k - 1] == sel[k];
        None
      case Some(j) =>
        assert forall k :: 1 <= k < |sel| ==> sel[1..][k - 1] == sel[k];
        Some(j + 1)
  }

  /** toggleWorkerSelection: a worker not yet chosen is added at the end; a chosen one is
      taken out where it stands, the others keeping their order. */
  function Toggle(sel: seq<Worker>, username: string, name: string): (r: seq<Worker>)
    ensures !Chosen(sel, username) ==> r == sel + [Worker(username, name)]
    ensures Chosen(sel, username) ==> |r| == |sel| - 1
    ensures Chosen(sel, username) ==>
              multiset(r) + multiset{sel[IndexOf(sel, username).value]} == multiset(sel)
    ensures Unique(sel) ==> Unique(r) && (Chosen(r, username) <==> !Chosen(sel, username))
    ensures forall u :: u != username ==> (Chosen(r, u) <==> Chosen(sel, u))
  {
    match IndexOf(sel, username)
    case None =>
      var r := sel + [Worker(username, name)];
      assert forall u :: u != username && Chosen(r, u) ==> Chosen(sel, u) by {
        forall u | u != username && Chosen(r, u) ensures Chosen(sel, u) {
          var k :| 0 <= k < |r| && r[k].username == u;
          assert k < |sel|;
        }
      }
      assert Chosen(r, username) by { assert r[|sel|].username == username; }
      assert forall u :: Chosen(sel, u) ==> Chosen(r, u) by {
        forall u | Chosen(sel, u) ensures Chosen(r, u) {
          var k :| 0 <= k < |sel| && sel[k].username == u;
          assert r[k] == sel[k];
        }
      }
      r
    case Some(i) =>
      var r := Carts.RemoveAt(sel, i);
      assert forall u :: u != username && Chosen(sel, u) ==> Chosen(r, u) by {
        forall u | u != username && Chosen(sel, u) ensures Chosen(r, u) {
          var k :| 0 <= k < |sel| && sel[k].username == u;
          assert k != i;
          var k' := if k < i then k else k - 1;
          assert r[k'] == sel[k];
        }
      }
      r
  }

  /** Toggling the same worker twice gives the selection back: exactly, when the worker was
      not chosen; up to order (the worker moves to the end), when it was. */
  lemma ToggleTwice(sel: seq<Worker>, username: string, name: string)
    requires Unique(sel)
    ensures !Chosen(sel, username) ==> Toggle(Toggle(sel, username, name), username, name) == sel
    ensures Chosen(sel, username) && sel[IndexOf(sel, username).value].name == name ==>
              multiset(Toggle(Toggle(sel, username, name), username, name)) == multiset(sel)
  {
    var once := Toggle(sel, username, name);
    if !Chosen(sel, username) {
      var i := IndexOf(once, username).value;
      assert forall k :: 0 <= k < |sel| ==> once[k] == sel[k] && once[k].username != username;
      assert i == |sel|;
      assert Carts.RemoveAt(once, i) == sel;
    } else {
      assert !Chosen(once, username);
      var twice := Toggle(once, username, name);
      assert twice == once + [Worker(username, name)];
      assert multiset(twice) == multiset(once) + multiset{Worker(username, name)};
    }
  }

  /** removeSelectedWorker: every entry with that user name goes; the rest keep their order. */
  function RemoveSelected(sel: seq<Worker>, username: string): (r: seq<Worker>)
    ensures |r| <= |sel|
    ensures forall w :: w in r <==> w in sel && w.username != username
    ensures forall k :: 0 <= k < |r| ==> r[k].username != username
    ensures !Chosen(r, username)
  {
    if |sel| == 0 then []
    else
      var rest := RemoveSelected(sel[1..], username);
      assert forall w :: w in sel <==> w == sel[0] || w in sel[1..];
      if sel[0].username != username then [sel[0]] + rest else rest
  }

  /** In a selection without repeats, removing a chosen worker by its badge and toggling it
      off give the same selection. */
  lemma {:induction false} RemoveIsToggleOff(sel: seq<Worker>, username: string, name: string)
    requires Unique(sel) && Chosen(sel, username)
    ensures RemoveSelected(sel, username) == Toggle(sel, username, name)
    decreases |sel|
  {
    var i := IndexOf(sel, username).value;
    var tail := sel[1..];
    UniqueTail(sel);
    if sel[0].username == username {
      NoneRemoved(tail, username);
      assert Carts.RemoveAt(sel, 0) == tail;
    } else {
      assert tail[i - 1] == sel[i];
      RemoveIsToggleOff(tail, username, name);
      Carts.RemoveAtCons(sel, i);
    }
  }

  /** The selection after its first entry has no repeats either, and no entry of the first
      entry's user name. */
  lemma UniqueTail(sel: seq<Worker>)
    requires Unique(sel) && |sel| > 0
    ensures Unique(sel[1..])
    ensures !Chosen(sel[1..], sel[0].username)
  {
    assert forall k :: 0 <= k < |sel| - 1 ==> sel[1..][k] == sel[k + 1];
  }

  lemma {:induction false} NoneRemoved(sel: seq<Worker>, username: string)
    requires !Chosen(sel, username)
    ensures RemoveSelected(sel, username) == sel
    decreases |sel|
  {
    if |sel| > 0 {
      assert sel[0].username != username;
      assert forall k :: 0 <= k < |sel[1..]| ==> sel[1..][k] == sel[k + 1];
      NoneRemoved(sel[1..], username);
      assert [sel[0]] + sel[1..] == sel;
    }
  }

  /** `v && v.toLowerCase().includes(term)` on a worker's field: false for a value that is
      falsy in JavaScript, Err where a truthy value is not text (it has no toLowerCase), an
      empty array or object included. */
  function Hit(v: Option<Value>, term: string): (r: Result<bool, string>)
    ensures v.None? ==> r == Ok(false)
    ensures v.Some? && v.value.Str? ==> r == Ok(v.value.s != "" && Text.Contains(Text.Lower(v.value.s), term))
    ensures r.Err? <==> v.Some? && JsTruthy(v.value) && !v.value.Str?
  {
    if v.None? || !JsTruthy(v.value) then Ok(false)
    else if v.value.Str? then Ok(Text.Contains(Text.Lower(v.value.s), term))
    else Err("TypeError: toLowerCase is not a function")
  }

  /** The filter's test on one worker: its name, and only when that misses, its user name. */
  function WorkerHit(w: Value, term: string): Result<bool, string> {
    match Hit(Get(w, "name"), term)
    case Err(e) => Err(e)
    case Ok(true) => Ok(true)
    case Ok(false) => Hit(Get(w, "username"), term)
  }

  /** filterWorkers: the workers whose lower-cased name or user name contains the lower-cased
      search term, in order; Err where one of them throws. */
  function FilterWorkers(all: seq<Value>, search: string): (r: Result<seq<Value>, string>)
    ensures r.Ok? <==> forall k :: 0 <= k < |all| ==> WorkerHit(all[k], Text.Lower(search)).Ok?
    ensures r.Ok? ==> forall w :: w in r.value <==> w in all && WorkerHit(w, Text.Lower(search)) == Ok(true)
  {
    var term := Text.Lower(search);
    if |all| == 0 then Ok([])
    else
      match WorkerHit(all[0], term)
      case Err(e) => Err(e)
      case Ok(b) =>
        match FilterWorkers(all[1..], search)
        case Err(e) =>
          assert exists k :: 1 <= k < |all| && WorkerHit(all[k], term).Err? by {
            var k :| 0 <= k < |all[1..]| && WorkerHit(all[1..][k], term).Err?;
            assert all[1..][k] == all[k + 1];
          }
          Err(e)
        case Ok(rest) =>
          assert forall k :: 1 <= k < |all| ==> all[1..][k - 1] == all[k];
          assert forall w :: w in all <==> w == all[0] || w in all[1..];
          Ok(if b then [all[0]] + rest else rest)
  }

  /** The filter test with the term fixed: kept where it answers true. */
  function HitOf(term: string): Value -> bool {
    w => WorkerHit(w, term) == Ok(true)
  }

  /** Where no worker throws, the filter keeps exactly the hits, in their order. */
  lemma {:induction false} FilterWorkersInOrder(all: seq<Value>, search: string)
    requires FilterWorkers(all, search).Ok?
    ensures FilterWorkers(all, search).value == Lists.Filter(all, HitOf(Text.Lower(search)))
  {
    if |all| > 0 {
      FilterWorkersInOrder(all[1..], search);
    }
  }

  /** A field that shows: non-empty text. */
  predicate Shown(v: Value) {
    v.Str? && v.s != ""
  }

  /** The workers the server lists never make the filter throw, and an empty search keeps
      exactly those with a non-empty name or e-mail. */
  lemma ServedWorkerFilters(u: Sheet.Dict, term: string)
    ensures WorkerHit(CreateProject.WorkerOf(u), term).Ok?
    ensures WorkerHit(CreateProject.WorkerOf(u), "")
            == Ok(Shown(CreateProject.AsValue(Sheet.Lookup(u, "name"))) || Shown(CreateProject.AsValue(Sheet.Lookup(u, "email"))))
  {
    var w := CreateProject.WorkerOf(u);
    GetStep(w.fields, "name");
    GetStep(w.fields, "username");
    GetStep(w.fields[..1], "username");
    assert w.fields[1].1.Str? ==> Text.OccursAt(Text.Lower(w.fields[1].1.s), "", 0);
    assert w.fields[0].1.Str? ==> Text.OccursAt(Text.Lower(w.fields[0].1.s), "", 0);
  }

  // ---------------------------------------------------------------- items

  /** A line of the project's item list. */
  datatype ProjectItem = ProjectItem(itemId: Option<Value>, itemName: Value, quantity: int)

  /** `item.product_name && item.product_name.toLowerCase() === name.toLowerCase()`: Err
      where a name that is truthy in JavaScript is not text, an empty array or object
      included. */
  function NameIs(item: Value, name: string): (r: Result<bool, string>)
    ensures GetOrNull(item, "product_name").Str? ==>
              r == Ok(GetOrNull(item, "product_name").s != "" && Text.Lower(GetOrNull(item, "product_name").s) == Text.Lower(name))
    ensures r.Err? <==> JsTruthy(GetOrNull(item, "product_name")) && !GetOrNull(item, "product_name").Str?
  {
    var p := GetOrNull(item, "product_name");
    if !JsTruthy(p) then Ok(false)
    else if p.Str? then Ok(Text.Lower(p.s) == Text.Lower(name))
    else Err("TypeError: item.product_name.toLowerCase is not a function")
  }

  /** allItems.find(...): the first catalogue item with that name; Err where an item before
      it throws. */
  function CatalogFind(catalog: seq<Value>, name: string): (r: Result<Option<nat>, string>)
    ensures r.Ok? && r.value.Some? ==> r.value.value < |catalog| && NameIs(catalog[r.value.value], name) == Ok(true)
                                       && forall j :: 0 <= j < r.value.value ==> NameIs(catalog[j], name) == Ok(false)
    ensures r.Ok? && r.value.None? ==> forall j :: 0 <= j < |catalog| ==> NameIs(catalog[j], name) == Ok(false)
    ensures r.Err? ==> exists j :: 0 <= j < |catalog| && NameIs(catalog[j], name).Err?
  {
    var tests := seq(|catalog|, k requires 0 <= k < |catalog| => NameIs(catalog[k], name));
    assert forall j :: 0 <= j < |catalog| ==> tests[j] == NameIs(catalog[j], name);
    Lists.FirstTrue(tests)
  }

  /** projectItems.find(item => item.item_id === id) */
  function ItemIndex(items: seq<ProjectItem>, id: Option<Value>): (r: Option<nat>)
    ensures r.Some? ==> r.value < |items| && items[r.value].itemId == id
    ensures r.None? <==> forall k :: 0 <= k < |items| ==> items[k].itemId != id
  {
    if |items| == 0 then None
    else if items[0].itemId == id then Some(0)
    else
      match ItemIndex(items[1..], id)
      case None =>
        assert forall k :: 1 <= k < |items| ==> items[1..][k - 1] == items[k];
        None
      case Some(j) => Some(j + 1)
  }

  /** No two lines have the same item id. */
  predicate UniqueIds(items: seq<ProjectItem>) {
    forall i, j :: 0 <= i < j < |items| ==> items[i].itemId != items[j].itemId
  }

  /** Every line asks for at least one unit. */
  predicate AllPositive(items: seq<ProjectItem>) {
    forall k :: 0 <= k < |items| ==> items[k].quantity >= 1
  }

  /** The units the list asks for in all. */
  function Units(items: seq<ProjectItem>): int {
    if |items| == 0 then 0 else items[0].quantity + Units(items[1..])
  }

  lemma {:induction false} UnitsAppend(items: seq<ProjectItem>, x: ProjectItem)
    ensures Units(items + [x]) == Units(items) + x.quantity
    decreases |items|
  {
    if |items| > 0 {
      assert (items + [x])[1..] == items[1..] + [x];
      UnitsAppend(items[1..], x);
    }
  }

  lemma {:induction false} UnitsUpdate(items: seq<ProjectItem>, i: nat, x: ProjectItem)
    requires i < |items|
    ensures Units(items[i := x]) == Units(items) - items[i].quantity + x.quantity
    decreases |items|
  {
    if i == 0 {
      assert items[i := x][1..] == items[1..];
    } else {
      assert items[i := x][1..] == items[1..][i - 1 := x];
      UnitsUpdate(items[1..], i - 1, x);
    }
  }

  /** The list after one more unit of the item with that id: its line gains a unit, or a
      line with one unit is added at the end. */
  function Bump(items: seq<ProjectItem>, id: Option<Value>, name: Value): (r: seq<ProjectItem>)
    ensures exists k :: 0 <= k < |r| && r[k].itemId == id
    ensures Units(r) == Units(items) + 1
    ensures |r| == |items| + 1 <==> ItemIndex(items, id).None?
    ensures |r| == |items| || |r| == |items| + 1
    ensures UniqueIds(items) ==> UniqueIds(r)
    ensures AllPositive(items) ==> AllPositive(r)
  {
    match ItemIndex(items, id)
    case Some(i) =>
      var x := items[i].(quantity := items[i].quantity + 1);
      UnitsUpdate(items, i, x);
      assert items[i := x][i].itemId == id;
      items[i := x]
    case None =>
      var x := ProjectItem(id, name, 1);
      UnitsAppend(items, x);
      var r := items + [x];
      assert r[|items|].itemId == id;
      r
  }

  /** addSelectedItem: the trimmed search text must name a catalogue item (exactly, ignoring
      case); that item's line gains one unit, or a new line with one unit is added. */
  function AddSelectedItem(items: seq<ProjectItem>, catalog: seq<Value>, input: string): (r: Result<seq<ProjectItem>, string>)
    ensures Text.JsTrim(input) == "" ==> r == Err("Please select an item first")
    ensures Text.JsTrim(input) != "" && CatalogFind(catalog, Text.JsTrim(input)) == Ok(None) ==>
              r == Err("Item not found in catalog")
    ensures r.Ok? ==> exists m :: 0 <= m < |catalog| && NameIs(catalog[m], Text.JsTrim(input)) == Ok(true)
                                  && r.value == Bump(items, Get(catalog[m], "article_number"), GetOrNull(catalog[m], "product_name"))
  {
    var name := Text.JsTrim(input);
    if name == "" then Err("Please select an item first")
    else
      match CatalogFind(catalog, name)
      case Err(e) => Err(e)
      case Ok(None) => Err("Item not found in catalog")
      case Ok(Some(m)) => Ok(Bump(items, Get(catalog[m], "article_number"), GetOrNull(catalog[m], "product_name")))
  }

  /** updateItemQuantity: a whole number above zero replaces the line's quantity; anything
      else leaves the list as it was. */
  function UpdateItemQuantity(items: seq<ProjectItem>, idx: nat, value: string): (r: seq<ProjectItem>)
    requires idx < |items|
    ensures |r| == |items| && forall k :: 0 <= k < |r| && k != idx ==> r[k] == items[k]
    ensures r[idx].itemId == items[idx].itemId && r[idx].itemName == items[idx].itemName
    ensures Numerals.JsParseInt(value).Some? && Numerals.JsParseInt(value).value > 0 ==>
              r[idx].quantity == Numerals.JsParseInt(value).value
    ensures Numerals.JsParseInt(value).None? || Numerals.JsParseInt(value).value <= 0 ==> r == items
    ensures AllPositive(items) ==> AllPositive(r)
    ensures UniqueIds(items) ==> UniqueIds(r)
  {
    match Numerals.JsParseInt(value)
    case Some(q) => if q > 0 then items[idx := items[idx].(quantity := q)] else items
    case None => items
  }

  // ---------------------------------------------------------------- submitting

  /** The form's own inputs as the page holds them. */
  datatype Form = Form(projectNumber: string, customerName: string, startDate: string, endDate: string)

  function WorkerJson(w: Worker): Value {
    Obj([("username", Str(w.username)), ("name", Str(w.name))])
  }

  /** A line as JSON.stringify writes it: an undefined item id is left out. */
  function ItemJson(it: ProjectItem): Value {
    Obj((if it.itemId.Some? then [("item_id", it.itemId.value)] else [])
        + [("item_name", it.itemName), ("quantity", Num(it.quantity))])
  }

  function WorkersJson(sel: seq<Worker>): Value {
    Arr(seq(|sel|, k requires 0 <= k < |sel| => WorkerJson(sel[k])))
  }

  function ItemsJson(items: seq<ProjectItem>): Value {
    Arr(seq(|items|, k requires 0 <= k < |items| => ItemJson(items[k])))
  }

  /** The body sent: trimmed number and customer, the workers, the dates, the items. */
  function Body(f: Form, sel: seq<Worker>, items: seq<ProjectItem>): Value {
    Obj([("project_number", Str(Text.JsTrim(f.projectNumber))), ("customer_name", Str(Text.JsTrim(f.customerName))),
         ("workers", WorkersJson(sel)), ("start_date", Str(f.startDate)), ("end_date", Str(f.endDate)),
         ("items", ItemsJson(items))])
  }

  /** submitProject: the checks in order (project number, a worker, both dates, an item),
      each refusing before any request; a form that passes them all is sent. */
  function SubmitProject(f: Form, sel: seq<Worker>, items: seq<ProjectItem>): (r: Result<Value, string>)
    ensures r.Ok? <==> Text.JsTrim(f.projectNumber) != "" && |sel| > 0 && f.startDate != "" && f.endDate != "" && |items| > 0
    ensures Text.JsTrim(f.projectNumber) == "" ==> r == Err("Project number is required")
    ensures Text.JsTrim(f.projectNumber) != "" && |sel| == 0 ==> r == Err("Please select at least one worker")
    ensures Text.JsTrim(f.projectNumber) != "" && |sel| > 0 && (f.startDate == "" || f.endDate == "") ==>
              r == Err("Please select both start and end dates")
    ensures r.Ok? ==> r.value == Body(f, sel, items)
  {
    if Text.JsTrim(f.projectNumber) == "" then Err("Project number is required")
    else if |sel| == 0 then Err("Please select at least one worker")
    else if f.startDate == "" || f.endDate == "" then Err("Please select both start and end dates")
    else if |items| == 0 then Err("Please add at least one item to the project")
    else Ok(Body(f, sel, items))
  }

  /** A form the page sends is one the handler creates: answered 200, stored with the
      chosen workers and items as lists that read back unchanged. */
  lemma SubmittedIsCreated(f: Form, sel: seq<Worker>, items: seq<ProjectItem>, user: Option<string>, id: string,
                           now: string, t: Sheet.Table)
    requires SubmitProject(f, sel, items).Ok?
    ensures var body := SubmitProject(f, sel, items).value;
            var (resp, t') := CreateProject.CreateProjectApi(body, user, id, now, t);
            resp.status == 200 && |t'| == |t| + 1
            && JsonCodec.Decode(t'[|t|][7]) == Some(GetOr(body, "workers", Arr([])))
            && GetOr(body, "workers", Arr([])) == WorkersJson(sel)
  {
    var body := Body(f, sel, items);
    BodyReads(f, sel, items);
    assert CreateProject.CreateProjectApi(body, user, id, now, t).0.status == 200;
    CreateProject.CreatedRow(body, user, id, now, t);
  }

  /** The body names the trimmed project number and the chosen workers. */
  lemma BodyReads(f: Form, sel: seq<Worker>, items: seq<ProjectItem>)
    ensures Get(Body(f, sel, items), "project_number") == Some(Str(Text.JsTrim(f.projectNumber)))
    ensures Get(Body(f, sel, items), "workers") == Some(WorkersJson(sel))
  {
    var fs := Body(f, sel, items).fields;
    Carts.GetLast([], "project_number", fs[0].1, fs[1..]);
    assert fs == [] + [("project_number", fs[0].1)] + fs[1..];
    Carts.GetLast(fs[..2], "workers", fs[2].1, fs[3..]);
    assert fs == fs[..2] + [("workers", fs[2].1)] + fs[3..];
  }
}
