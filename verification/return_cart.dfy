/** The return page's cart: like the take page's, but every line carries a return type
    ("returned", "broken" or "used"), and the summary tells the confirm handler to put stock
    back only for lines returned whole. */
module ReturnCart {
  import opened Wrappers
  import opened Json
  import opened Carts
  import Text
  import Numerals
  import ItemApi
  import ProjectItems

  /** {...item, return_type: t}: the item's own fields (none for a value that is not an
      object) with the return type set. */
  function Typed(item: Value, t: string): (v: Value)
    ensures Get(v, "return_type") == Some(Str(t))
    ensures Get(v, "id") == Get(item, "id")
    ensures Get(v, "article_number") == Get(item, "article_number")
    ensures Get(v, "product_name") == Get(item, "product_name")
  {
    var o := if item.Obj? then item else Obj([]);
    GetSet(o, "return_type", Str(t), "return_type");
    GetSet(o, "return_type", Str(t), "id");
    GetSet(o, "return_type", Str(t), "article_number");
    GetSet(o, "return_type", Str(t), "product_name");
    Set(o, "return_type", Str(t))
  }

  /** A line added by this page: the item typed "returned". */
  function NewLine(item: Value, q: JsNum): Line {
    Line(Typed(item, "returned"), q)
  }

  /** Every line's return type is text, as every edit on this page leaves it. */
  predicate TextTypes(cart: seq<Line>) {
    forall k :: 0 <= k < |cart| ==> GetOrNull(cart[k].item, "return_type").Str?
  }

  /** A line this page pushes keeps every return type text. */
  lemma PushKeepsTypes(cart: seq<Line>, item: Value, q: JsNum)
    ensures TextTypes(cart) ==> TextTypes(cart + [NewLine(item, q)])
  {
    var r := cart + [NewLine(item, q)];
    assert GetOrNull(r[|cart|].item, "return_type") == Str("returned");
    assert forall k :: 0 <= k < |cart| ==> r[k] == cart[k];
  }

  // ---------------------------------------------------------------- restoring a saved cart

  /** A saved quantity as the page reads it back with parseInt, which reads String() of the
      value: a number comes back as itself, and null (NaN saved by JSON.stringify) as NaN. */
  function SavedQty(v: Value): (q: JsNum)
    ensures v.Num? ==> q == Int(v.n)
    ensures v.Null? ==> q.NaN?
    ensures v.Str? ==> q == ParseText(v.s)
  {
    StringReads(v);
    Numerals.JsParseIntNoDigit("null");
    ParseText(JsString(v))
  }

  /** A restored line: a saved line whose return type is falsy in JavaScript gets
      "returned"; one with a truthy type, an empty array or object included, keeps it. */
  function Restored(saved: Value): (l: Line)
    ensures JsTruthy(GetOrNull(saved, "return_type")) ==> l.item == saved
    ensures !JsTruthy(GetOrNull(saved, "return_type")) ==> GetOrNull(l.item, "return_type") == Str("returned")
    ensures JsTruthy(GetOrNull(l.item, "return_type"))
    ensures l.qty == SavedQty(GetOrNull(saved, "quantity"))
  {
    var t := GetOrNull(saved, "return_type");
    Line(if JsTruthy(t) then saved else Typed(saved, "returned"), SavedQty(GetOrNull(saved, "quantity")))
  }

  /** The cart restored from the saved lines: one line per saved one, in order. */
  function Restore(saved: seq<Value>): (cart: seq<Line>)
    ensures |cart| == |saved|
    ensures forall k :: 0 <= k < |saved| ==> cart[k] == Restored(saved[k])
    ensures forall k :: 0 <= k < |cart| ==> JsTruthy(GetOrNull(cart[k].item, "return_type"))
  {
    seq(|saved|, k requires 0 <= k < |saved| => Restored(saved[k]))
  }

  // ---------------------------------------------------------------- edits

  /** handleScan: an answer without a product name is "Item not found."; an item that a line
      already holds by id or by article number is "Already added."; otherwise a line typed
      "returned" with quantity one is pushed. */
  function Scan(cart: seq<Line>, item: Value): (r: Result<seq<Line>, string>)
    ensures r.Err? <==> !Found(item) || Find(cart, ByIdOrArticle, item).Some?
    ensures r.Ok? ==> r.value == cart + [NewLine(item, Int(1))]
    ensures r.Ok? && Distinct(cart, ByIdOrArticle) ==> Distinct(r.value, ByIdOrArticle)
    ensures r.Ok? && TextTypes(cart) ==> TextTypes(r.value)
    ensures r.Ok? && AllHeld(cart) ==> AllHeld(r.value)
  {
    if !Found(item) then Err("Item not found.")
    else if Find(cart, ByIdOrArticle, item).Some? then Err("Already added.")
    else
      AddNewKeepsDistinct(cart, ByIdOrArticle, NewLine(item, Int(1)));
      PushKeepsTypes(cart, item, Int(1));
      Ok(cart + [NewLine(item, Int(1))])
  }

  /** selectItem: a line typed "returned" with quantity one is pushed unless a line already
      holds the item's article number. */
  function SelectItem(cart: seq<Line>, item: Value): (r: seq<Line>)
    ensures cart <= r
    ensures |r| == |cart| + 1 <==> forall k :: 0 <= k < |cart| ==> !Same(cart[k].item, item, "article_number")
    ensures |r| != |cart| + 1 ==> r == cart
    ensures |r| == |cart| + 1 ==> r[|cart|] == NewLine(item, Int(1))
    ensures Distinct(cart, ByArticle) ==> Distinct(r, ByArticle)
    ensures TextTypes(cart) ==> TextTypes(r)
    ensures AllHeld(cart) ==> AllHeld(r)
  {
    var line := NewLine(item, Int(1));
    AddNewKeepsDistinct(cart, ByArticle, line);
    PushKeepsTypes(cart, item, Int(1));
    AddNew(cart, ByArticle, item, line)
  }

  /** updateReturnType: the line at idx takes the chosen type, or "returned" for an empty
      choice; nothing else changes. */
  function UpdateReturnType(cart: seq<Line>, idx: nat, choice: string): (r: seq<Line>)
    requires idx < |cart|
    ensures |r| == |cart| && r[idx].qty == cart[idx].qty
    ensures GetOrNull(r[idx].item, "return_type") == Str(if choice == "" then "returned" else choice)
    ensures Get(r[idx].item, "id") == Get(cart[idx].item, "id")
    ensures Get(r[idx].item, "article_number") == Get(cart[idx].item, "article_number")
    ensures forall k :: 0 <= k < |r| && k != idx ==> r[k] == cart[k]
    ensures TextTypes(cart) ==> TextTypes(r)
  {
    cart[idx := Line(Typed(cart[idx].item, if choice == "" then "returned" else choice), cart[idx].qty)]
  }

  /** addItemForReturn: merges into the first line with the same truthy id or the same
      article number, otherwise pushes the item typed "returned" with the added quantity. */
  function AddItemForReturn(cart: seq<Line>, item: Value, qty: Value): (r: seq<Line>)
    ensures Find(cart, ByTruthyIdOrArticle, item).None? ==> r == cart + [NewLine(item, AddQty(qty))]
    ensures Find(cart, ByTruthyIdOrArticle, item).Some? ==>
              var i := Find(cart, ByTruthyIdOrArticle, item).value;
              |r| == |cart| && r[i].item == cart[i].item
              && (cart[i].qty.Int? && AddQty(qty).Int? ==> r[i].qty == Int(cart[i].qty.i + AddQty(qty).i))
              && forall k :: 0 <= k < |r| && k != i ==> r[k] == cart[k]
    ensures TextTypes(cart) ==> TextTypes(r)
    ensures AllHeld(cart) ==> AllHeld(r)
  {
    MergeAdd(cart, ByTruthyIdOrArticle, item, qty, Typed(item, "returned"))
  }

  // ---------------------------------------------------------------- the summary

  /** (i.return_type || "returned").toLowerCase(): Err where a return type that is truthy
      in JavaScript is not text (the call throws), an empty array or object included. */
  function ReturnType(l: Line): (r: Result<string, string>)
    ensures !JsTruthy(GetOrNull(l.item, "return_type")) ==> r == Ok("returned")
    ensures GetOrNull(l.item, "return_type").Str? ==> r.Ok?
    ensures r.Err? <==> JsTruthy(GetOrNull(l.item, "return_type")) && !GetOrNull(l.item, "return_type").Str?
    ensures r.Ok? && GetOrNull(l.item, "return_type").Str? && GetOrNull(l.item, "return_type").s != "" ==>
              r.value == Text.Lower(GetOrNull(l.item, "return_type").s)
  {
    var t := GetOrNull(l.item, "return_type");
    if !JsTruthy(t) then Ok("returned")
    else if t.Str? then Ok(Text.Lower(t.s))
    else Err("TypeError: i.return_type.toLowerCase is not a function")
  }

  /** The fields after the copied article number and product name. */
  function Tail(q: int, rt: string): seq<(string, Value)> {
    [("quantity", Num(q)), ("action", Str("return")), ("return_type", Str(rt)), ("apply_to_stock", Bool(rt == "returned"))]
  }

  /** A summary entry: article number, product name, parseInt(quantity) || 1, action
      "return", the lower-cased return type, and apply_to_stock exactly for "returned". */
  function Entry(l: Line): (r: Result<Value, string>)
    ensures r.Err? <==> ReturnType(l).Err?
  {
    match ReturnType(l)
    case Err(e) => Err(e)
    case Ok(rt) => Ok(Obj(Copied(l.item, "article_number") + Copied(l.item, "product_name") + Tail(OrOne(l.qty), rt)))
  }

  /** What an entry says: the item's article number and product name, the line's quantity
      (one for NaN), action "return", the lower-cased type, and apply_to_stock true exactly
      when that type is "returned". */
  lemma EntryReads(l: Line)
    requires ReturnType(l).Ok?
    ensures var e := Entry(l).value; var rt := ReturnType(l).value;
            Get(e, "article_number") == Get(l.item, "article_number")
            && Get(e, "product_name") == Get(l.item, "product_name")
            && Get(e, "quantity") == Some(Num(OrOne(l.qty)))
            && Get(e, "action") == Some(Str("return"))
            && Get(e, "return_type") == Some(Str(rt))
            && Get(e, "apply_to_stock") == Some(Bool(rt == "returned"))
  {
    var rt := ReturnType(l).value;
    var c := Copied(l.item, "article_number") + Copied(l.item, "product_name");
    CopiedRead(l.item, Tail(OrOne(l.qty), rt));
    TailReads(c, OrOne(l.qty), rt);
  }

  /** The four trailing fields read as written, whatever fields come before them. */
  lemma TailReads(c: seq<(string, Value)>, n: int, rt: string)
    ensures var e := Obj(c + Tail(n, rt));
            Get(e, "quantity") == Some(Num(n))
            && Get(e, "action") == Some(Str("return"))
            && Get(e, "return_type") == Some(Str(rt))
            && Get(e, "apply_to_stock") == Some(Bool(rt == "returned"))
  {
    var q := Num(n);
    var ap := Bool(rt == "returned");
    assert c + Tail(n, rt) == c + [("quantity", q)] + [("action", Str("return")), ("return_type", Str(rt)), ("apply_to_stock", ap)];
    GetLast(c, "quantity", q, [("action", Str("return")), ("return_type", Str(rt)), ("apply_to_stock", ap)]);
    assert c + Tail(n, rt) == (c + [("quantity", q)]) + [("action", Str("return"))] + [("return_type", Str(rt)), ("apply_to_stock", ap)];
    GetLast(c + [("quantity", q)], "action", Str("return"), [("return_type", Str(rt)), ("apply_to_stock", ap)]);
    assert c + Tail(n, rt) == (c + [("quantity", q), ("action", Str("return"))]) + [("return_type", Str(rt))] + [("apply_to_stock", ap)];
    GetLast(c + [("quantity", q), ("action", Str("return"))], "return_type", Str(rt), [("apply_to_stock", ap)]);
    assert c + Tail(n, rt) == (c + [("quantity", q), ("action", Str("return")), ("return_type", Str(rt))]) + [("apply_to_stock", ap)] + [];
    GetLast(c + [("quantity", q), ("action", Str("return")), ("return_type", Str(rt))], "apply_to_stock", ap, []);
  }

  /** The summary of the whole cart; Err where a line's return type throws (every such
      line throws the same TypeError). */
  function Summary(cart: seq<Line>): (r: Result<seq<Value>, string>)
    ensures r.Ok? <==> forall k :: 0 <= k < |cart| ==> ReturnType(cart[k]).Ok?
    ensures r.Ok? ==> |r.value| == |cart| && forall k :: 0 <= k < |cart| ==> Entry(cart[k]) == Ok(r.value[k])
  {
    if forall k :: 0 <= k < |cart| ==> ReturnType(cart[k]).Ok? then
      Ok(seq(|cart|, k requires 0 <= k < |cart| => Entry(cart[k]).value))
    else Err("TypeError: i.return_type.toLowerCase is not a function")
  }

  /** A cart whose return types are text always has a summary. */
  lemma TextTypesSummarise(cart: seq<Line>)
    requires TextTypes(cart)
    ensures Summary(cart).Ok?
  {
    forall k | 0 <= k < |cart| ensures ReturnType(cart[k]).Ok? {
    }
  }

  /** submitItems: an empty cart sends nothing; otherwise the confirm with the summary, then,
      only after a successful confirm and only with a project number, the project-returns
      insert with the same summary. A summary that throws sends nothing. */
  function Submit(cart: seq<Line>, projectInput: Option<string>, confirmOk: bool): (rs: seq<Request>)
    ensures rs != [] <==> |cart| > 0 && Summary(cart).Ok?
    ensures rs != [] ==> rs[0] == Request("/api/confirm", [("summary", Arr(Summary(cart).value))])
    ensures rs != [] ==> (|rs| == 2 <==> confirmOk && ProjectNumber(projectInput) != "")
    ensures |rs| <= 2 && (|rs| == 2 ==> rs[1] == Request("/api/insert_project_returns", [("project_number", Str(ProjectNumber(projectInput))), ("items", Arr(Summary(cart).value))]))
  {
    if |cart| == 0 then []
    else
      match Summary(cart)
      case Err(_) => []
      case Ok(s) =>
        [Request("/api/confirm", [("summary", Arr(s))])]
        + ProjectInsert("/api/insert_project_returns", Arr(s), ProjectNumber(projectInput), confirmOk)
  }

  /** At the confirm handler an entry moves stock exactly when its return type is
      "returned": broken and used returns are only logged. */
  lemma EntryMovesIff(l: Line, rt: string)
    requires ReturnType(l).Ok?
    ensures ItemApi.MovesStock(Entry(l).value, rt) <==> ReturnType(l).value == "returned"
  {
    EntryReads(l);
  }

  /** The project insert records every entry with its article number, product name,
      quantity and return type. */
  lemma EntriesRecorded(l: Line)
    requires ReturnType(l).Ok?
    ensures ProjectItems.NewEntry(ProjectItems.Returned, Entry(l).value)
            == Ok(Obj([("item_id", GetOrNull(l.item, "article_number")),
                       ("item_name", GetOr(l.item, "product_name", Str(""))),
                       ("quantity", Num(OrOne(l.qty))),
                       ("return_type", Str(Text.Lower(ReturnType(l).value)))]))
  {
    EntryReads(l);
    var e := Entry(l).value;
    ProjectItems.ReturnEntryShape(e, OrOne(l.qty), ReturnType(l).value);
  }
}
