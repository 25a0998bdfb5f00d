/** The take page's cart: lines added by scanning a QR code, by picking a suggestion or from
    the project page, edited in place, and submitted as a summary of takes that the confirm
    handler moves stock for and the project insert records. */
module TakeCart {
  import opened Wrappers
  import opened Json
  import opened Carts
  import ItemApi
  import ProjectItems

  /** selectItem: a line with quantity one is pushed unless a line already holds the item's
      article number. */
  function SelectItem(cart: seq<Line>, item: Value): (r: seq<Line>)
    ensures cart <= r
    ensures |r| == |cart| + 1 <==> forall k :: 0 <= k < |cart| ==> !Same(cart[k].item, item, "article_number")
    ensures |r| != |cart| + 1 ==> r == cart
    ensures |r| == |cart| + 1 ==> r[|cart|] == Line(item, Int(1))
    ensures exists k :: 0 <= k < |r| && Same(r[k].item, item, "article_number")
    ensures Distinct(cart, ByArticle) ==> Distinct(r, ByArticle)
    ensures AllHeld(cart) ==> AllHeld(r)
  {
    var line := Line(item, Int(1));
    AddNewKeepsDistinct(cart, ByArticle, line);
    AddNew(cart, ByArticle, item, line)
  }

  /** handleScan: an answer without a product name is "Not found" and changes nothing;
      otherwise the item is added as selectItem adds it. */
  function Scan(cart: seq<Line>, item: Value): (r: Result<seq<Line>, string>)
    ensures r.Err? <==> !Found(item)
    ensures r.Ok? ==> r.value == SelectItem(cart, item)
  {
    if !Found(item) then Err("QR code did not match any article.") else Ok(SelectItem(cart, item))
  }

  /** addItemForTake: merges into the first line with the same id (===), otherwise pushes the
      item with the added quantity. */
  function AddItemForTake(cart: seq<Line>, item: Value, qty: Value): (r: seq<Line>)
    ensures Find(cart, ById, item).None? ==> r == cart + [Line(item, AddQty(qty))]
    ensures Find(cart, ById, item).Some? ==>
              var i := Find(cart, ById, item).value;
              |r| == |cart| && r[i].item == cart[i].item
              && (cart[i].qty.Int? && AddQty(qty).Int? ==> r[i].qty == Int(cart[i].qty.i + AddQty(qty).i))
              && forall k :: 0 <= k < |r| && k != i ==> r[k] == cart[k]
    ensures AllHeld(cart) ==> AllHeld(r)
  {
    MergeAdd(cart, ById, item, qty, item)
  }

  /** A summary entry: the line's article number and product name (left out where the item
      has none), quantity parseInt(quantity) || 1, action "take". */
  function Entry(l: Line): Value {
    Obj(Copied(l.item, "article_number") + Copied(l.item, "product_name")
        + [("quantity", Num(OrOne(l.qty))), ("action", Str("take"))])
  }

  /** What an entry says: the item's article number and product name, the line's quantity
      (one where the line holds NaN), and the action "take". */
  lemma EntryReads(l: Line)
    ensures Get(Entry(l), "article_number") == Get(l.item, "article_number")
    ensures Get(Entry(l), "product_name") == Get(l.item, "product_name")
    ensures Get(Entry(l), "action") == Some(Str("take"))
    ensures Get(Entry(l), "quantity") == Some(Num(OrOne(l.qty)))
    ensures Held(l.qty) ==> OrOne(l.qty) >= 1 && (l.qty.Int? ==> OrOne(l.qty) == l.qty.i)
  {
    var c := Copied(l.item, "article_number") + Copied(l.item, "product_name");
    var tail := [("quantity", Num(OrOne(l.qty))), ("action", Str("take"))];
    CopiedRead(l.item, tail);
    GetLast(c + [("quantity", Num(OrOne(l.qty)))], "action", Str("take"), []);
    assert c + tail == c + [("quantity", Num(OrOne(l.qty)))] + [("action", Str("take"))] + [];
    GetLast(c, "quantity", Num(OrOne(l.qty)), [("action", Str("take"))]);
    assert c + tail == c + [("quantity", Num(OrOne(l.qty)))] + [("action", Str("take"))];
  }

  function Summary(cart: seq<Line>): (s: seq<Value>)
    ensures |s| == |cart| && forall k :: 0 <= k < |cart| ==> s[k] == Entry(cart[k])
  {
    seq(|cart|, k requires 0 <= k < |cart| => Entry(cart[k]))
  }

  /** submitItems: an empty cart sends nothing (a warning instead); otherwise the confirm
      with the summary and the project number, then, only after a successful confirm and
      only with a project number, the project-items insert with the same summary. */
  function Submit(cart: seq<Line>, projectInput: Option<string>, confirmOk: bool): (rs: seq<Request>)
    ensures |cart| == 0 <==> rs == []
    ensures |cart| > 0 ==> rs[0] == Request("/api/confirm", [("summary", Arr(Summary(cart))), ("project_number", Str(ProjectNumber(projectInput)))])
    ensures |cart| > 0 ==> (|rs| == 2 <==> confirmOk && ProjectNumber(projectInput) != "")
    ensures |rs| <= 2 && (|rs| == 2 ==> rs[1] == Request("/api/insert_project_items", [("project_number", Str(ProjectNumber(projectInput))), ("items", Arr(Summary(cart)))]))
  {
    if |cart| == 0 then []
    else
      var summary := Arr(Summary(cart));
      var pn := ProjectNumber(projectInput);
      [Request("/api/confirm", [("summary", summary), ("project_number", Str(pn))])]
      + ProjectInsert("/api/insert_project_items", summary, pn, confirmOk)
  }

  /** Every entry the take page sends moves stock at the confirm handler, whatever its return
      type, and carries a quantity of at least one when the cart's quantities are ones it can
      hold. */
  lemma EntriesMoveStock(l: Line, rt: string)
    ensures ItemApi.MovesStock(Entry(l), rt)
    ensures GetOrNull(Entry(l), "quantity").Num?
    ensures Held(l.qty) ==> GetOrNull(Entry(l), "quantity").n >= 1
  {
    EntryReads(l);
  }

  /** The project insert records every entry: item id the article number, item name the
      product name, and the entry's quantity. */
  lemma EntriesRecorded(l: Line)
    ensures ProjectItems.NewEntry(ProjectItems.Taken, Entry(l))
            == Ok(Obj([("item_id", GetOrNull(l.item, "article_number")),
                       ("item_name", GetOr(l.item, "product_name", Str(""))),
                       ("quantity", Num(OrOne(l.qty)))]))
  {
    EntryReads(l);
  }
}
