/** The add-stock page's cart: lines added by scanning or picking, a running total of the
    quantities, and the summary sent to the confirm handler. As written the summary's lines
    are plain returns, which the handler logs without changing stock; the corrected summary
    marks them as applying to stock. */
module AddStockCart {
  import opened Wrappers
  import opened Json
  import opened Carts
  import ItemApi
  import Coerce
  import Http

  /** handleScan: an answer without a product name is "Item not found."; an item whose id a
      line already has (=== on the id) is "Already added."; otherwise the item is pushed with
      quantity one. */
  function Scan(cart: seq<Line>, item: Value): (r: Result<seq<Line>, string>)
    ensures r.Err? <==> !Found(item) || Find(cart, ById, item).Some?
    ensures r.Ok? ==> r.value == cart + [Line(item, Int(1))]
    ensures r.Ok? && Distinct(cart, ById) ==> Distinct(r.value, ById)
    ensures r.Ok? && AllHeld(cart) ==> AllHeld(r.value)
  {
    if !Found(item) then Err("Item not found.")
    else if Find(cart, ById, item).Some? then Err("Already added.")
    else
      AddNewKeepsDistinct(cart, ById, Line(item, Int(1)));
      Ok(cart + [Line(item, Int(1))])
  }

  /** selectItem: a line with quantity one is pushed unless a line already holds the item's
      article number. */
  function SelectItem(cart: seq<Line>, item: Value): (r: seq<Line>)
    ensures cart <= r
    ensures |r| == |cart| + 1 <==> forall k :: 0 <= k < |cart| ==> !Same(cart[k].item, item, "article_number")
    ensures |r| != |cart| + 1 ==> r == cart
    ensures |r| == |cart| + 1 ==> r[|cart|] == Line(item, Int(1))
    ensures Distinct(cart, ByArticle) ==> Distinct(r, ByArticle)
    ensures AllHeld(cart) ==> AllHeld(r)
  {
    AddNewKeepsDistinct(cart, ByArticle, Line(item, Int(1)));
    AddNew(cart, ByArticle, item, Line(item, Int(1)))
  }

  /** addItemForReturn on this page: merges into the first line with the same id, otherwise
      pushes the item with the added quantity. */
  function AddItem(cart: seq<Line>, item: Value, qty: Value): (r: seq<Line>)
    ensures Find(cart, ById, item).None? ==> r == cart + [Line(item, AddQty(qty))]
    ensures Find(cart, ById, item).Some? ==>
              var i := Find(cart, ById, item).value;
              |r| == |cart| && r[i] == Line(cart[i].item, Merged(cart[i].qty, AddQty(qty)))
              && forall k :: 0 <= k < |r| && k != i ==> r[k] == cart[k]
    ensures AllHeld(cart) ==> AllHeld(r)
  {
    MergeAdd(cart, ById, item, qty, item)
  }

  // ---------------------------------------------------------------- the total

  /** The displayed total: 0 plus every line's quantity in turn; one NaN makes it NaN. */
  function Total(cart: seq<Line>): (t: JsNum)
    ensures t.NaN? <==> exists k :: 0 <= k < |cart| && cart[k].qty.NaN?
  {
    if |cart| == 0 then Int(0)
    else
      var init := cart[..|cart| - 1];
      assert forall k :: 0 <= k < |init| ==> init[k] == cart[k];
      Plus(Total(init), cart[|cart| - 1].qty)
  }

  /** The total of two carts one after the other is the sum of their totals. */
  lemma {:induction false} TotalSplit(a: seq<Line>, b: seq<Line>)
    ensures Total(a + b) == Plus(Total(a), Total(b))
    decreases |b|
  {
    if |b| == 0 {
      assert a + b == a;
    } else {
      var init := b[..|b| - 1];
      assert (a + b)[..|a + b| - 1] == a + init;
      TotalSplit(a, init);
    }
  }

  /** Removing a line takes exactly its quantity off the total. */
  lemma TotalAfterRemove(cart: seq<Line>, idx: nat)
    requires idx < |cart|
    ensures Total(cart) == Plus(Total(RemoveAt(cart, idx)), cart[idx].qty)
  {
    RemoveAtSplits(cart, idx);
    TotalOfSplit(cart[..idx], cart[idx], cart[idx + 1..]);
  }

  /** A line between two parts of a cart adds its quantity to their total. */
  lemma TotalOfSplit(pre: seq<Line>, l: Line, post: seq<Line>)
    ensures Total(pre + [l] + post) == Plus(Total(pre + post), l.qty)
  {
    var front := pre + [l];
    assert front[..|front| - 1] == pre;
    TotalSplit(front, post);
    TotalSplit(pre, post);
    PlusSwap(Total(pre), l.qty, Total(post));
  }

  /** Adding b then c is adding c then b. */
  lemma PlusSwap(a: JsNum, b: JsNum, c: JsNum)
    ensures Plus(Plus(a, b), c) == Plus(Plus(a, c), b)
  {}

  /** A new line from a scan adds one to the total. */
  lemma TotalAfterScan(cart: seq<Line>, item: Value)
    requires Scan(cart, item).Ok?
    ensures Total(Scan(cart, item).value) == Plus(Total(cart), Int(1))
  {
    var r := Scan(cart, item).value;
    assert r[..|r| - 1] == cart;
  }

  /** Replacing a line takes its old quantity off the total and adds the new one. */
  lemma TotalAfterReplace(cart: seq<Line>, idx: nat, l: Line)
    requires idx < |cart|
    ensures Total(cart[idx := l]) == Plus(Total(RemoveAt(cart, idx)), l.qty)
  {
    TotalAfterRemove(cart[idx := l], idx);
    assert RemoveAt(cart[idx := l], idx) == RemoveAt(cart, idx);
  }

  /** Adding from the project page raises the total by the added quantity, as long as no
      line holds NaN. */
  lemma TotalAfterAdd(cart: seq<Line>, item: Value, qty: Value)
    requires forall k :: 0 <= k < |cart| ==> cart[k].qty.Int?
    ensures Total(AddItem(cart, item, qty)) == Plus(Total(cart), AddQty(qty))
  {
    var r := AddItem(cart, item, qty);
    match Find(cart, ById, item)
    case None =>
      assert r[..|r| - 1] == cart;
    case Some(i) =>
      assert r == cart[i := Line(cart[i].item, Merged(cart[i].qty, AddQty(qty)))];
      TotalAfterMerge(cart, i, AddQty(qty));
  }

  /** Merging a quantity into a line that holds a number raises the total by that quantity. */
  lemma TotalAfterMerge(cart: seq<Line>, i: nat, add: JsNum)
    requires i < |cart| && cart[i].qty.Int?
    ensures Total(cart[i := Line(cart[i].item, Merged(cart[i].qty, add))]) == Plus(Total(cart), add)
  {
    var l := Line(cart[i].item, Merged(cart[i].qty, add));
    TotalAfterReplace(cart, i, l);
    TotalAfterRemove(cart, i);
    PlusSwap(Total(RemoveAt(cart, i)), cart[i].qty, add);
  }

  // ---------------------------------------------------------------- the summary

  /** A summary entry as written: article number, the quantity as held (NaN written as null)
      and action "return", with neither a return type nor apply_to_stock. */
  function Entry(l: Line): Value {
    Obj(Copied(l.item, "article_number") + [("quantity", AsJson(l.qty)), ("action", Str("return"))])
  }

  /** The corrected entry: the same fields and apply_to_stock true, so that the confirm
      handler adds the quantity to stock. */
  function FixedEntry(l: Line): Value {
    Obj(Copied(l.item, "article_number") + [("quantity", AsJson(l.qty)), ("action", Str("return")), ("apply_to_stock", Bool(true))])
  }

  /** What an entry says: the item's article number, the quantity as held and the action
      "return", and no return type or apply_to_stock at all. */
  lemma EntryReads(l: Line)
    ensures Get(Entry(l), "article_number") == Get(l.item, "article_number")
    ensures Get(Entry(l), "quantity") == Some(AsJson(l.qty))
    ensures Get(Entry(l), "action") == Some(Str("return"))
    ensures !Has(Entry(l), "return_type") && !Has(Entry(l), "apply_to_stock")
  {
    var c := Copied(l.item, "article_number");
    var q := AsJson(l.qty);
    CopiedArticleRead(l.item, [("quantity", q), ("action", Str("return"))]);
    TailReads(c, q, "return_type");
    TailReads(c, q, "apply_to_stock");
    GetPast([], c, "return_type");
    GetPast([], c, "apply_to_stock");
    assert [] + c == c;
  }

  /** The quantity and action fields read as written, whatever fields come before them, and
      every other key reads as those fields do. */
  lemma TailReads(c: seq<(string, Value)>, q: Value, k: string)
    ensures var e := Obj(c + [("quantity", q), ("action", Str("return"))]);
            Get(e, "quantity") == Some(q) && Get(e, "action") == Some(Str("return"))
            && (k != "quantity" && k != "action" ==> Get(e, k) == Get(Obj(c), k))
  {
    var tail := [("quantity", q), ("action", Str("return"))];
    if k != "quantity" && k != "action" {
      GetPast(c, tail, k);
    }
    GetLast(c, "quantity", q, [("action", Str("return"))]);
    assert c + tail == c + [("quantity", q)] + [("action", Str("return"))];
    GetLast(c + [("quantity", q)], "action", Str("return"), []);
    assert c + tail == c + [("quantity", q)] + [("action", Str("return"))] + [];
  }

  /** The corrected entry reads as the entry as written, and apply_to_stock is true. */
  lemma FixedEntryReads(l: Line)
    ensures Get(FixedEntry(l), "article_number") == Get(l.item, "article_number")
    ensures Get(FixedEntry(l), "quantity") == Some(AsJson(l.qty))
    ensures Get(FixedEntry(l), "action") == Some(Str("return"))
    ensures Get(FixedEntry(l), "apply_to_stock") == Some(Bool(true))
  {
    var c := Copied(l.item, "article_number");
    var q := AsJson(l.qty);
    var tail := [("quantity", q), ("action", Str("return")), ("apply_to_stock", Bool(true))];
    CopiedArticleRead(l.item, tail);
    GetLast(c, "quantity", q, [("action", Str("return")), ("apply_to_stock", Bool(true))]);
    assert c + tail == c + [("quantity", q)] + [("action", Str("return")), ("apply_to_stock", Bool(true))];
    GetLast(c + [("quantity", q)], "action", Str("return"), [("apply_to_stock", Bool(true))]);
    assert c + tail == c + [("quantity", q)] + [("action", Str("return"))] + [("apply_to_stock", Bool(true))];
    GetLast(c + [("quantity", q), ("action", Str("return"))], "apply_to_stock", Bool(true), []);
    assert c + tail == c + [("quantity", q), ("action", Str("return"))] + [("apply_to_stock", Bool(true))] + [];
  }

  /** An entry that starts with the item's article number, followed by fields of other
      names, reads it as the item does. */
  lemma CopiedArticleRead(item: Value, tail: seq<(string, Value)>)
    requires forall i :: 0 <= i < |tail| ==> tail[i].0 != "article_number"
    ensures Get(Obj(Copied(item, "article_number") + tail), "article_number") == Get(item, "article_number")
  {
    var c := Copied(item, "article_number");
    GetPast(c, tail, "article_number");
    if |c| == 1 {
      GetStep(c, "article_number");
    }
  }

  function Summary(cart: seq<Line>): (s: seq<Value>)
    ensures |s| == |cart| && forall k :: 0 <= k < |cart| ==> s[k] == Entry(cart[k])
  {
    seq(|cart|, k requires 0 <= k < |cart| => Entry(cart[k]))
  }

  function FixedSummary(cart: seq<Line>): (s: seq<Value>)
    ensures |s| == |cart| && forall k :: 0 <= k < |cart| ==> s[k] == FixedEntry(cart[k])
  {
    seq(|cart|, k requires 0 <= k < |cart| => FixedEntry(cart[k]))
  }

  /** submitItems: an empty cart sends nothing; otherwise the confirm with the summary (this
      page sends no project insert). */
  function Submit(cart: seq<Line>): (rs: seq<Request>)
    ensures |cart| == 0 <==> rs == []
    ensures |cart| > 0 ==> rs == [Request("/api/confirm", [("summary", Arr(Summary(cart)))])]
  {
    if |cart| == 0 then [] else [Request("/api/confirm", [("summary", Arr(Summary(cart)))])]
  }

  /** As written, a line of the add-stock summary that the confirm handler accepts is only
      logged: the product table is left exactly as it was. */
  lemma EntryOnlyLogs(l: Line, ids: seq<(Value, Value)>, user: Value, columns: set<string>, st: ItemApi.Store)
    requires ItemApi.Resolve(Entry(l), ids).Ok?
    ensures ItemApi.ConfirmLine(Entry(l), ids, user, columns, st).Continue?
    ensures ItemApi.ConfirmLine(Entry(l), ids, user, columns, st).store.products == st.products
  {
    EntryReads(l);
    assert Coerce.PyInt(GetOrNull(Entry(l), "quantity")).Some?;
    ItemApi.PlainReturnOnlyLogs(Entry(l), ids, user, columns, st);
  }

  /** A line holding NaN is sent with quantity null, which the confirm handler refuses as a
      missing quantity. */
  lemma NaNLineRefused(l: Line, ids: seq<(Value, Value)>)
    requires l.qty.NaN? && Truthy(GetOrNull(l.item, "article_number"))
    ensures ItemApi.Resolve(Entry(l), ids) == Err(Http.Text(400, "Missing quantity"))
  {
    EntryReads(l);
  }

  /** The corrected entry moves stock at the confirm handler whatever its return type. */
  lemma FixedEntryMovesStock(l: Line, rt: string)
    ensures ItemApi.MovesStock(FixedEntry(l), rt)
  {
    FixedEntryReads(l);
  }
}
