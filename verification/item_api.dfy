/** The shared item API: the QR look-up, and the confirm handler that applies a summary of
    cart lines to the stock and the log, line by line. */
module ItemApi {
  import opened Wrappers
  import opened Json
  import Text
  import JsonCodec
  import Sheet
  import Http
  import Lists
  import opened SheetsService

  // ---------------------------------------------------------------- get_item_by_qr

  /** (item.get("article_number") or "").strip().lower(); Err where the item is not a dict or
      its article is a truthy non-text value (AttributeError). */
  function ArticleKey(item: Value): (r: Result<string, string>)
    ensures r.Ok? ==> item.Obj?
  {
    if !item.Obj? then Err("AttributeError")
    else
      match TextOr(Get(item, "article_number"))
      case Err(e) => Err(e)
      case Ok(t) => Ok(Text.Lower(Text.PyStrip(t)))
  }

  /** Whether each item's key is qr, or the error reading it raises. */
  function Hits(items: seq<Value>, qr: string): (h: seq<Result<bool, string>>)
    ensures |h| == |items|
    ensures forall j :: 0 <= j < |items| ==> (h[j] == Ok(true) <==> ArticleKey(items[j]) == Ok(qr))
    ensures forall j :: 0 <= j < |items| ==>
              (h[j] == Ok(false) <==> ArticleKey(items[j]).Ok? && ArticleKey(items[j]).value != qr)
  {
    seq(|items|, k requires 0 <= k < |items| =>
      match ArticleKey(items[k]) case Err(e) => Err(e) case Ok(a) => Ok(a == qr))
  }

  /** The scan over the items: the position of the first whose key equals qr, None when no
      key does, Err when an item met before any match raises. */
  function MatchQr(items: seq<Value>, qr: string): (r: Result<Option<nat>, string>)
    ensures r.Ok? && r.value.Some? ==>
              r.value.value < |items| && ArticleKey(items[r.value.value]) == Ok(qr)
              && forall j :: 0 <= j < r.value.value ==> ArticleKey(items[j]).Ok? && ArticleKey(items[j]).value != qr
    ensures r.Ok? && r.value.None? <==>
              forall j :: 0 <= j < |items| ==> ArticleKey(items[j]).Ok? && ArticleKey(items[j]).value != qr
  {
    Lists.FirstTrue(Hits(items, qr))
  }

  /** get_item_by_qr(data, items): the normalised qr_code text is matched against each item's
      normalised article number and the first match is answered as it is; 404 when none
      matches. Anything that raises (a body that is not a dict, a qr_code that is not text, a
      matched item without product_name, which the handler prints) answers 500. */
  function GetItemByQr(data: Value, items: seq<Value>): (r: Http.Response)
    ensures r.status == 200 || r.status == 404 || r.status == 500
    ensures r.status == 200 ==>
              data.Obj? && GetOr(data, "qr_code", Str("")).Str?
              && var qr := Text.Lower(Text.PyStrip(GetOr(data, "qr_code", Str("")).s));
                 exists i :: 0 <= i < |items| && r.body == items[i] && ArticleKey(items[i]) == Ok(qr)
                             && forall j :: 0 <= j < i ==> ArticleKey(items[j]).Ok? && ArticleKey(items[j]).value != qr
    ensures r.status == 404 ==>
              data.Obj? && GetOr(data, "qr_code", Str("")).Str?
              && var qr := Text.Lower(Text.PyStrip(GetOr(data, "qr_code", Str("")).s));
                 forall j :: 0 <= j < |items| ==> ArticleKey(items[j]).Ok? && ArticleKey(items[j]).value != qr
  {
    if !data.Obj? then Http.Error(500, "Server error")
    else
      var code := GetOr(data, "qr_code", Str(""));
      if !code.Str? then Http.Error(500, "Server error")
      else
        match MatchQr(items, Text.Lower(Text.PyStrip(code.s)))
        case Err(_) => Http.Error(500, "Server error")
        case Ok(None) => Http.Error(404, "Not found")
        case Ok(Some(i)) =>
          if Has(items[i], "product_name") then Http.Response(200, items[i])
          else Http.Error(500, "Server error")
  }

  /** The scan stops at the first item whose key is qr, once every item before it was read. */
  lemma MatchQrFinds(items: seq<Value>, qr: string, i: nat)
    requires i < |items| && ArticleKey(items[i]) == Ok(qr)
    requires forall j :: 0 <= j < i ==> ArticleKey(items[j]).Ok? && ArticleKey(items[j]).value != qr
    ensures MatchQr(items, qr) == Ok(Some(i))
  {
    Lists.FirstTrueFinds(Hits(items, qr), i);
  }

  /** Conversely to the 200 case: an item whose normalised article number is the normalised
      qr_code, with every item before it readable and different, is the one answered. */
  lemma QrFinds(data: Value, items: seq<Value>, i: nat)
    requires data.Obj? && GetOr(data, "qr_code", Str("")).Str?
    requires i < |items| && Has(items[i], "product_name")
    requires var qr := Text.Lower(Text.PyStrip(GetOr(data, "qr_code", Str("")).s));
             ArticleKey(items[i]) == Ok(qr)
             && forall j :: 0 <= j < i ==> ArticleKey(items[j]).Ok? && ArticleKey(items[j]).value != qr
    ensures GetItemByQr(data, items) == Http.Response(200, items[i])
  {
    MatchQrFinds(items, Text.Lower(Text.PyStrip(GetOr(data, "qr_code", Str("")).s)), i);
  }

  // ---------------------------------------------------------------- confirm_items

  /** The two tables the confirm handler writes. */
  datatype Store = Store(products: seq<Product>, logs: seq<LogRecord>)

  /** Where a line leaves the handler: on to the next line, or answered (its response and the
      tables as they stand, earlier lines' writes included). */
  datatype Step = Continue(store: Store) | Stop(response: Http.Response, store: Store)

  /** {item["article_number"]: item["id"] for item in all_items} as its pairs; None where an
      article is a list or dict (TypeError: unhashable). */
  function ArticleToId(products: seq<Product>): (r: Option<seq<(Value, Value)>>)
    ensures r.Some? <==> forall j :: 0 <= j < |products| ==> Hashable(products[j].articleNumber)
    ensures r.Some? ==> |r.value| == |products|
                        && forall j :: 0 <= j < |products| ==> r.value[j] == (products[j].articleNumber, products[j].id)
  {
    if forall j :: 0 <= j < |products| ==> Hashable(products[j].articleNumber) then
      Some(seq(|products|, j requires 0 <= j < |products| => (products[j].articleNumber, products[j].id)))
    else None
  }

  /** update_item_stock's `quantity <= 0` on the line's quantity: numbers and bools compare,
      anything else raises TypeError. */
  function QtyAsInt(qty: Value): (r: Option<int>)
    ensures qty.Num? ==> r == Some(qty.n)
    ensures r.None? <==> !qty.Num? && !qty.Bool?
  {
    match qty
    case Num(n) => Some(n)
    case Bool(b) => Some(if b then 1 else 0)
    case _ => None
  }

  const TakeAction := Str("take")
  const ReturnAction := Str("return")

  /** (itm.get("return_type") or "").strip().lower(); Err where a truthy return_type is not
      text. */
  function ReturnType(itm: Value): (r: Result<string, string>)
    ensures !Truthy(GetOrNull(itm, "return_type")) ==> r == Ok("")
    ensures GetOrNull(itm, "return_type").Str? ==>
              r == Ok(Text.Lower(Text.PyStrip(GetOrNull(itm, "return_type").s)))
    ensures r.Err? <==> Truthy(GetOrNull(itm, "return_type")) && !GetOrNull(itm, "return_type").Str?
  {
    match TextOr(Get(itm, "return_type"))
    case Err(e) => Err(e)
    case Ok(t) => Ok(Text.Lower(Text.PyStrip(t)))
  }

  /** apply_to_stock: the line's own flag, read for truth, when the line has that key;
      otherwise whether it is a return of type "returned". */
  function ApplyToStock(itm: Value, returnType: string): (r: bool)
    ensures Has(itm, "apply_to_stock") ==> (r <==> Truthy(GetOrNull(itm, "apply_to_stock")))
    ensures !Has(itm, "apply_to_stock") ==>
              (r <==> returnType == "returned" && GetOr(itm, "action", TakeAction) == ReturnAction)
  {
    if Has(itm, "apply_to_stock") then Truthy(GetOrNull(itm, "apply_to_stock"))
    else returnType == "returned" && GetOr(itm, "action", TakeAction) == ReturnAction
  }

  /** Whether the line moves stock: a take always does, a return only when it applies. */
  predicate MovesStock(itm: Value, returnType: string) {
    var act := GetOr(itm, "action", TakeAction);
    act == TakeAction || (act == ReturnAction && ApplyToStock(itm, returnType))
  }

  /** What a line resolves to before anything is written: the product id and the normalised
      return_type, or the answer that ends the handler. */
  datatype Resolved = Resolved(prodId: Value, returnType: string)

  /** The checks of one line, in the handler's order: a line that is not a dict raises; a
      falsy article number and a missing quantity answer 400; a return_type that is not text
      raises; an unhashable article raises in the dict look-up; an article the catalogue does
      not map to a truthy id answers 400 "Unknown product ...". */
  function Resolve(itm: Value, ids: seq<(Value, Value)>): (r: Result<Resolved, Http.Response>)
    ensures r.Err? ==> r.error.status == 400 || r.error.status == 500
    ensures !itm.Obj? ==> r.Err? && r.error.status == 500
    ensures itm.Obj? && !Truthy(GetOrNull(itm, "article_number")) ==>
              r == Err(Http.Text(400, "Missing article_number"))
    ensures itm.Obj? && Truthy(GetOrNull(itm, "article_number")) && GetOrNull(itm, "quantity").Null? ==>
              r == Err(Http.Text(400, "Missing quantity"))
    ensures r.Ok? ==> itm.Obj? && !GetOrNull(itm, "quantity").Null? && Truthy(r.value.prodId)
                      && ReturnType(itm) == Ok(r.value.returnType)
                      && Sheet.Lookup(ids, GetOrNull(itm, "article_number")) == Some(r.value.prodId)
    ensures var art := GetOrNull(itm, "article_number");
            itm.Obj? && Truthy(art) && !GetOrNull(itm, "quantity").Null?
            && (ReturnType(itm).Err? || !Hashable(art)) ==>
              r == Err(Http.Text(500, "Server error"))
    ensures var art := GetOrNull(itm, "article_number");
            itm.Obj? && Truthy(art) && !GetOrNull(itm, "quantity").Null? && ReturnType(itm).Ok? && Hashable(art)
            && (Sheet.Lookup(ids, art).None? || !Truthy(Sheet.Lookup(ids, art).value)) ==>
              r == Err(Http.Text(400, "Unknown product " + PyStr(art)))
  {
    if !itm.Obj? then Err(Http.Text(500, "Server error"))
    else
      var art := GetOrNull(itm, "article_number");
      if !Truthy(art) then Err(Http.Text(400, "Missing article_number"))
      else if GetOrNull(itm, "quantity").Null? then Err(Http.Text(400, "Missing quantity"))
      else
        match ReturnType(itm)
        case Err(_) => Err(Http.Text(500, "Server error"))
        case Ok(rt) =>
          if !Hashable(art) then Err(Http.Text(500, "Server error"))
          else
            match Sheet.Lookup(ids, art)
            case None => Err(Http.Text(400, "Unknown product " + PyStr(art)))
            case Some(id) =>
              if Truthy(id) then Ok(Resolved(id, rt)) else Err(Http.Text(400, "Unknown product " + PyStr(art)))
  }

  /** The log row a line leaves: its article as text, its quantity read by int(), its action
      (take by default) and the session user, with the line's return_type as the status
      where the log table has that column. */
  predicate Logged(rec: LogRecord, itm: Value, returnType: string, user: Value, columns: set<string>) {
    && Coerce.PyInt(GetOrNull(itm, "quantity")).Some?
    && rec.article == PyStr(GetOrNull(itm, "article_number"))
    && rec.quantity == Coerce.PyInt(GetOrNull(itm, "quantity")).value
    && rec.action == GetOr(itm, "action", TakeAction)
    && rec.user == user
    && rec.status == (if "status" in columns then Some(returnType) else None)
  }

  /** The log step: insert_log(art, qty, act, user, status=return_type), which fails only
      where int(qty) raises. */
  function LogLine(itm: Value, returnType: string, user: Value, columns: set<string>, st: Store): (r: Step)
    ensures r.Continue? <==> Coerce.PyInt(GetOrNull(itm, "quantity")).Some?
    ensures r.Stop? ==> r.response.status == 500
    ensures r.Continue? ==> r.store.products == st.products && st.logs <= r.store.logs
                            && |r.store.logs| == |st.logs| + 1
                            && Logged(r.store.logs[|st.logs|], itm, returnType, user, columns)
    ensures r.Stop? ==> r.store == st
  {
    var art := GetOrNull(itm, "article_number");
    var qty := GetOrNull(itm, "quantity");
    var act := GetOr(itm, "action", TakeAction);
    match InsertLog(art, qty, act, user, returnType, "", columns)
    case Err(_) => Stop(Http.Text(500, "Server error"), st)
    case Ok(rec) => Continue(Store(st.products, st.logs + [rec]))
  }

  /** The word the handler passes to update_item_stock for a line that moves stock. */
  function ActionWord(itm: Value): string {
    if GetOr(itm, "action", TakeAction) == TakeAction then "take" else "return"
  }

  /** The stock step: update_item_stock(prod_id, qty, "take" or "return"), then the log step.
      A quantity that cannot be compared with 0 raises; a refused move answers 400 with its
      message; an id no row has raises. */
  function MoveLine(itm: Value, prodId: Value, returnType: string, user: Value, columns: set<string>,
                    st: Store): (r: Step)
    ensures r.Stop? ==> r.store == st && (r.response.status == 400 || r.response.status == 500)
    ensures r.Continue? ==> st.logs <= r.store.logs && |r.store.logs| == |st.logs| + 1
    ensures r.Continue? ==> QtyAsInt(GetOrNull(itm, "quantity")).Some?
                            && var moved := UpdateItemStock(st.products, prodId, QtyAsInt(GetOrNull(itm, "quantity")).value, ActionWord(itm));
                               moved.Ok? && r.store.products == moved.value
    ensures r.Continue? ==> Logged(r.store.logs[|st.logs|], itm, returnType, user, columns)
    ensures QtyAsInt(GetOrNull(itm, "quantity")).None? ==> r == Stop(Http.Text(500, "Server error"), st)
    ensures var q := QtyAsInt(GetOrNull(itm, "quantity"));
            q.Some? && UpdateItemStock(st.products, prodId, q.value, ActionWord(itm)).Err? ==>
              var e := UpdateItemStock(st.products, prodId, q.value, ActionWord(itm)).error;
              r == Stop(if e.Refused() then Http.Text(400, Message(e)) else Http.Text(500, "Server error"), st)
  {
    var qty := GetOrNull(itm, "quantity");
    match QtyAsInt(qty)
    case None => Stop(Http.Text(500, "Server error"), st)
    case Some(q) =>
      match UpdateItemStock(st.products, prodId, q, ActionWord(itm))
      case Err(e) =>
        if e.Refused() then Stop(Http.Text(400, Message(e)), st)
        else Stop(Http.Text(500, "Server error"), st)
      case Ok(ps) =>
        assert Coerce.PyInt(qty).Some?;
        LogLine(itm, returnType, user, columns, Store(ps, st.logs))
  }

  /** One pass of the loop over the summary's lines: the checks, then a take (or a return
      that applies) moves stock and logs, a return that does not apply only logs, and any
      other action answers 400. A line that answers leaves the tables as they were. */
  function ConfirmLine(itm: Value, ids: seq<(Value, Value)>, user: Value, columns: set<string>, st: Store)
    : (r: Step)
    ensures Resolve(itm, ids).Err? ==> r == Stop(Resolve(itm, ids).error, st)
    ensures r.Stop? ==> r.store == st && (r.response.status == 400 || r.response.status == 500)
    ensures r.Continue? ==> st.logs <= r.store.logs && |r.store.logs| == |st.logs| + 1
  {
    match Resolve(itm, ids)
    case Err(resp) => Stop(resp, st)
    case Ok(Resolved(prodId, rt)) =>
      if MovesStock(itm, rt) then MoveLine(itm, prodId, rt, user, columns, st)
      else if GetOr(itm, "action", TakeAction) == ReturnAction then LogLine(itm, rt, user, columns, st)
      else Stop(Http.Text(400, "Invalid action; must be 'take' or 'return'"), st)
  }

  /** What a line that goes through writes: its log row, and, exactly when it moves stock (a
      take always, a return when it applies), the stock update_item_stock computes for it;
      otherwise the products stay as they were. */
  lemma ConfirmLineSpec(itm: Value, ids: seq<(Value, Value)>, user: Value, columns: set<string>, st: Store)
    requires ConfirmLine(itm, ids, user, columns, st).Continue?
    ensures var r := ConfirmLine(itm, ids, user, columns, st);
            Resolve(itm, ids).Ok?
            && LineLogged(r.store.logs[|st.logs|], itm, ids, user, columns)
            && (MovesStock(itm, Resolve(itm, ids).value.returnType) ==>
                  QtyAsInt(GetOrNull(itm, "quantity")).Some?
                  && var moved := UpdateItemStock(st.products, Resolve(itm, ids).value.prodId,
                                                  QtyAsInt(GetOrNull(itm, "quantity")).value, ActionWord(itm));
                     moved.Ok? && r.store.products == moved.value)
            && (!MovesStock(itm, Resolve(itm, ids).value.returnType) ==>
                  r.store.products == st.products && GetOr(itm, "action", TakeAction) == ReturnAction)
  {}

  /** A take line that goes through always writes the stock update_item_stock(prod_id, qty,
      "take") computes. */
  lemma TakeMovesStock(itm: Value, ids: seq<(Value, Value)>, user: Value, columns: set<string>, st: Store)
    requires ConfirmLine(itm, ids, user, columns, st).Continue?
    requires GetOr(itm, "action", TakeAction) == TakeAction
    ensures Resolve(itm, ids).Ok? && QtyAsInt(GetOrNull(itm, "quantity")).Some?
    ensures var moved := UpdateItemStock(st.products, Resolve(itm, ids).value.prodId,
                                         QtyAsInt(GetOrNull(itm, "quantity")).value, "take");
            moved.Ok? && ConfirmLine(itm, ids, user, columns, st).store.products == moved.value
  {
    ConfirmLineSpec(itm, ids, user, columns, st);
  }

  /** The row a line of the summary leaves once it goes through. */
  predicate LineLogged(rec: LogRecord, itm: Value, ids: seq<(Value, Value)>, user: Value, columns: set<string>) {
    Resolve(itm, ids).Ok? && Logged(rec, itm, Resolve(itm, ids).value.returnType, user, columns)
  }

  /** A line whose action is neither take nor return is refused without a write. */
  lemma InvalidActionRefused(itm: Value, ids: seq<(Value, Value)>, user: Value, columns: set<string>, st: Store)
    requires Resolve(itm, ids).Ok?
    requires GetOr(itm, "action", TakeAction) != TakeAction && GetOr(itm, "action", TakeAction) != ReturnAction
    ensures ConfirmLine(itm, ids, user, columns, st)
            == Stop(Http.Text(400, "Invalid action; must be 'take' or 'return'"), st)
  {}

  /** A line that goes through and does not move stock leaves the products as they were:
      the only write is its log row. */
  lemma {:induction false} NoMoveKeepsProducts(itm: Value, ids: seq<(Value, Value)>, user: Value,
                                               columns: set<string>, st: Store)
    requires Resolve(itm, ids).Ok? && !MovesStock(itm, Resolve(itm, ids).value.returnType)
    requires ConfirmLine(itm, ids, user, columns, st).Continue?
    ensures ConfirmLine(itm, ids, user, columns, st).store.products == st.products
    ensures GetOr(itm, "action", TakeAction) == ReturnAction
  {
    var rt := Resolve(itm, ids).value.returnType;
    assert ConfirmLine(itm, ids, user, columns, st).Stop?
           || ConfirmLine(itm, ids, user, columns, st) == LogLine(itm, rt, user, columns, st);
  }

  /** A return line with neither apply_to_stock nor return_type "returned" only logs. */
  lemma PlainReturnOnlyLogs(itm: Value, ids: seq<(Value, Value)>, user: Value, columns: set<string>, st: Store)
    requires Resolve(itm, ids).Ok?
    requires GetOr(itm, "action", TakeAction) == ReturnAction
    requires !Has(itm, "apply_to_stock") && !Has(itm, "return_type")
    requires Coerce.PyInt(GetOrNull(itm, "quantity")).Some?
    ensures ConfirmLine(itm, ids, user, columns, st).Continue?
    ensures ConfirmLine(itm, ids, user, columns, st).store.products == st.products
  {
    NoMoveKeepsProducts(itm, ids, user, columns, st);
  }

  /** Every row's stock is a whole number no smaller than zero. */
  predicate StockNonNegative(products: seq<Product>) {
    forall j :: 0 <= j < |products| ==> StockOf(products[j]) >= 0
  }

  /** No line drives a stock below zero. */
  lemma {:induction false} LineKeepsStockNonNegative(itm: Value, ids: seq<(Value, Value)>, user: Value,
                                                     columns: set<string>, st: Store)
    requires StockNonNegative(st.products)
    ensures StockNonNegative(ConfirmLine(itm, ids, user, columns, st).store.products)
  {
    var r := ConfirmLine(itm, ids, user, columns, st);
    if r.Continue? && Resolve(itm, ids).Ok? {
      var res := Resolve(itm, ids).value;
      if MovesStock(itm, res.returnType) {
        var m := MoveLine(itm, res.prodId, res.returnType, user, columns, st);
        assert r == m;
        var q := QtyAsInt(GetOrNull(itm, "quantity")).value;
        ActionWords();
        StockStaysNonNegative(st.products, res.prodId, q, MoveOf(ActionWord(itm)));
      } else {
        NoMoveKeepsProducts(itm, ids, user, columns, st);
      }
    }
  }

  /** The loop over the lines, in order: the first line that answers ends it, with the
      writes of the lines before it kept. */
  function ConfirmLines(lines: seq<Value>, ids: seq<(Value, Value)>, user: Value, columns: set<string>,
                        st: Store): (r: Step)
    ensures r.Continue? ==> |r.store.logs| == |st.logs| + |lines|
    ensures r.Stop? ==> r.response.status == 400 || r.response.status == 500
    ensures st.logs <= r.store.logs
  {
    if |lines| == 0 then Continue(st)
    else
      match ConfirmLine(lines[0], ids, user, columns, st)
      case Stop(resp, st1) => Stop(resp, st1)
      case Continue(st1) => ConfirmLines(lines[1..], ids, user, columns, st1)
  }

  /** A run over some lines and then one more line that goes through: the lines went through,
      their rows are kept, and the last line adds its own row and, exactly when it moves
      stock, the stock update_item_stock computes for it. */
  lemma ConfirmLinesSnoc(lines: seq<Value>, itm: Value, ids: seq<(Value, Value)>, user: Value,
                         columns: set<string>, st: Store)
    requires ConfirmLines(lines + [itm], ids, user, columns, st).Continue?
    ensures var before := ConfirmLines(lines, ids, user, columns, st).store;
            var after := ConfirmLines(lines + [itm], ids, user, columns, st).store;
            && ConfirmLines(lines, ids, user, columns, st).Continue?
            && Resolve(itm, ids).Ok?
            && |after.logs| == |before.logs| + 1 && before.logs <= after.logs
            && LineLogged(after.logs[|before.logs|], itm, ids, user, columns)
            && (MovesStock(itm, Resolve(itm, ids).value.returnType) ==>
                  QtyAsInt(GetOrNull(itm, "quantity")).Some?
                  && var moved := UpdateItemStock(before.products, Resolve(itm, ids).value.prodId,
                                                  QtyAsInt(GetOrNull(itm, "quantity")).value, ActionWord(itm));
                     moved.Ok? && after.products == moved.value)
            && (!MovesStock(itm, Resolve(itm, ids).value.returnType) ==> after.products == before.products)
  {
    ConfirmLinesAppend(lines, [itm], ids, user, columns, st);
    var st1 := ConfirmLines(lines, ids, user, columns, st).store;
    assert ConfirmLines([itm], ids, user, columns, st1) == ConfirmLine(itm, ids, user, columns, st1);
    ConfirmLineSpec(itm, ids, user, columns, st1);
  }

  lemma {:induction false} ConfirmLinesAppend(a: seq<Value>, b: seq<Value>, ids: seq<(Value, Value)>, user: Value,
                                              columns: set<string>, st: Store)
    ensures ConfirmLines(a + b, ids, user, columns, st)
            == match ConfirmLines(a, ids, user, columns, st)
               case Stop(resp, st1) => Stop(resp, st1)
               case Continue(st1) => ConfirmLines(b, ids, user, columns, st1)
  {
    if |a| == 0 {
      assert a + b == b;
    } else {
      assert (a + b)[1..] == a[1..] + b;
      match ConfirmLine(a[0], ids, user, columns, st)
      case Stop(_, _) =>
      case Continue(st1) => ConfirmLinesAppend(a[1..], b, ids, user, columns, st1);
    }
  }

  /** No run of lines drives a stock below zero. */
  lemma {:induction false} LinesKeepStockNonNegative(lines: seq<Value>, ids: seq<(Value, Value)>, user: Value,
                                                     columns: set<string>, st: Store)
    requires StockNonNegative(st.products)
    ensures StockNonNegative(ConfirmLines(lines, ids, user, columns, st).store.products)
  {
    if |lines| > 0 {
      LineKeepsStockNonNegative(lines[0], ids, user, columns, st);
      match ConfirmLine(lines[0], ids, user, columns, st)
      case Stop(_, _) =>
      case Continue(st1) => LinesKeepStockNonNegative(lines[1..], ids, user, columns, st1);
    }
  }

  /** The handler once the summary text is in hand: it is decoded, the catalogue's articles
      are mapped to ids, and the lines run; "OK" when every line went through. */
  function RunSummary(text: string, user: Value, columns: set<string>, st: Store): (r: (Http.Response, Store))
    ensures r.0.status == 200 <==> r.0 == Http.Text(200, "OK")
    ensures st.logs <= r.1.logs
  {
    match JsonCodec.Decode(text)
    case None => (Http.Text(500, "Server error"), st)
    case Some(items) =>
      match ArticleToId(st.products)
      case None => (Http.Text(500, "Server error"), st)
      case Some(ids) =>
        match Iterate(items)
        case None => (Http.Text(500, "Server error"), st)
        case Some(lines) =>
          match ConfirmLines(lines, ids, user, columns, st)
          case Stop(resp, st1) => (resp, st1)
          case Continue(st1) => (Http.Text(200, "OK"), st1)
  }

  /** confirm_items(summary): no summary (or an empty one) answers 400 "No data provided"
      and writes nothing; otherwise the summary runs. */
  function Confirm(summary: Option<string>, user: Value, columns: set<string>, st: Store)
    : (r: (Http.Response, Store))
    ensures summary.None? || summary == Some("") ==> r == (Http.Text(400, "No data provided"), st)
    ensures st.logs <= r.1.logs
  {
    if summary.None? || summary.value == "" then (Http.Text(400, "No data provided"), st)
    else RunSummary(summary.value, user, columns, st)
  }

  /** A confirmed summary wrote one log row per line and left no stock below zero. */
  lemma ConfirmOk(text: string, user: Value, columns: set<string>, st: Store)
    requires StockNonNegative(st.products)
    requires text != "" && Confirm(Some(text), user, columns, st).0.status == 200
    ensures JsonCodec.Decode(text).Some? && Iterate(JsonCodec.Decode(text).value).Some?
    ensures var r := Confirm(Some(text), user, columns, st);
            |r.1.logs| == |st.logs| + |Iterate(JsonCodec.Decode(text).value).value|
            && StockNonNegative(r.1.products)
  {
    var items := JsonCodec.Decode(text).value;
    var ids := ArticleToId(st.products).value;
    LinesKeepStockNonNegative(Iterate(items).value, ids, user, columns, st);
  }
}
