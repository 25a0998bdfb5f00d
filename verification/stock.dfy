/** The store operations with logic of their own: the validated stock move of a take or a
    return, the log record and delivery request the routes insert, and the list of products
    below their safety stock. */
module SheetsService {
  import opened Wrappers
  import opened Json
  import Text
  import Numerals
  import Coerce
  import Order
  import Sheet
  import Lists

  /** A row of the products table, with the columns the store operations read. A column holds
      whatever the table holds: None, a number or text. */
  datatype Product = Product(id: Value, articleNumber: Value, description: Value, stock: Value,
                             safetyStock: Value)

  /** What update_item_stock raises. The first three are ValueErrors, a refused move the
      confirm handler answers 400 with its message; an unknown id is a plain Exception, which
      the handler answers 500. */
  datatype StockError =
    | NotPositive
    | BadAction
    | Short(product: Product, itemId: Value, available: int, requested: int)
    | NotFound(itemId: Value)
  {
    predicate Refused() {
      !NotFound?
    }
  }

  /** The text of the exception, str(e). A refused take names the product by its
      description when that is truthy, else by the id. */
  function Message(e: StockError): string {
    match e
    case NotPositive => "Quantity must be positive."
    case BadAction => "Invalid action; must be 'take' or 'return'"
    case Short(p, itemId, available, requested) =>
      var desc := if Truthy(p.description) then PyStr(p.description) else PyStr(itemId);
      "Not enough stock for “" + desc + "”: available " + Numerals.IntToString(available)
      + ", requested " + Numerals.IntToString(requested)
    case NotFound(itemId) => "Item " + PyStr(itemId) + " not found"
  }

  /** _ensure_int(p.get("stock"), 0). */
  function StockOf(p: Product): int {
    Coerce.EnsureInt(p.stock, 0)
  }

  /** _ensure_int(p.get("safety_stock"), 0). */
  function SafetyOf(p: Product): int {
    Coerce.EnsureInt(p.safetyStock, 0)
  }

  /** The id column. */
  function Ids(products: seq<Product>): (r: seq<Value>)
    ensures |r| == |products| && forall j :: 0 <= j < |products| ==> r[j] == products[j].id
  {
    seq(|products|, j requires 0 <= j < |products| => products[j].id)
  }

  /** The row the query .eq("id", item_id).limit(1) returns: the first with that id. */
  function FindById(products: seq<Product>, itemId: Value): (r: Option<nat>)
    ensures r.Some? ==> r.value < |products| && products[r.value].id == itemId
                        && forall j :: 0 <= j < r.value ==> products[j].id != itemId
    ensures r.None? <==> forall j :: 0 <= j < |products| ==> products[j].id != itemId
  {
    Sheet.IndexOf(Ids(products), itemId)
  }

  /** (action or "").strip().lower(). */
  function NormalAction(action: string): string {
    Text.Lower(Text.PyStrip(action))
  }

  /** The two moves update_item_stock accepts, and everything else. */
  datatype Move = Take | Return | Other

  function MoveOf(action: string): (m: Move)
    ensures m == Take <==> NormalAction(action) == "take"
    ensures m == Return <==> NormalAction(action) == "return"
  {
    var a := NormalAction(action);
    if a == "take" then Take else if a == "return" then Return else Other
  }

  /** The stock a move leaves: a take lowers it by the quantity, a return raises it. */
  function Moved(current: int, quantity: int, take: bool): int {
    if take then current - quantity else current + quantity
  }

  /** The update .update({"stock": n}).eq("id", item_id): every row with that id gets the
      number n as its stock, and nothing else changes. */
  function WriteStock(products: seq<Product>, itemId: Value, n: int): (r: seq<Product>)
    ensures |r| == |products| && Ids(r) == Ids(products)
    ensures forall j :: 0 <= j < |r| && products[j].id == itemId ==> StockOf(r[j]) == n
    ensures forall j :: 0 <= j < |r| ==> r[j].(stock := products[j].stock) == products[j]
  {
    seq(|products|, j requires 0 <= j < |products| =>
      if products[j].id == itemId then products[j].(stock := Num(n)) else products[j])
  }

  /** The move once the action has been read: checks the quantity, then the action, then
      looks the product up; a take of more than the stock is refused, and otherwise the
      stock a take lowers or a return raises is written. */
  function MoveStock(products: seq<Product>, itemId: Value, quantity: int, move: Move)
    : (r: Result<seq<Product>, StockError>)
    ensures quantity <= 0 ==> r == Err(NotPositive)
    ensures quantity > 0 && move == Other ==> r == Err(BadAction)
    ensures r.Err? && r.error.NotFound? <==>
            quantity > 0 && move != Other && FindById(products, itemId).None?
    ensures r.Err? && r.error.Short? <==>
            quantity > 0 && move == Take && FindById(products, itemId).Some?
            && StockOf(products[FindById(products, itemId).value]) < quantity
    ensures r.Ok? ==> |r.value| == |products| && Ids(r.value) == Ids(products)
  {
    if quantity <= 0 then Err(NotPositive)
    else if move == Other then Err(BadAction)
    else
      match FindById(products, itemId)
      case None => Err(NotFound(itemId))
      case Some(i) =>
        var current := StockOf(products[i]);
        if move == Take && current < quantity then Err(Short(products[i], itemId, current, quantity))
        else Ok(WriteStock(products, itemId, Moved(current, quantity, move == Take)))
  }

  /** update_item_stock(item_id, quantity, action): the quantity is checked before the
      action, so a non-positive quantity is reported whatever the action. */
  function UpdateItemStock(products: seq<Product>, itemId: Value, quantity: int, action: string)
    : (r: Result<seq<Product>, StockError>)
    ensures quantity <= 0 ==> r == Err(NotPositive)
    ensures quantity > 0 && NormalAction(action) != "take" && NormalAction(action) != "return"
            ==> r == Err(BadAction)
    ensures r.Ok? ==> NormalAction(action) == "take" || NormalAction(action) == "return"
  {
    MoveStock(products, itemId, quantity, MoveOf(action))
  }

  /** A move that is not refused writes the stock read from the first row with the id,
      lowered by a take and raised by a return, to every row with that id. */
  lemma {:induction false} MoveWrites(products: seq<Product>, itemId: Value, quantity: int, move: Move)
    requires MoveStock(products, itemId, quantity, move).Ok?
    ensures var i := FindById(products, itemId).value;
            var n := Moved(StockOf(products[i]), quantity, move == Take);
            move != Other && MoveStock(products, itemId, quantity, move).value == WriteStock(products, itemId, n)
  {}

  /** The message of a refused take names the product, its stock and the quantity asked for. */
  lemma {:induction false} ShortNamesStock(products: seq<Product>, itemId: Value, quantity: int)
    requires MoveStock(products, itemId, quantity, Take).Err?
    requires MoveStock(products, itemId, quantity, Take).error.Short?
    ensures var i := FindById(products, itemId).value;
            MoveStock(products, itemId, quantity, Take).error
            == Short(products[i], itemId, StockOf(products[i]), quantity)
  {}

  /** A stock that was not negative stays not negative: a take never goes below zero and a
      return only adds. */
  lemma {:induction false} StockStaysNonNegative(products: seq<Product>, itemId: Value, quantity: int, move: Move)
    requires forall j :: 0 <= j < |products| ==> StockOf(products[j]) >= 0
    requires MoveStock(products, itemId, quantity, move).Ok?
    ensures var after := MoveStock(products, itemId, quantity, move).value;
            forall j :: 0 <= j < |after| ==> StockOf(after[j]) >= 0
  {
    MoveWrites(products, itemId, quantity, move);
    var after := MoveStock(products, itemId, quantity, move).value;
    forall j | 0 <= j < |after|
      ensures StockOf(after[j]) >= 0
    {
      if products[j].id != itemId {
        assert after[j] == products[j];
      }
    }
  }

  /** The literal actions the confirm handler passes read as the two moves. */
  lemma ActionWords()
    ensures MoveOf("take") == Take && MoveOf("return") == Return
  {
    NormalWord("take");
    NormalWord("return");
  }

  lemma NormalWord(s: string)
    requires |s| > 0 && !Text.IsPySpace(s[0]) && !Text.IsPySpace(s[|s| - 1])
    requires forall i :: 0 <= i < |s| ==> !('A' <= s[i] <= 'Z')
    ensures NormalAction(s) == s
  {
    Text.StripNoop(s, Text.IsPySpace);
    Text.LowerNoop(s);
  }

  /** Taking q and then returning q writes back the number the product's stock started at;
      when that is how the rows already held it, the table is as it was. */
  lemma {:induction false} TakeThenReturn(products: seq<Product>, itemId: Value, quantity: int)
    requires MoveStock(products, itemId, quantity, Take).Ok?
    ensures var mid := MoveStock(products, itemId, quantity, Take).value;
            var c := StockOf(products[FindById(products, itemId).value]);
            MoveStock(mid, itemId, quantity, Return).Ok?
            && MoveStock(mid, itemId, quantity, Return).value == WriteStock(products, itemId, c)
            && ((forall j :: 0 <= j < |products| && products[j].id == itemId ==> products[j].stock == Num(c))
                ==> MoveStock(mid, itemId, quantity, Return).value == products)
  {
    var i := FindById(products, itemId).value;
    var c := StockOf(products[i]);
    MoveWrites(products, itemId, quantity, Take);
    var mid := MoveStock(products, itemId, quantity, Take).value;
    assert FindById(mid, itemId) == Some(i);
    assert StockOf(mid[i]) == c - quantity;
    MoveWrites(mid, itemId, quantity, Return);
    WriteTwice(products, itemId, c - quantity, c);
    if forall j :: 0 <= j < |products| && products[j].id == itemId ==> products[j].stock == Num(c) {
      WriteSame(products, itemId, c);
    }
  }

  /** Writing a stock twice is writing the second value once. */
  lemma {:induction false} WriteTwice(products: seq<Product>, itemId: Value, a: int, b: int)
    ensures WriteStock(WriteStock(products, itemId, a), itemId, b) == WriteStock(products, itemId, b)
  {
    var once := WriteStock(products, itemId, a);
    assert forall j :: 0 <= j < |products| ==> once[j].id == products[j].id by {
      assert Ids(once) == Ids(products);
    }
  }

  /** Writing the stock the rows already hold changes nothing. */
  lemma {:induction false} WriteSame(products: seq<Product>, itemId: Value, n: int)
    requires forall j :: 0 <= j < |products| && products[j].id == itemId ==> products[j].stock == Num(n)
    ensures WriteStock(products, itemId, n) == products
  {}

  // ---------------------------------------------------------------- log and delivery rows

  /** The row insert_log writes (its generated id and timestamp are left out): the article as
      text, the quantity as an int, the action and user as given, and the optional status and
      project_ref only when the log table has those columns. */
  datatype LogRecord = LogRecord(article: string, quantity: int, action: Value, user: Value,
                                 status: Option<string>, projectRef: Option<string>)

  /** insert_log: int(quantity) raising is the only way it fails before the insert. */
  function InsertLog(article: Value, quantity: Value, action: Value, user: Value, status: string,
                     projectRef: string, columns: set<string>): (r: Result<LogRecord, string>)
    ensures r.Ok? <==> Coerce.PyInt(quantity).Some?
    ensures r.Ok? ==> r.value.quantity == Coerce.PyInt(quantity).value && r.value.article == PyStr(article)
                      && r.value.action == action && r.value.user == user
                      && (r.value.status.Some? <==> "status" in columns)
                      && ("status" in columns ==> r.value.status.value == status)
                      && (r.value.projectRef.Some? <==> "project_ref" in columns)
  {
    match Coerce.PyInt(quantity)
    case None => Err("invalid literal for int()")
    case Some(q) =>
      Ok(LogRecord(PyStr(article), q, action, user,
                   if "status" in columns then Some(status) else None,
                   if "project_ref" in columns then Some(projectRef) else None))
  }

  /** The row create_delivery_request inserts (its timestamp is left out). */
  datatype Delivery = Delivery(article: string, quantity: int, comments: Value, status: string, createdBy: Value)

  /** create_delivery_request: a falsy article or a missing or non-positive quantity is
      refused before anything is written; the request starts "on_the_way". */
  function CreateDeliveryRequest(article: Value, quantity: Value, comments: Value, createdBy: Value)
    : (r: Result<Delivery, string>)
    ensures !Truthy(article) ==> r == Err("article_number is required")
    ensures Truthy(article) && (quantity.Null? || (Coerce.PyInt(quantity).Some? && Coerce.PyInt(quantity).value <= 0))
            ==> r == Err("quantity must be a positive integer")
    ensures r.Ok? <==> Truthy(article) && Coerce.PyInt(quantity).Some? && Coerce.PyInt(quantity).value > 0
    ensures r.Ok? ==> r.value.status == "on_the_way" && r.value.quantity == Coerce.PyInt(quantity).value
                      && r.value.article == PyStr(article)
                      && (r.value.comments == if Truthy(comments) then comments else Str(""))
  {
    if !Truthy(article) then Err("article_number is required")
    else if quantity.Null? then Err("quantity must be a positive integer")
    else
      match Coerce.PyInt(quantity)
      case None => Err("invalid literal for int()")
      case Some(q) =>
        if q <= 0 then Err("quantity must be a positive integer")
        else Ok(Delivery(PyStr(article), q, if Truthy(comments) then comments else Str(""),
                         "on_the_way", if Truthy(createdBy) then createdBy else Str("")))
  }


  // ---------------------------------------------------------------- below safety stock

  /** An entry of the below-safety list: the product with the three computed fields. */
  datatype ShortItem = ShortItem(product: Product, stockInt: int, safetyInt: int, deficit: int)

  /** A product is short when it has a positive safety stock and less stock than that. */
  predicate IsShort(p: Product) {
    SafetyOf(p) > 0 && StockOf(p) < SafetyOf(p)
  }

  function Enrich(p: Product): ShortItem {
    ShortItem(p, StockOf(p), SafetyOf(p), SafetyOf(p) - StockOf(p))
  }

  /** The sort key (deficit, -safety_stock_int). */
  function SafetyKey(x: ShortItem): seq<int> {
    [x.deficit, 0 - x.safetyInt]
  }

  /** The short products, in table order, each with its computed fields. */
  function ShortProducts(products: seq<Product>): (r: seq<ShortItem>)
    ensures |r| <= |products|
  {
    Lists.FilterMap(products, IsShort, Enrich)
  }

  /** get_items_below_safety_stock: the short products sorted by (deficit, -safety) from the
      largest, products with the same key kept in table order. */
  function BelowSafetyStock(products: seq<Product>): (r: seq<ShortItem>)
    ensures multiset(r) == multiset(ShortProducts(products))
    ensures Order.Sorted(r, SafetyKey, true)
  {
    Order.SortSorted(ShortProducts(products), SafetyKey, true);
    Order.SortBy(ShortProducts(products), SafetyKey, true)
  }

  /** Exactly the short products are listed, and every listed deficit is positive and is the
      safety stock less the stock. */
  lemma {:induction false} BelowSafetyExact(products: seq<Product>, x: ShortItem)
    ensures x in BelowSafetyStock(products)
            <==> exists j :: 0 <= j < |products| && IsShort(products[j]) && x == Enrich(products[j])
    ensures x in BelowSafetyStock(products) ==>
              x.deficit > 0 && x.deficit == x.safetyInt - x.stockInt && x.safetyInt > 0
  {
    var r := BelowSafetyStock(products);
    assert x in r <==> x in multiset(r);
    assert x in ShortProducts(products) <==> x in multiset(ShortProducts(products));
    Lists.FilterMapMembers(products, IsShort, Enrich, x);
  }

  /** Products with the same (deficit, safety) keep their table order. */
  lemma BelowSafetyStable(products: seq<Product>, k: seq<int>)
    ensures Order.WithKey(BelowSafetyStock(products), SafetyKey, k)
            == Order.WithKey(ShortProducts(products), SafetyKey, k)
  {
    Order.SortStable(ShortProducts(products), SafetyKey, true, k);
  }
}
