/** The low-stock list of the analytics page: every product with a positive safety stock and
    less stock than that, with its deficit and whether a delivery is on the way. Each field
    is read under the first of several header spellings that holds a value. */
module LowStock {
  import opened Wrappers
  import opened Json
  import Text
  import Sheet
  import Coerce
  import Lists

  /** A cell that holds a non-empty value (Python truthiness of a looked-up string). */
  predicate Filled(o: Option<string>) {
    o.Some? && o.value != ""
  }

  /** p.get(k1) or p.get(k2) or …: the value of the first key that holds a non-empty value;
      where none does, what the last key holds (None where it is absent). */
  function FirstSet(p: Sheet.Dict, keys: seq<string>): (r: Option<string>)
    requires |keys| > 0
    ensures Filled(r) ==> exists i :: 0 <= i < |keys| && Sheet.Lookup(p, keys[i]) == r
                                      && forall j :: 0 <= j < i ==> !Filled(Sheet.Lookup(p, keys[j]))
    ensures !Filled(r) <==> forall i :: 0 <= i < |keys| ==> !Filled(Sheet.Lookup(p, keys[i]))
    ensures !Filled(r) ==> r == Sheet.Lookup(p, keys[|keys| - 1])
  {
    var v := Sheet.Lookup(p, keys[0]);
    if |keys| == 1 || Filled(v) then v
    else
      var r := FirstSet(p, keys[1..]);
      assert forall i :: 1 <= i < |keys| ==> keys[1..][i - 1] == keys[i];
      r
  }

  /** The looked-up cell as a Python value: None where the key is absent. */
  function AsValue(o: Option<string>): Value {
    if o.None? then Null else Str(o.value)
  }

  /** A chain that ends in `or ""`: the first non-empty value, or "". */
  function TextField(p: Sheet.Dict, keys: seq<string>): (r: string)
    requires |keys| > 0
    ensures r != "" <==> exists i :: 0 <= i < |keys| && Filled(Sheet.Lookup(p, keys[i]))
  {
    var o := FirstSet(p, keys);
    if Filled(o) then o.value else ""
  }

  function Article(p: Sheet.Dict): string {
    TextField(p, ["article_number", "Article Number", "Article"])
  }

  function Name(p: Sheet.Dict): string {
    TextField(p, ["product_name", "Item name", "Name", "product_description"])
  }

  function StockInt(p: Sheet.Dict): int {
    Coerce.AnalyticsToInt(AsValue(FirstSet(p, ["stock", "Stock", "current_stock"])), 0)
  }

  function SafetyInt(p: Sheet.Dict): int {
    Coerce.AnalyticsToInt(AsValue(FirstSet(p, ["safety_stock", "Safety stock", "safety"])), 0)
  }

  /** The words that mark a delivery as on its way, after strip and lower. */
  predicate YesWord(s: string) {
    s in {"true", "1", "yes", "y"}
  }

  function DeliveryOnTheWay(p: Sheet.Dict): bool {
    YesWord(Text.Lower(Text.PyStrip(TextField(p, ["delivery_on_the_way", "Delivery on the way"]))))
  }

  /** An entry of the list. */
  datatype LowItem = LowItem(article: string, name: string, stockInt: int, safetyInt: int,
                             deficit: int, deliveryOnTheWay: bool)

  predicate Low(p: Sheet.Dict) {
    SafetyInt(p) > 0 && StockInt(p) < SafetyInt(p)
  }

  /** The entry of a product, with deficit max(safety - stock, 0). */
  function Entry(p: Sheet.Dict): LowItem {
    var stock := StockInt(p);
    var safety := SafetyInt(p);
    LowItem(Article(p), Name(p), stock, safety, if safety - stock > 0 then safety - stock else 0, DeliveryOnTheWay(p))
  }

  /** The products of the sheet, dict(zip(headers, row)) per data row; none without a header. */
  function Products(t: Sheet.Table): (ps: seq<Sheet.Dict>)
    ensures |t| == 0 || |t[0]| == 0 ==> ps == []
    ensures |t| > 0 && |t[0]| > 0 ==> |ps| == |t| - 1 && forall k :: 0 <= k < |ps| ==> ps[k] == Sheet.Zip(t[0], t[k + 1])
  {
    if |t| == 0 || |t[0]| == 0 then []
    else seq(|t| - 1, k requires 0 <= k < |t| - 1 => Sheet.Zip(t[0], t[k + 1]))
  }

  /** The low-stock list, in product order. */
  function LowStockList(products: seq<Sheet.Dict>): (r: seq<LowItem>)
    ensures |r| <= |products|
  {
    Lists.FilterMap(products, Low, Entry)
  }

  /** A product is listed exactly when its safety stock is positive and its stock below it,
      and every listed deficit is positive and equals the safety stock less the stock. */
  lemma LowStockExact(products: seq<Sheet.Dict>, x: LowItem)
    ensures x in LowStockList(products) <==> exists j :: 0 <= j < |products| && Low(products[j]) && x == Entry(products[j])
    ensures x in LowStockList(products) ==>
              x.safetyInt > 0 && x.stockInt < x.safetyInt && x.deficit > 0 && x.deficit == x.safetyInt - x.stockInt
  {
    Lists.FilterMapMembers(products, Low, Entry, x);
  }

  /** The first spelling wins: a product with a stock column reads its stock there, whatever
      the other spellings hold. */
  lemma FirstSpellingWins(p: Sheet.Dict, s: string)
    requires Sheet.Lookup(p, "stock") == Some(s) && s != ""
    ensures StockInt(p) == Coerce.AnalyticsToInt(Str(s), 0)
  {}

  /** A product without any safety stock column is never listed. */
  lemma NoSafetyNotLow(p: Sheet.Dict)
    requires Sheet.Lookup(p, "safety_stock").None? && Sheet.Lookup(p, "Safety stock").None? && Sheet.Lookup(p, "safety").None?
    ensures !Low(p)
  {}
}
