/** The movement-log page: every log row read positionally into the eight fixed fields, named
    after its article, filtered by user and by article, newest first, and the quantities
    users still hold of articles that are out of stock. */
module LogsView {
  import opened Wrappers
  import opened Json
  import Text
  import Sheet
  import Numerals
  import Order
  import Ledger
  import Catalog
  import Lists

  /** The fields every log row is read into, whatever the sheet's own header row says. */
  const Fields: seq<string> := ["id", "article_number", "quantity", "action", "user_name", "timestamp", "status", "project_ref"]

  /** {item["article_number"]: item.get("product_name", "")}: Err (KeyError) where an item
      has no article number; a later item with the same number wins on look-up. */
  function Descriptions(items: seq<Catalog.Item>): (r: Result<seq<(Value, Value)>, string>)
    ensures r.Ok? ==> |r.value| == |items|
                      && forall i :: 0 <= i < |items| ==>
                           Catalog.Field(items[i], "article_number") == Some(r.value[i].0)
                           && r.value[i].1 == Catalog.Field(items[i], "product_name").GetOr(Str(""))
  {
    if |items| == 0 then Ok([])
    else
      match Catalog.Field(items[0], "article_number")
      case None => Err("'article_number'")
      case Some(a) =>
        match Descriptions(items[1..])
        case Err(e) => Err(e)
        case Ok(rest) =>
          assert forall i :: 1 <= i < |items| ==> items[1..][i - 1] == items[i];
          Ok([(a, Catalog.Field(items[0], "product_name").GetOr(Str("")))] + rest)
  }

  /** article_to_description.get(article, "Unknown") */
  function ProductName(descriptions: seq<(Value, Value)>, article: string): (v: Value)
    ensures Sheet.Lookup(descriptions, Str(article)).None? ==> v == Str("Unknown")
    ensures Sheet.Lookup(descriptions, Str(article)).Some? ==> v == Sheet.Lookup(descriptions, Str(article)).value
  {
    Sheet.Lookup(descriptions, Str(article)).GetOr(Str("Unknown"))
  }

  /** A log with its product name and display time. */
  datatype Line = Line(log: Sheet.Dict, productName: Value, formatted: string)

  /** The lines of the logs: the time shown is the local rendering where the timestamp
      parses, the raw timestamp otherwise. */
  function Lines(logs: seq<Sheet.Dict>, descriptions: seq<(Value, Value)>, localTime: string -> Option<string>): (r: seq<Line>)
    ensures |r| == |logs|
    ensures forall k :: 0 <= k < |logs| ==>
              r[k].log == logs[k] && r[k].productName == ProductName(descriptions, Sheet.Cell(logs[k], 1))
              && r[k].formatted == localTime(Sheet.Cell(logs[k], 5)).GetOr(Sheet.Cell(logs[k], 5))
  {
    seq(|logs|, k requires 0 <= k < |logs| =>
      Line(logs[k], ProductName(descriptions, Sheet.Cell(logs[k], 1)), localTime(Sheet.Cell(logs[k], 5)).GetOr(Sheet.Cell(logs[k], 5))))
  }

  /** A line is kept by the user filter when the filter is empty or occurs in its lower-cased
      user name. */
  predicate UserKept(filter: string, x: Line)
  {
    filter == "" || Text.Contains(Text.Lower(Sheet.Cell(x.log, 4)), filter)
  }

  /** The item filter's test of one line: the filter occurs in the lower-cased article
      number or else in the lower-cased product name; Err where the name must be read and
      is a truthy value without lower(). */
  function ItemKept(filter: string, x: Line): (r: Result<bool, string>)
    ensures Text.Contains(Text.Lower(Sheet.Cell(x.log, 1)), filter) ==> r == Ok(true)
  {
    if Text.Contains(Text.Lower(Sheet.Cell(x.log, 1)), filter) then Ok(true)
    else
      match TextOr(Some(x.productName))
      case Err(e) => Err(e)
      case Ok(name) => Ok(Text.Contains(Text.Lower(name), filter))
  }

  /** [l for l in lines if user_filter in …], skipped when the filter is empty. */
  function ByUser(filter: string, xs: seq<Line>): (r: seq<Line>)
    ensures forall x :: x in r <==> x in xs && UserKept(filter, x)
  {
    if |xs| == 0 then []
    else
      var rest := ByUser(filter, xs[1..]);
      assert forall x :: x in xs <==> x == xs[0] || x in xs[1..];
      if UserKept(filter, xs[0]) then [xs[0]] + rest else rest
  }

  /** The item filter over the lines, skipped when the filter is empty. */
  function ByItem(filter: string, xs: seq<Line>): (r: Result<seq<Line>, string>)
    ensures r.Ok? ==> forall x :: x in r.value <==> x in xs && (filter == "" || ItemKept(filter, x) == Ok(true))
  {
    if filter == "" || |xs| == 0 then Ok(xs)
    else
      match ItemKept(filter, xs[0])
      case Err(e) => Err(e)
      case Ok(keep) =>
        match ByItem(filter, xs[1..])
        case Err(e) => Err(e)
        case Ok(rest) =>
          assert forall x :: x in xs <==> x == xs[0] || x in xs[1..];
          Ok(if keep then [xs[0]] + rest else rest)
  }

  /** The user filter as a test on lines. */
  function UserTest(filter: string): Line -> bool {
    x => UserKept(filter, x)
  }

  /** The item filter as a test on lines: kept where the test answers true. */
  function ItemTest(filter: string): Line -> bool {
    x => ItemKept(filter, x) == Ok(true)
  }

  /** The user filter keeps exactly the lines it passes, in their order. */
  lemma {:induction false} ByUserInOrder(filter: string, xs: seq<Line>)
    ensures ByUser(filter, xs) == Lists.Filter(xs, UserTest(filter))
  {
    if |xs| > 0 {
      ByUserInOrder(filter, xs[1..]);
    }
  }

  /** The item filter fails exactly where it is set and its test throws on some line. */
  lemma {:induction false} ByItemFails(filter: string, xs: seq<Line>)
    ensures ByItem(filter, xs).Err? <==> filter != "" && exists k :: 0 <= k < |xs| && ItemKept(filter, xs[k]).Err?
  {
    if filter != "" && |xs| > 0 {
      ByItemFails(filter, xs[1..]);
      if ByItem(filter, xs[1..]).Err? {
        var k :| 0 <= k < |xs[1..]| && ItemKept(filter, xs[1..][k]).Err?;
        assert ItemKept(filter, xs[k + 1]).Err?;
      }
      if ItemKept(filter, xs[0]).Ok? && exists k :: 0 <= k < |xs| && ItemKept(filter, xs[k]).Err? {
        var k :| 0 <= k < |xs| && ItemKept(filter, xs[k]).Err?;
        assert xs[1..][k - 1] == xs[k];
      }
    }
  }

  /** Otherwise it keeps every line when it is empty, and exactly the lines it passes, in
      their order, when it is not. */
  lemma {:induction false} ByItemInOrder(filter: string, xs: seq<Line>)
    requires ByItem(filter, xs).Ok?
    ensures ByItem(filter, xs).value == if filter == "" then xs else Lists.Filter(xs, ItemTest(filter))
  {
    if filter != "" && |xs| > 0 {
      ByItemInOrder(filter, xs[1..]);
    }
  }

  /** The sort key: the timestamp text, compared character by character. */
  function TimeKey(x: Line): seq<int> {
    Order.StrKey(Sheet.Lookup(x.log, "timestamp").GetOr(""))
  }

  // ---------------------------------------------------------------- zero stock and the ledger

  /** The stock texts this page counts as nothing left. */
  predicate ZeroWord(s: string) {
    s in {"0", "0.0", ""}
  }

  /** str(item.get("stock", "0")).strip() in ["0", "0.0", ""] */
  predicate ZeroStock(item: Catalog.Item) {
    ZeroWord(Text.PyStrip(PyStr(Catalog.Field(item, "stock").GetOr(Str("0")))))
  }

  function ZeroItems(items: seq<Catalog.Item>): (r: seq<Catalog.Item>)
    ensures forall x :: x in r <==> x in items && ZeroStock(x)
  {
    if |items| == 0 then []
    else
      var rest := ZeroItems(items[1..]);
      assert forall x :: x in items <==> x == items[0] || x in items[1..];
      if ZeroStock(items[0]) then [items[0]] + rest else rest
  }

  /** The lines of the zero-stock articles. */
  function LinesFor(xs: seq<Line>, articles: seq<Value>): (r: seq<Line>)
    ensures forall x :: x in r <==> x in xs && Str(Sheet.Cell(x.log, 1)) in articles
  {
    if |xs| == 0 then []
    else
      var rest := LinesFor(xs[1..], articles);
      assert forall x :: x in xs <==> x == xs[0] || x in xs[1..];
      if Str(Sheet.Cell(xs[0].log, 1)) in articles then [xs[0]] + rest else rest
  }

  /** The log dicts of the lines, in order. */
  function LogsOf(xs: seq<Line>): (r: seq<Sheet.Dict>)
    ensures |r| == |xs| && forall k :: 0 <= k < |xs| ==> r[k] == xs[k].log
  {
    seq(|xs|, k requires 0 <= k < |xs| => xs[k].log)
  }

  /** A reported holding: article, its product name, user, quantity. */
  datatype Holding = Holding(article: string, productName: Value, user: string, quantity: int)

  function Holdings(out: seq<((string, string), int)>, descriptions: seq<(Value, Value)>): (r: seq<Holding>)
    ensures |r| == |out|
    ensures forall i :: 0 <= i < |out| ==>
              r[i] == Holding(out[i].0.0, ProductName(descriptions, out[i].0.0), out[i].0.1, out[i].1)
  {
    seq(|out|, i requires 0 <= i < |out| =>
      Holding(out[i].0.0, ProductName(descriptions, out[i].0.0), out[i].0.1, out[i].1))
  }

  /** The holdings over the shown lines: nothing where no item is at zero stock. */
  function Unreturned(items: seq<Catalog.Item>, shown: seq<Line>): (r: Result<seq<((string, string), int)>, string>)
    ensures |ZeroItems(items)| == 0 ==> r == Ok([])
  {
    var zero := ZeroItems(items);
    if |zero| == 0 then Ok([])
    else
      match Catalog.ArticleNumbers(zero)
      case Err(e) => Err(e)
      case Ok(articles) =>
        match Catalog.ReadMoves(LogsOf(LinesFor(shown, articles)))
        case Err(e) => Err(e)
        case Ok(ms) => Ok(Ledger.Outstanding(ms))
  }

  /** What the page renders. */
  datatype Page = Page(lines: seq<Line>, unreturned: seq<Holding>)

  /** The lines the page shows: read, named, filtered, newest first. */
  function Shown(userArg: string, itemArg: string, t: Sheet.Table, descriptions: seq<(Value, Value)>,
                 localTime: string -> Option<string>): (r: Result<seq<Line>, string>)
  {
    var ls := Sheet.PositionalRows(Fields, t);
    var xs := Lines(ls, descriptions, localTime);
    var byUser := ByUser(Text.Lower(userArg), xs);
    match ByItem(Text.Lower(itemArg), byUser)
    case Err(e) => Err(e)
    case Ok(kept) =>
      Order.SortSorted(kept, TimeKey, true);
      Ok(Order.SortBy(kept, TimeKey, true))
  }

  /** view_logs: Err carries the text of the 500 answer. */
  function ViewLogs(userArg: string, itemArg: string, t: Sheet.Table, items: seq<Catalog.Item>,
                    localTime: string -> Option<string>): (r: Result<Page, string>)
  {
    match Descriptions(items)
    case Err(e) => Err(e)
    case Ok(descriptions) =>
      match Shown(userArg, itemArg, t, descriptions, localTime)
      case Err(e) => Err(e)
      case Ok(shown) =>
        match Unreturned(items, shown)
        case Err(e) => Err(e)
        case Ok(out) => Ok(Page(shown, Holdings(out, descriptions)))
  }

  /** The page shows logs of the sheet only, each kept by both filters, newest first, and
      every log that the filters keep is shown. */
  lemma ShownSpec(userArg: string, itemArg: string, t: Sheet.Table, descriptions: seq<(Value, Value)>,
                  localTime: string -> Option<string>, x: Line)
    requires Shown(userArg, itemArg, t, descriptions, localTime).Ok?
    ensures var r := Shown(userArg, itemArg, t, descriptions, localTime).value;
            Order.Sorted(r, TimeKey, true)
            && (x in r <==> (x in Lines(Sheet.PositionalRows(Fields, t), descriptions, localTime)
                             && UserKept(Text.Lower(userArg), x)
                             && (Text.Lower(itemArg) == "" || ItemKept(Text.Lower(itemArg), x) == Ok(true))))
    ensures var byUser := Lists.Filter(Lines(Sheet.PositionalRows(Fields, t), descriptions, localTime), UserTest(Text.Lower(userArg)));
            multiset(Shown(userArg, itemArg, t, descriptions, localTime).value)
            == multiset(if Text.Lower(itemArg) == "" then byUser else Lists.Filter(byUser, ItemTest(Text.Lower(itemArg))))
  {
    var xs := Lines(Sheet.PositionalRows(Fields, t), descriptions, localTime);
    ByUserInOrder(Text.Lower(userArg), xs);
    var kept := ByItem(Text.Lower(itemArg), ByUser(Text.Lower(userArg), xs)).value;
    ByItemInOrder(Text.Lower(itemArg), ByUser(Text.Lower(userArg), xs));
    Order.SortSorted(kept, TimeKey, true);
    var r := Order.SortBy(kept, TimeKey, true);
    assert x in r <==> x in multiset(r);
    assert x in kept <==> x in multiset(kept);
  }

  /** A holding is reported exactly when the user's net of takes less returns of a
      zero-stock article, over the lines shown, is positive. */
  lemma UnreturnedIff(items: seq<Catalog.Item>, shown: seq<Line>, article: string, user: string, n: int)
    requires |ZeroItems(items)| > 0 && Unreturned(items, shown).Ok?
    ensures Catalog.ArticleNumbers(ZeroItems(items)).Ok?
    ensures var ms := Catalog.ReadMoves(LogsOf(LinesFor(shown, Catalog.ArticleNumbers(ZeroItems(items)).value)));
            ms.Ok?
            && (((article, user), n) in Unreturned(items, shown).value <==> n > 0 && n == Ledger.NetOf(ms.value, (article, user)))
  {
    var ms := Catalog.ReadMoves(LogsOf(LinesFor(shown, Catalog.ArticleNumbers(ZeroItems(items)).value))).value;
    Ledger.OutstandingIff(ms, (article, user), n);
  }

  /** This page also counts an empty stock text and "0.0" as out of stock, where the
      catalog page does not. */
  lemma ZeroWordsDiffer(item: Catalog.Item)
    requires Catalog.Field(item, "stock") == Some(Str(""))
    ensures ZeroStock(item) && !Catalog.ZeroStock(item)
  {
    Text.StripNoop("", Text.IsPySpace);
  }
}
