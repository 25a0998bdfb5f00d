/** The catalog page and the quick article search: filtering the product list by a free-text
    query and three exact filters, cutting it into pages of 24, the sorted lists of
    categories, suppliers and locations, the zero-stock articles with the quantities users
    still hold of them, and the search box's first twenty hits. */
module Catalog {
  import opened Wrappers
  import opened Json
  import Text
  import Sheet
  import Numerals
  import Order
  import Ledger
  import Lists

  /** A product as the product table's client returns it: column name to value. */
  type Item = seq<(string, Value)>

  function Field(item: Item, key: string): Option<Value> {
    Get(Obj(item), key)
  }

  // ---------------------------------------------------------------- the match filter

  /** str(item.get(key, '')).lower() */
  function SearchField(item: Item, key: string): string {
    Text.Lower(PyStr(Field(item, key).GetOr(Str(""))))
  }

  /** The five fields the free-text query looks in. */
  function SearchFields(item: Item): (fs: seq<string>)
    ensures |fs| == 5
  {
    [SearchField(item, "product_name"), SearchField(item, "article_number"), SearchField(item, "category"),
     SearchField(item, "supplier"), SearchField(item, "location")]
  }

  /** The request's filters: the query already stripped and lower-cased, the three exact
      filters as given. */
  datatype Filters = Filters(query: string, category: string, supplier: string, location: string)

  /** q.strip().lower() */
  function Normalized(q: string): string {
    Text.Lower(Text.PyStrip(q))
  }

  /** An empty filter passes everything; otherwise the item's value must be that text. */
  predicate Exact(filter: string, item: Item, key: string) {
    filter == "" || Field(item, key) == Some(Str(filter))
  }

  /** match(item): the query occurs in one of the five fields (or is empty), and each
      non-empty exact filter equals the item's value. */
  predicate Matches(f: Filters, item: Item) {
    (f.query == "" || exists i :: 0 <= i < 5 && Text.Contains(SearchFields(item)[i], f.query))
    && Exact(f.category, item, "category") && Exact(f.supplier, item, "supplier")
    && Exact(f.location, item, "location")
  }

  /** match, with the request's filters fixed. */
  function MatchOf(f: Filters): Item -> bool {
    x => Matches(f, x)
  }

  /** list(filter(match, items)): exactly the matching items, in catalogue order. */
  function Filtered(f: Filters, items: seq<Item>): (r: seq<Item>)
    ensures |r| <= |items|
    ensures forall x :: x in r <==> x in items && Matches(f, x)
  {
    if |items| == 0 then []
    else
      var rest := Filtered(f, items[1..]);
      assert forall x :: x in items <==> x == items[0] || x in items[1..];
      if Matches(f, items[0]) then [items[0]] + rest else rest
  }

  /** The matching items, in catalogue order and nothing else. */
  lemma {:induction false} FilteredInOrder(f: Filters, items: seq<Item>)
    ensures Filtered(f, items) == Lists.Filter(items, MatchOf(f))
  {
    if |items| > 0 {
      FilteredInOrder(f, items[1..]);
    }
  }

  /** With no query and no filter every item is listed, in order. */
  lemma {:induction false} NoFilterKeepsAll(items: seq<Item>)
    ensures Filtered(Filters("", "", "", ""), items) == items
  {
    if |items| > 0 {
      NoFilterKeepsAll(items[1..]);
      assert items == [items[0]] + items[1..];
    }
  }

  // ---------------------------------------------------------------- pagination

  const PerPage: nat := 24

  /** max(ceil(n / 24), 1) */
  function TotalPages(n: nat): (r: nat)
    ensures r >= 1 && n <= PerPage * r
    ensures n > 0 ==> PerPage * (r - 1) < n
  {
    var p := (n + PerPage - 1) / PerPage;
    if p > 1 then p else 1
  }

  /** filtered[start:start + 24] with start = (page - 1) * 24, Python's slice: a page
      below 1 gives a negative start, which counts from the end of the list. */
  function PageOf<T>(xs: seq<T>, page: int): (r: seq<T>)
    ensures |r| <= PerPage
  {
    var start := (page - 1) * PerPage;
    var a := Text.SliceBound(start, |xs|);
    var b := Text.SliceBound(start + PerPage, |xs|);
    assert b <= a + PerPage;
    Text.PySlice(xs, start, start + PerPage)
  }

  /** Every listed item is on exactly the page its position says, within the page count:
      item i is entry i % 24 of page i / 24 + 1. */
  lemma PageCovers<T>(xs: seq<T>, i: nat)
    requires i < |xs|
    ensures 1 <= i / PerPage + 1 <= TotalPages(|xs|)
    ensures var p := PageOf(xs, i / PerPage + 1); i % PerPage < |p| && p[i % PerPage] == xs[i]
  {
    var page := i / PerPage + 1;
    var start := (page - 1) * PerPage;
    assert start == i - i % PerPage;
    var stop := if start + PerPage <= |xs| then start + PerPage else |xs|;
    assert PageOf(xs, page) == xs[start..stop];
  }

  /** Page 0 always shows nothing: its slice runs from 24 before the end up to index 0. */
  lemma PageZeroEmpty<T>(xs: seq<T>)
    ensures PageOf(xs, 0) == []
  {}

  // ---------------------------------------------------------------- the unique lists

  /** item.get(key) or default: Err where the value is text-less and truthy (sorting a set
      that mixes it with text raises). */
  function OrDefault(v: Option<Value>, default: string): (r: Result<string, string>)
    ensures v.None? ==> r == Ok(default)
    ensures v.Some? && v.value.Str? ==> r == Ok(if v.value.s == "" then default else v.value.s)
  {
    if v.None? || !Truthy(v.value) then Ok(default)
    else if v.value.Str? then Ok(v.value.s)
    else Err("'<' not supported between instances of 'str' and '" + TypeName(v.value) + "'")
  }

  /** The labels of the items under key, one per item. */
  function Labels(items: seq<Item>, key: string, default: string): (r: Result<seq<string>, string>)
    ensures r.Ok? ==> |r.value| == |items|
                      && forall i :: 0 <= i < |items| ==> OrDefault(Field(items[i], key), default) == Ok(r.value[i])
  {
    if |items| == 0 then Ok([])
    else
      match OrDefault(Field(items[0], key), default)
      case Err(e) => Err(e)
      case Ok(l) =>
        match Labels(items[1..], key, default)
        case Err(e) => Err(e)
        case Ok(ls) =>
          assert forall i :: 1 <= i < |items| ==> items[1..][i - 1] == items[i];
          Ok([l] + ls)
  }

  /** sorted(set(item.get(key) or default for item in items)): strictly increasing, and
      holding exactly the labels of the items. */
  function UniqueLabels(items: seq<Item>, key: string, default: string): (r: Result<seq<string>, string>)
    ensures r.Ok? ==> Order.StrictlyIncreasing(r.value)
    ensures r.Ok? ==> forall s :: s in r.value <==> exists i :: 0 <= i < |items| && OrDefault(Field(items[i], key), default) == Ok(s)
  {
    match Labels(items, key, default)
    case Err(e) => Err(e)
    case Ok(ls) =>
      assert forall s :: s in ls <==> exists i :: 0 <= i < |ls| && ls[i] == s;
      Ok(Order.SortedSet(ls))
  }

  // ---------------------------------------------------------------- zero stock and the ledger

  /** str(item.get("stock", "0")).strip() == "0": an item without a stock value counts too. */
  predicate ZeroStock(item: Item) {
    Text.PyStrip(PyStr(Field(item, "stock").GetOr(Str("0")))) == "0"
  }

  /** The number 0, the text "0" and a missing stock all count as zero stock. */
  lemma ZeroStockCases(item: Item)
    ensures Field(item, "stock") == Some(Num(0)) ==> ZeroStock(item)
    ensures Field(item, "stock") == Some(Str("0")) ==> ZeroStock(item)
    ensures Field(item, "stock").None? ==> ZeroStock(item)
  {
    assert Numerals.IntToString(0) == "0";
    Text.StripNoop("0", Text.IsPySpace);
  }

  /** The zero-stock items, in order. */
  function ZeroItems(items: seq<Item>): (r: seq<Item>)
    ensures forall x :: x in r <==> x in items && ZeroStock(x)
  {
    if |items| == 0 then []
    else
      var rest := ZeroItems(items[1..]);
      assert forall x :: x in items <==> x == items[0] || x in items[1..];
      if ZeroStock(items[0]) then [items[0]] + rest else rest
  }

  /** [item["article_number"] for item in items]: Err (KeyError) where one lacks it. */
  function ArticleNumbers(items: seq<Item>): (r: Result<seq<Value>, string>)
    ensures r.Ok? ==> |r.value| == |items| && forall i :: 0 <= i < |items| ==> Field(items[i], "article_number") == Some(r.value[i])
  {
    if |items| == 0 then Ok([])
    else
      match Field(items[0], "article_number")
      case None => Err("'article_number'")
      case Some(a) =>
        match ArticleNumbers(items[1..])
        case Err(e) => Err(e)
        case Ok(rest) =>
          assert forall i :: 1 <= i < |items| ==> items[1..][i - 1] == items[i];
          Ok([a] + rest)
  }

  /** A cell as a Python value: None where the row does not reach the column. */
  function AsValue(o: Option<string>): Value {
    if o.None? then Null else Str(o.value)
  }

  /** The log lines of the logs sheet for the given articles: non-empty rows whose
      article_number is one of them. */
  function LogsFor(t: Sheet.Table, articles: seq<Value>): (r: seq<Sheet.Dict>)
    ensures |t| == 0 ==> r == []
    ensures forall l :: l in r ==> AsValue(Sheet.Lookup(l, "article_number")) in articles
  {
    if |t| == 0 then [] else Rows(t[0], t[1..], articles)
  }

  function Rows(headers: Sheet.Row, rows: seq<Sheet.Row>, articles: seq<Value>): (r: seq<Sheet.Dict>)
    ensures forall l :: l in r ==> AsValue(Sheet.Lookup(l, "article_number")) in articles
  {
    if |rows| == 0 then []
    else
      var rest := Rows(headers, rows[1..], articles);
      var log := Sheet.Zip(headers, rows[0]);
      if |rows[0]| > 0 && AsValue(Sheet.Lookup(log, "article_number")) in articles then [log] + rest else rest
  }

  /** One log line as the ledger reads it: key (article_number, user_name), quantity
      int(log.get("quantity", 0)), then the action; Err where a key is missing or the
      quantity is not an integer. */
  function ReadMove(log: Sheet.Dict): (r: Result<Ledger.Move<(string, string)>, string>)
    ensures r.Ok? ==> Sheet.Lookup(log, "article_number") == Some(r.value.key.0)
                      && Sheet.Lookup(log, "user_name") == Some(r.value.key.1)
                      && Sheet.Lookup(log, "action").Some?
                      && r.value.action == Ledger.ActionOf(Sheet.Lookup(log, "action").value)
  {
    match Sheet.Lookup(log, "article_number")
    case None => Err("'article_number'")
    case Some(article) =>
      match Sheet.Lookup(log, "user_name")
      case None => Err("'user_name'")
      case Some(user) =>
        var q := Sheet.Lookup(log, "quantity");
        var qty := if q.None? then Some(0) else Numerals.ParsePyInt(q.value);
        if qty.None? then Err("invalid literal for int() with base 10: '" + q.value + "'")
        else
          match Sheet.Lookup(log, "action")
          case None => Err("'action'")
          case Some(action) => Ok(Ledger.Move((article, user), Ledger.ActionOf(action), qty.value))
  }

  /** The moves of the log lines, in order; the first unreadable line stops the page. */
  function ReadMoves(logs: seq<Sheet.Dict>): (r: Result<seq<Ledger.Move<(string, string)>>, string>)
    ensures r.Ok? ==> |r.value| == |logs| && forall i :: 0 <= i < |logs| ==> ReadMove(logs[i]) == Ok(r.value[i])
  {
    if |logs| == 0 then Ok([])
    else
      match ReadMove(logs[0])
      case Err(e) => Err(e)
      case Ok(m) =>
        match ReadMoves(logs[1..])
        case Err(e) => Err(e)
        case Ok(ms) =>
          assert forall i :: 1 <= i < |logs| ==> logs[1..][i - 1] == logs[i];
          Ok([m] + ms)
  }

  /** The quantities users still hold of zero-stock articles: nothing where no item is at
      zero stock (the logs are then not read). */
  function Unreturned(items: seq<Item>, logs: Sheet.Table): (r: Result<seq<((string, string), int)>, string>)
    ensures |ZeroItems(items)| == 0 ==> r == Ok([])
  {
    var zero := ZeroItems(items);
    if |zero| == 0 then Ok([])
    else
      match ArticleNumbers(zero)
      case Err(e) => Err(e)
      case Ok(articles) =>
        match ReadMoves(LogsFor(logs, articles))
        case Err(e) => Err(e)
        case Ok(ms) => Ok(Ledger.Outstanding(ms))
  }

  /** Every reported holding is a positive net of takes less returns by that user of a
      zero-stock article, over the logged lines of the zero-stock articles, and every such
      positive net is reported. */
  lemma UnreturnedIff(items: seq<Item>, logs: Sheet.Table, article: string, user: string, n: int)
    requires |ZeroItems(items)| > 0 && Unreturned(items, logs).Ok?
    ensures ArticleNumbers(ZeroItems(items)).Ok?
    ensures var ms := ReadMoves(LogsFor(logs, ArticleNumbers(ZeroItems(items)).value));
            ms.Ok?
            && (((article, user), n) in Unreturned(items, logs).value <==> n > 0 && n == Ledger.NetOf(ms.value, (article, user)))
  {
    var ms := ReadMoves(LogsFor(logs, ArticleNumbers(ZeroItems(items)).value)).value;
    Ledger.OutstandingIff(ms, (article, user), n);
  }

  // ---------------------------------------------------------------- the page

  /** What the catalog page renders. */
  datatype Page = Page(items: seq<Item>, categories: seq<string>, suppliers: seq<string>,
                       locations: seq<string>, page: int, totalPages: nat,
                       unreturned: seq<((string, string), int)>)

  /** int(request.args.get('page', 1)) */
  function PageNumber(arg: Option<string>): (r: Result<int, string>)
    ensures arg.None? ==> r == Ok(1)
  {
    if arg.None? then Ok(1)
    else
      match Numerals.ParsePyInt(arg.value)
      case None => Err("invalid literal for int() with base 10: '" + arg.value + "'")
      case Some(n) => Ok(n)
  }

  /** catalog_view: the page of matching items, the page count, the three sorted lists and
      the unreturned zero-stock articles; Err carries the text of the 400 answer. */
  function CatalogView(q: string, category: string, supplier: string, location: string, pageArg: Option<string>,
                       items: seq<Item>, logs: Sheet.Table): (r: Result<Page, string>)
    ensures r.Ok? ==> |r.value.items| <= PerPage && r.value.totalPages >= 1
    ensures r.Ok? ==> forall x :: x in r.value.items ==> x in items && Matches(Filters(Normalized(q), category, supplier, location), x)
    ensures r.Ok? ==> Order.StrictlyIncreasing(r.value.categories) && Order.StrictlyIncreasing(r.value.suppliers)
                      && Order.StrictlyIncreasing(r.value.locations)
    ensures r.Ok? ==> PageNumber(pageArg) == Ok(r.value.page)
  {
    match PageNumber(pageArg)
    case Err(e) => Err(e)
    case Ok(page) =>
      var filtered := Filtered(Filters(Normalized(q), category, supplier, location), items);
      var shown := PageOf(filtered, page);
      assert forall x :: x in shown ==> x in filtered by {
        forall x | x in shown ensures x in filtered {
          var i :| 0 <= i < |shown| && shown[i] == x;
          PageIsSlice(filtered, page, i);
        }
      }
      match UniqueLabels(items, "category", "Undecided")
      case Err(e) => Err(e)
      case Ok(categories) =>
        match UniqueLabels(items, "supplier", "Unknown")
        case Err(e) => Err(e)
        case Ok(suppliers) =>
          match UniqueLabels(items, "location", "Undecided")
          case Err(e) => Err(e)
          case Ok(locations) =>
            match Unreturned(items, logs)
            case Err(e) => Err(e)
            case Ok(unreturned) =>
              Ok(Page(shown, categories, suppliers, locations, page, TotalPages(|filtered|), unreturned))
  }

  /** Every entry of a page is an entry of the list. */
  lemma PageIsSlice<T>(xs: seq<T>, page: int, i: nat)
    requires i < |PageOf(xs, page)|
    ensures PageOf(xs, page)[i] in xs
  {
    var start := (page - 1) * PerPage;
    var a := Text.SliceBound(start, |xs|);
    var b := Text.SliceBound(start + PerPage, |xs|);
    assert PageOf(xs, page) == xs[a..b];
    assert PageOf(xs, page)[i] == xs[a + i];
  }

  // ---------------------------------------------------------------- search_item

  const MaxHits: nat := 20

  /** (item.get(key) or "").lower() */
  function Lowered(item: Sheet.Dict, key: string): string {
    Text.Lower(Sheet.Lookup(item, key).GetOr(""))
  }

  /** The query occurs in the product name or the article number. */
  predicate Hit(query: string, item: Sheet.Dict) {
    Text.Contains(Lowered(item, "product_name"), query) || Text.Contains(Lowered(item, "article_number"), query)
  }

  /** Every hit of the rows, in order (the reference without the cap). */
  function AllHits(query: string, headers: Sheet.Row, rows: seq<Sheet.Row>): (r: seq<Sheet.Dict>)
    ensures forall x :: x in r ==> Hit(query, x)
  {
    if |rows| == 0 then []
    else
      var item := Sheet.Zip(headers, rows[0]);
      (if Hit(query, item) then [item] else []) + AllHits(query, headers, rows[1..])
  }

  /** The loop: append each hit, and stop as soon as twenty are collected. */
  function Collect(query: string, headers: Sheet.Row, rows: seq<Sheet.Row>, acc: seq<Sheet.Dict>): (r: seq<Sheet.Dict>)
    requires |acc| < MaxHits
    ensures acc <= r && |r| <= MaxHits
  {
    if |rows| == 0 then acc
    else
      var item := Sheet.Zip(headers, rows[0]);
      if Hit(query, item) then
        if |acc| + 1 >= MaxHits then acc + [item] else Collect(query, headers, rows[1..], acc + [item])
      else Collect(query, headers, rows[1..], acc)
  }

  /** The loop collects the first hits: what it has so far followed by the hits of the
      remaining rows, cut at twenty. */
  lemma {:induction false} CollectIsPrefix(query: string, headers: Sheet.Row, rows: seq<Sheet.Row>, acc: seq<Sheet.Dict>)
    requires |acc| < MaxHits
    ensures Collect(query, headers, rows, acc) == Text.Prefix(acc + AllHits(query, headers, rows), MaxHits)
  {
    if |rows| > 0 {
      var item := Sheet.Zip(headers, rows[0]);
      var rest := AllHits(query, headers, rows[1..]);
      if Hit(query, item) {
        assert acc + AllHits(query, headers, rows) == (acc + [item]) + rest;
        if |acc| + 1 < MaxHits {
          CollectIsPrefix(query, headers, rows[1..], acc + [item]);
        }
      } else {
        assert AllHits(query, headers, rows) == rest;
        CollectIsPrefix(query, headers, rows[1..], acc);
      }
    }
  }

  /** search_item: a query (stripped and lower-cased) shorter than two characters finds
      nothing; otherwise the first twenty products whose name or article number contains it. */
  function SearchItem(q: string, t: Sheet.Table): (r: seq<Sheet.Dict>)
    ensures |r| <= MaxHits
    ensures |Normalized(q)| < 2 ==> r == []
    ensures forall x :: x in r ==> Hit(Normalized(q), x)
  {
    var query := Normalized(q);
    if |query| < 2 || |t| == 0 then []
    else
      CollectIsPrefix(query, t[0], t[1..], []);
      assert forall x :: x in Collect(query, t[0], t[1..], []) ==> x in AllHits(query, t[0], t[1..]);
      Collect(query, t[0], t[1..], [])
  }

  /** The search answers exactly the first twenty hits, in table order. */
  lemma SearchIsFirstHits(q: string, t: Sheet.Table)
    requires |Normalized(q)| >= 2 && |t| > 0
    ensures SearchItem(q, t) == Text.Prefix(AllHits(Normalized(q), t[0], t[1..]), MaxHits)
  {
    CollectIsPrefix(Normalized(q), t[0], t[1..], []);
    assert [] + AllHits(Normalized(q), t[0], t[1..]) == AllHits(Normalized(q), t[0], t[1..]);
  }
}
