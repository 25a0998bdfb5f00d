/** What the take, return and add-stock pages share: the quantities a cart holds as
    JavaScript numbers, the cart lines, the look-up of the line an item already has, the
    edits every cart allows, and the requests a submit sends. */
module Carts {
  import opened Wrappers
  import opened Json
  import Numerals
  import Text

  /** A JavaScript number as a cart holds it: a whole number, or NaN. */
  datatype JsNum = Int(i: int) | NaN

  /** parseInt(text, 10): NaN where the text has no leading digits. */
  function ParseText(s: string): (q: JsNum)
    ensures q.NaN? <==> Numerals.JsParseInt(s).None?
  {
    match Numerals.JsParseInt(s)
    case None => NaN
    case Some(n) => Int(n)
  }

  /** Reading back the text of a whole number gives the number. */
  lemma ParseTextOfInt(n: int)
    ensures ParseText(Numerals.IntToString(n)) == Int(n)
  {
    Numerals.JsParseIntOfInt(n);
  }

  /** Math.max(1, q): every number below one becomes one, and NaN stays NaN. */
  function Max1(q: JsNum): (r: JsNum)
    ensures r.NaN? <==> q.NaN?
    ensures r.Int? ==> r.i >= 1 && r.i >= q.i && (q.i >= 1 ==> r.i == q.i)
  {
    match q
    case NaN => NaN
    case Int(n) => Int(if n < 1 then 1 else n)
  }

  /** A quantity a cart line can come to hold: NaN, or a whole number of at least one. */
  predicate Held(q: JsNum) {
    q.NaN? || q.i >= 1
  }

  /** parseInt(q, 10) || 1: NaN and zero read as one. */
  function OrOne(q: JsNum): (n: int)
    ensures Held(q) ==> n >= 1
    ensures q.Int? && q.i != 0 ==> n == q.i
    ensures q.NaN? || q.i == 0 ==> n == 1
  {
    if q.NaN? || q.i == 0 then 1 else q.i
  }

  /** Math.max(1, parseInt(qty || 1, 10)), the quantity an add from the project page brings:
      a falsy quantity is one; otherwise parseInt reads String(qty) and the result is raised
      to one, so a number, numeric text or a one-element array holding a number adds
      that number, and an object, true or an empty array adds NaN. */
  function AddQty(qty: Value): (q: JsNum)
    ensures Held(q)
    ensures !JsTruthy(qty) ==> q == Int(1)
    ensures qty.Num? && qty.n >= 1 ==> q == Int(qty.n)
    ensures qty.Str? && qty.s != "" ==> (q.NaN? <==> Numerals.JsParseInt(qty.s).None?)
    ensures qty.Obj? || qty == Bool(true) || qty == Arr([]) ==> q.NaN?
    ensures qty.Arr? && |qty.items| == 1 && qty.items[0].Num? && qty.items[0].n >= 1 ==> q == Int(qty.items[0].n)
  {
    if !JsTruthy(qty) then Int(1)
    else
      StringReads(qty);
      Max1(ParseText(JsString(qty)))
  }

  /** What parseInt makes of String(v): a number and a one-number array read as that
      number; an object, a boolean and an empty array read as NaN. */
  lemma StringReads(v: Value)
    ensures v.Num? ==> ParseText(JsString(v)) == Int(v.n)
    ensures v.Arr? && |v.items| == 1 && v.items[0].Num? ==> ParseText(JsString(v)) == Int(v.items[0].n)
    ensures v.Obj? || v.Bool? || v == Arr([]) ==> ParseText(JsString(v)).NaN?
  {
    match v
    case Num(n) => ParseTextOfInt(n);
    case Arr(items) =>
      if |items| == 1 && items[0].Num? {
        assert JsElement(items[0]) == Numerals.IntToString(items[0].n);
        ParseTextOfInt(items[0].n);
      } else if |items| == 0 {
        Numerals.JsParseIntNoDigit("");
      }
    case Obj(_) => Numerals.JsParseIntNoDigit("[object Object]");
    case Bool(b) =>
      if b { Numerals.JsParseIntNoDigit("true"); } else { Numerals.JsParseIntNoDigit("false"); }
    case _ =>
  }

  /** JavaScript's + on two numbers: NaN absorbs. */
  function Plus(a: JsNum, b: JsNum): (r: JsNum)
    ensures r.NaN? <==> a.NaN? || b.NaN?
    ensures r.Int? ==> r.i == a.i + b.i
  {
    if a.NaN? || b.NaN? then NaN else Int(a.i + b.i)
  }

  /** (parseInt(existing, 10) || 0) + add: an existing NaN counts as nothing. */
  function Merged(existing: JsNum, add: JsNum): (q: JsNum)
    ensures Held(existing) && Held(add) ==> Held(q)
    ensures q.NaN? <==> add.NaN?
    ensures existing.Int? ==> q == Plus(existing, add)
    ensures existing.NaN? ==> q == add
  {
    match add
    case NaN => NaN
    case Int(a) => Int((if existing.Int? then existing.i else 0) + a)
  }

  /** JSON.stringify writes a whole number as itself and NaN as null. */
  function AsJson(q: JsNum): (v: Value)
    ensures v.Null? <==> q.NaN?
    ensures q.Int? ==> v == Num(q.i)
  {
    match q
    case NaN => Null
    case Int(n) => Num(n)
  }

  /** A cart line: the item object as the page spread it, and the quantity it holds. */
  datatype Line = Line(item: Value, qty: JsNum)

  /** Every line's quantity is one the cart can come to hold. */
  predicate AllHeld(cart: seq<Line>) {
    forall k :: 0 <= k < |cart| ==> Held(cart[k].qty)
  }

  /** How a page decides that a line already holds an item. */
  datatype Key =
    | ByArticle              // i.article_number === item.article_number
    | ById                   // i.id === item.id
    | ByIdOrArticle          // i.id === item.id || i.article_number === item.article_number
    | ByTruthyIdOrArticle    // (i.id && i.id === item.id) || i.article_number === item.article_number

  /** JavaScript's === between the same field of two objects; two absent fields (both
      undefined) are equal. */
  predicate Same(a: Value, b: Value, field: string) {
    Get(a, field) == Get(b, field)
  }

  predicate Matches(key: Key, line: Line, item: Value) {
    match key
    case ByArticle => Same(line.item, item, "article_number")
    case ById => Same(line.item, item, "id")
    case ByIdOrArticle => Same(line.item, item, "id") || Same(line.item, item, "article_number")
    case ByTruthyIdOrArticle =>
      (JsTruthy(GetOrNull(line.item, "id")) && Same(line.item, item, "id")) || Same(line.item, item, "article_number")
  }

  /** Array.prototype.findIndex: the first line that holds the item, if any. */
  function Find(cart: seq<Line>, key: Key, item: Value): (r: Option<nat>)
    ensures r.Some? ==> r.value < |cart| && Matches(key, cart[r.value], item)
                        && forall j :: 0 <= j < r.value ==> !Matches(key, cart[j], item)
    ensures r.None? <==> forall j :: 0 <= j < |cart| ==> !Matches(key, cart[j], item)
  {
    if |cart| == 0 then None
    else if Matches(key, cart[0], item) then Some(0)
    else
      match Find(cart[1..], key, item)
      case None => None
      case Some(j) => Some(j + 1)
  }

  /** A scan or a pick from the suggestions: the new line goes at the end unless a line
      already holds the item, in which case the cart is left as it was. */
  function AddNew(cart: seq<Line>, key: Key, item: Value, line: Line): (r: seq<Line>)
    requires Matches(key, line, item)
    ensures cart <= r && |r| <= |cart| + 1
    ensures |r| == |cart| + 1 <==> Find(cart, key, item).None?
    ensures |r| == |cart| + 1 ==> r[|cart|] == line
    ensures Find(r, key, item).Some?
    ensures AllHeld(cart) && Held(line.qty) ==> AllHeld(r)
  {
    if Find(cart, key, item).Some? then cart else cart + [line]
  }

  /** No two lines hold the same item under the page's comparison. */
  predicate Distinct(cart: seq<Line>, key: Key) {
    forall i, j :: 0 <= i < j < |cart| ==> !Matches(key, cart[j], cart[i].item)
  }

  /** Adding through AddNew keeps a cart free of duplicate lines, for the comparisons that
      are symmetric (by article, by id, by either). */
  lemma AddNewKeepsDistinct(cart: seq<Line>, key: Key, line: Line)
    requires key != ByTruthyIdOrArticle
    requires Matches(key, line, line.item)
    ensures Distinct(cart, key) ==> Distinct(AddNew(cart, key, line.item, line), key)
  {
    var r := AddNew(cart, key, line.item, line);
    if |r| == |cart| + 1 && Distinct(cart, key) {
      forall i | 0 <= i < |cart|
        ensures !Matches(key, line, cart[i].item)
      {
        assert !Matches(key, cart[i], line.item);
      }
    }
  }

  /** splice(idx, 1): the line at idx goes and the others keep their order; an index past
      the end removes nothing. */
  function RemoveAt<T>(xs: seq<T>, idx: nat): (r: seq<T>)
    ensures idx >= |xs| ==> r == xs
    ensures idx < |xs| ==> |r| == |xs| - 1
    ensures idx < |xs| ==> forall k :: 0 <= k < |r| ==> r[k] == xs[if k < idx then k else k + 1]
    ensures idx < |xs| ==> multiset(r) + multiset{xs[idx]} == multiset(xs)
  {
    if idx < |xs| then
      assert xs == xs[..idx] + [xs[idx]] + xs[idx + 1..];
      xs[..idx] + xs[idx + 1..]
    else xs
  }

  /** Removing the element at idx leaves what came before it followed by what came after. */
  lemma RemoveAtSplits<T>(xs: seq<T>, idx: nat)
    requires idx < |xs|
    ensures xs == xs[..idx] + [xs[idx]] + xs[idx + 1..]
    ensures RemoveAt(xs, idx) == xs[..idx] + xs[idx + 1..]
  {
  }

  /** Removing a later element keeps the first one in front. */
  lemma RemoveAtCons<T>(xs: seq<T>, idx: nat)
    requires 0 < idx < |xs|
    ensures RemoveAt(xs, idx) == [xs[0]] + RemoveAt(xs[1..], idx - 1)
  {
    assert xs[..idx] == [xs[0]] + xs[1..][..idx - 1];
    assert xs[idx + 1..] == xs[1..][idx..];
  }

  /** updateQty / updateQuantity: the line at idx holds Math.max(1, parseInt(value)); the
      other lines are untouched. */
  function UpdateQty(cart: seq<Line>, idx: nat, value: string): (r: seq<Line>)
    requires idx < |cart|
    ensures |r| == |cart| && r[idx].item == cart[idx].item
    ensures forall k :: 0 <= k < |r| && k != idx ==> r[k] == cart[k]
    ensures r[idx].qty.NaN? <==> Numerals.JsParseInt(value).None?
    ensures Numerals.JsParseInt(value).Some? ==>
              r[idx].qty == Int(if Numerals.JsParseInt(value).value < 1 then 1 else Numerals.JsParseInt(value).value)
    ensures AllHeld(cart) ==> AllHeld(r)
  {
    cart[idx := Line(cart[idx].item, Max1(ParseText(value)))]
  }

  /** addItemForTake / addItemForReturn: the first line that holds the item gets
      (parseInt(quantity) || 0) + the added quantity; with no such line the pushed line is
      pushed with the added quantity. */
  function MergeAdd(cart: seq<Line>, key: Key, item: Value, qtyArg: Value, pushed: Value): (r: seq<Line>)
    ensures Find(cart, key, item).Some? ==>
              var i := Find(cart, key, item).value;
              |r| == |cart| && r[i] == Line(cart[i].item, Merged(cart[i].qty, AddQty(qtyArg)))
              && forall k :: 0 <= k < |r| && k != i ==> r[k] == cart[k]
    ensures Find(cart, key, item).None? ==> r == cart + [Line(pushed, AddQty(qtyArg))]
    ensures AllHeld(cart) ==> AllHeld(r)
  {
    match Find(cart, key, item)
    case None => cart + [Line(pushed, AddQty(qtyArg))]
    case Some(i) => cart[i := Line(cart[i].item, Merged(cart[i].qty, AddQty(qtyArg)))]
  }

  /** The item a scan answered is usable: `item && item.product_name`. */
  predicate Found(item: Value) {
    JsTruthy(item) && JsTruthy(GetOrNull(item, "product_name"))
  }

  /** A field copied from the line's item into a summary entry; JSON.stringify leaves out a
      field whose value is undefined. */
  function Copied(item: Value, field: string): (fs: seq<(string, Value)>)
    ensures Get(item, field).None? ==> fs == []
    ensures Get(item, field).Some? ==> fs == [(field, Get(item, field).value)]
  {
    match Get(item, field)
    case None => []
    case Some(v) => [(field, v)]
  }

  /** Looking a field up past trailing fields of other names reads the fields before them. */
  lemma {:induction false} GetPast(fields: seq<(string, Value)>, tail: seq<(string, Value)>, k: string)
    requires forall i :: 0 <= i < |tail| ==> tail[i].0 != k
    ensures Get(Obj(fields + tail), k) == Get(Obj(fields), k)
    decreases |tail|
  {
    if |tail| > 0 {
      var all := fields + tail;
      GetStep(all, k);
      assert all[..|all| - 1] == fields + tail[..|tail| - 1];
      GetPast(fields, tail[..|tail| - 1], k);
    } else {
      assert fields + tail == fields;
    }
  }

  /** A field followed only by fields of other names is the one a look-up finds. */
  lemma GetLast(fields: seq<(string, Value)>, k: string, v: Value, tail: seq<(string, Value)>)
    requires forall i :: 0 <= i < |tail| ==> tail[i].0 != k
    ensures Get(Obj(fields + [(k, v)] + tail), k) == Some(v)
  {
    GetPast(fields + [(k, v)], tail, k);
    GetStep(fields + [(k, v)], k);
    assert (fields + [(k, v)])[..|fields|] == fields;
  }

  /** A summary entry that starts with the item's article number and product name, followed
      by fields of other names, reads both as the item does. */
  lemma CopiedRead(item: Value, tail: seq<(string, Value)>)
    requires forall i :: 0 <= i < |tail| ==> tail[i].0 != "article_number" && tail[i].0 != "product_name"
    ensures Get(Obj(Copied(item, "article_number") + Copied(item, "product_name") + tail), "article_number")
            == Get(item, "article_number")
    ensures Get(Obj(Copied(item, "article_number") + Copied(item, "product_name") + tail), "product_name")
            == Get(item, "product_name")
  {
    var c1 := Copied(item, "article_number");
    var c2 := Copied(item, "product_name");
    GetPast(c1 + c2, tail, "article_number");
    GetPast(c1 + c2, tail, "product_name");
    CopiedArticle(item);
    CopiedName(item);
  }

  lemma CopiedArticle(item: Value)
    ensures Get(Obj(Copied(item, "article_number") + Copied(item, "product_name")), "article_number")
            == Get(item, "article_number")
  {
    var c1 := Copied(item, "article_number");
    GetPast(c1, Copied(item, "product_name"), "article_number");
    if |c1| == 1 {
      GetStep(c1, "article_number");
    }
  }

  lemma CopiedName(item: Value)
    ensures Get(Obj(Copied(item, "article_number") + Copied(item, "product_name")), "product_name")
            == Get(item, "product_name")
  {
    var c1 := Copied(item, "article_number");
    var c2 := Copied(item, "product_name");
    if |c2| == 1 {
      GetLast(c1, "product_name", c2[0].1, []);
      assert c1 + c2 == c1 + [("product_name", c2[0].1)] + [];
    } else {
      GetPast([], c1, "product_name");
      assert [] + c1 == c1 + c2;
    }
  }

  /** The project number a page reads: the trimmed text of its project input, or "" when
      the page has none. */
  function ProjectNumber(input: Option<string>): (pn: string)
    ensures input.None? ==> pn == ""
  {
    if input.None? then "" else Text.JsTrim(input.value)
  }

  /** A request a page sends: its address and the fields of its body. */
  datatype Request = Request(url: string, body: seq<(string, Value)>)

  /** The project insert that follows the confirm: sent only when the confirm succeeded and
      a project number was entered. */
  function ProjectInsert(url: string, summary: Value, projectNumber: string, confirmOk: bool): (rs: seq<Request>)
    ensures |rs| <= 1
    ensures |rs| == 1 <==> confirmOk && projectNumber != ""
    ensures |rs| == 1 ==> rs[0].url == url && rs[0].body == [("project_number", Str(projectNumber)), ("items", summary)]
  {
    if confirmOk && projectNumber != "" then [Request(url, [("project_number", Str(projectNumber)), ("items", summary)])]
    else []
  }
}
