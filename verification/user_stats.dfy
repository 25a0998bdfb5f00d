/** The user-statistics pages: the list of users who appear in the movement log, and for
    one user the totals taken and returned, the time last active, the five articles moved
    most often and the quantities of each article still held. */
module UserStats {
  import opened Wrappers
  import opened Json
  import Text
  import Sheet
  import Numerals
  import Order
  import Ledger
  import Catalog
  import Lists

  // ---------------------------------------------------------------- overview

  /** The user name of a row read under the sheet's header, where it is set and not empty. */
  function UserOf(headers: Sheet.Row, row: Sheet.Row): Option<string> {
    var u := Sheet.Lookup(Sheet.Zip(headers, row), "user_name");
    if row != [] && u.Some? && u.value != "" then u else None
  }

  /** [log['user_name'] for log in logs if log.get('user_name')] over the non-empty rows. */
  function UserNames(headers: Sheet.Row, rows: seq<Sheet.Row>): (r: seq<string>)
    ensures forall u :: u in r <==> exists j :: 0 <= j < |rows| && UserOf(headers, rows[j]) == Some(u)
  {
    if |rows| == 0 then []
    else
      var rest := UserNames(headers, rows[1..]);
      assert forall j :: 1 <= j < |rows| ==> rows[1..][j - 1] == rows[j];
      match UserOf(headers, rows[0])
      case Some(u) => [u] + rest
      case None => rest
  }

  /** user_stats_overview: the distinct user names, sorted; none without a data row. */
  function Overview(t: Sheet.Table): (users: seq<string>)
    ensures Order.StrictlyIncreasing(users)
    ensures forall u :: u in users <==>
              |t| >= 2 && exists j :: 1 <= j < |t| && UserOf(t[0], t[j]) == Some(u)
  {
    if |t| < 2 then []
    else
      var names := UserNames(t[0], t[1..]);
      assert forall j :: 1 <= j < |t| ==> t[1..][j - 1] == t[j];
      Order.SortedSet(names)
  }

  // ---------------------------------------------------------------- one user's logs

  /** A row of the user: not empty, and its user name exactly theirs. */
  function OfUser(headers: Sheet.Row, username: string): Sheet.Row -> bool {
    row => row != [] && Sheet.Lookup(Sheet.Zip(headers, row), "user_name") == Some(username)
  }

  /** The logs of the non-empty rows whose user name is exactly the user's. */
  function UserLogs(headers: Sheet.Row, rows: seq<Sheet.Row>, username: string): (r: seq<Sheet.Dict>)
    ensures |r| <= |rows|
    ensures forall k :: 0 <= k < |r| ==> Sheet.Lookup(r[k], "user_name") == Some(username)
    ensures forall j :: 0 <= j < |rows| && rows[j] != [] && Sheet.Lookup(Sheet.Zip(headers, rows[j]), "user_name") == Some(username)
                        ==> Sheet.Zip(headers, rows[j]) in r
  {
    if |rows| == 0 then []
    else
      var rest := UserLogs(headers, rows[1..], username);
      assert forall j :: 1 <= j < |rows| ==> rows[1..][j - 1] == rows[j];
      var d := Sheet.Zip(headers, rows[0]);
      if rows[0] != [] && Sheet.Lookup(d, "user_name") == Some(username) then [d] + rest else rest
  }

  /** The user's logs are the records of the user's rows, in row order and nothing else. */
  lemma {:induction false} UserLogsInOrder(headers: Sheet.Row, rows: seq<Sheet.Row>, username: string)
    ensures UserLogs(headers, rows, username) == Lists.FilterMap(rows, OfUser(headers, username), Sheet.RecordOf(headers))
  {
    if |rows| > 0 {
      UserLogsInOrder(headers, rows[1..], username);
    }
  }

  /** The sort key: log.get("timestamp", ""), compared character by character. */
  function TimeKey(l: Sheet.Dict): seq<int> {
    Order.StrKey(Sheet.GetOr(l, "timestamp", ""))
  }

  /** What a log adds to the total for the action word: its quantity as an integer where its
      action is the word, else nothing; a missing action or quantity, or a quantity that is
      not an integer, raises. */
  function Contribution(l: Sheet.Dict, word: string): (r: Result<int, string>)
    ensures r.Ok? ==> Sheet.Lookup(l, "action").Some?
    ensures r.Ok? && Sheet.Lookup(l, "action").value != word ==> r.value == 0
    ensures r.Ok? && Sheet.Lookup(l, "action").value == word ==>
              Sheet.Lookup(l, "quantity").Some? && Numerals.ParsePyInt(Sheet.Lookup(l, "quantity").value) == Some(r.value)
  {
    match Sheet.Lookup(l, "action")
    case None => Err("'action'")
    case Some(a) =>
      if a != word then Ok(0)
      else
        match Sheet.Lookup(l, "quantity")
        case None => Err("'quantity'")
        case Some(q) =>
          match Numerals.ParsePyInt(q)
          case None => Err("invalid literal for int() with base 10: '" + q + "'")
          case Some(n) => Ok(n)
  }

  /** sum(int(log["quantity"]) for log in logs if log["action"] == word): the first log that
      raises stops the page. */
  function Total(logs: seq<Sheet.Dict>, word: string): (r: Result<int, string>) {
    if |logs| == 0 then Ok(0)
    else
      match Total(logs[..|logs| - 1], word)
      case Err(e) => Err(e)
      case Ok(s) =>
        match Contribution(logs[|logs| - 1], word)
        case Err(e) => Err(e)
        case Ok(c) => Ok(s + c)
  }

  /** Taking one log out: the total succeeds exactly when the total of the others and that
      log's own contribution do, and is then their sum. */
  lemma {:induction false} TotalWithout(logs: seq<Sheet.Dict>, word: string, i: nat)
    requires i < |logs|
    ensures var rest := logs[..i] + logs[i + 1..];
            (Total(logs, word).Ok? <==> Total(rest, word).Ok? && Contribution(logs[i], word).Ok?)
            && (Total(logs, word).Ok? ==> Total(logs, word).value == Total(rest, word).value + Contribution(logs[i], word).value)
    decreases |logs|
  {
    var n := |logs| - 1;
    if i == n {
      assert logs[..i] + logs[i + 1..] == logs[..n];
    } else {
      var init := logs[..n];
      TotalWithout(init, word, i);
      var rest := logs[..i] + logs[i + 1..];
      assert rest[..|rest| - 1] == init[..i] + init[i + 1..];
      assert rest[|rest| - 1] == logs[n];
    }
  }

  /** The totals do not depend on the order of the logs. */
  lemma {:induction false} TotalPermuted(xs: seq<Sheet.Dict>, ys: seq<Sheet.Dict>, word: string)
    requires multiset(xs) == multiset(ys)
    ensures Total(xs, word).Ok? <==> Total(ys, word).Ok?
    ensures Total(xs, word).Ok? ==> Total(xs, word).value == Total(ys, word).value
    decreases |ys|
  {
    if |ys| == 0 {
      assert |multiset(xs)| == 0;
    } else {
      var n := |ys| - 1;
      var i := Lists.MatchLast(xs, ys);
      TotalWithout(xs, word, i);
      TotalPermuted(xs[..i] + xs[i + 1..], ys[..n], word);
      assert ys[..n + 1] == ys;
    }
  }

  /** logs[0]["timestamp"][:16].replace("T", " "), or None without logs. */
  function LastActive(sorted: seq<Sheet.Dict>): (r: Result<Option<string>, string>)
    ensures |sorted| == 0 ==> r == Ok(None)
    ensures |sorted| > 0 && r.Ok? ==>
              var ts := Sheet.Lookup(sorted[0], "timestamp");
              ts.Some? && r.value.Some? && |r.value.value| == (if |ts.value| < 16 then |ts.value| else 16)
              && forall i :: 0 <= i < |r.value.value| ==> r.value.value[i] == (if ts.value[i] == 'T' then ' ' else ts.value[i])
  {
    if |sorted| == 0 then Ok(None)
    else
      match Sheet.Lookup(sorted[0], "timestamp")
      case None => Err("'timestamp'")
      case Some(ts) => Ok(Some(Text.ReplaceChar(Text.Prefix(ts, 16), 'T', ' ')))
  }

  // ---------------------------------------------------------------- top items

  /** The article numbers the Counter sees: each log's, where it is set and not empty. */
  function Articles(logs: seq<Sheet.Dict>): (r: seq<string>)
    ensures forall a :: a in r ==> a != ""
  {
    if |logs| == 0 then []
    else
      var a := Sheet.Lookup(logs[0], "article_number");
      if a.Some? && a.value != "" then [a.value] + Articles(logs[1..]) else Articles(logs[1..])
  }

  /** The reference count: how many times the article occurs. */
  function Count(xs: seq<string>, a: string): nat {
    if |xs| == 0 then 0 else Count(xs[..|xs| - 1], a) + (if xs[|xs| - 1] == a then 1 else 0)
  }

  /** Each occurrence as a take of one, so that the ledger's dict is the Counter: keys in
      first-occurrence order, each with its count. */
  function Ones(xs: seq<string>): (ms: seq<Ledger.Move<string>>)
    ensures |ms| == |xs| && forall i :: 0 <= i < |xs| ==> ms[i] == Ledger.Move(xs[i], Ledger.Take, 1)
  {
    seq(|xs|, i requires 0 <= i < |xs| => Ledger.Move(xs[i], Ledger.Take, 1))
  }

  /** The count behind each key of the Counter. */
  lemma {:induction false} OnesCount(xs: seq<string>, a: string)
    ensures Ledger.NetOf(Ones(xs), a) == Count(xs, a)
    ensures Ledger.Moved(Ones(xs), a) <==> a in xs
  {
    if |xs| > 0 {
      var init := xs[..|xs| - 1];
      assert Ones(xs)[..|xs| - 1] == Ones(init);
      OnesCount(init, a);
      Ledger.MovedSnoc(Ones(xs), a);
      assert a in xs <==> a in init || xs[|xs| - 1] == a by {
        assert xs == init + [xs[|xs| - 1]];
      }
    }
  }

  /** Counter(articles): (article, count) in first-occurrence order. */
  function Counts(xs: seq<string>): seq<(string, int)> {
    Ledger.Summary(Ones(xs))
  }

  /** The most_common sort key: the count. */
  function CountKey(p: (string, int)): seq<int> {
    [p.1]
  }

  /** most_common(5): the counts sorted by count, highest first, ties in first-occurrence
      order, at most five. */
  function MostCommon(xs: seq<string>): (r: seq<(string, int)>)
    ensures |r| <= 5
  {
    Text.Prefix(Order.SortBy(Counts(xs), CountKey, true), 5)
  }

  /** Every counted pair is an article with its count, and a pair is in the Counter
      exactly when its article occurs. */
  lemma CountsSpec(xs: seq<string>, a: string, n: int)
    ensures (a, n) in Counts(xs) <==> a in xs && n == Count(xs, a)
  {
    var acc := Counts(xs);
    Ledger.SummarySpec(Ones(xs), a);
    OnesCount(xs, a);
    if (a, n) in acc {
      var i :| 0 <= i < |acc| && acc[i] == (a, n);
      Ledger.FindFirst(acc, a, i);
    }
    if a in xs && n == Count(xs, a) {
      Ledger.FindIsMember(acc, a);
    }
  }

  /** The top items are articles with their true counts, highest count first. */
  lemma MostCommonSpec(xs: seq<string>)
    ensures Order.Sorted(MostCommon(xs), CountKey, true)
    ensures forall i :: 0 <= i < |MostCommon(xs)| ==>
              MostCommon(xs)[i].0 in xs && MostCommon(xs)[i].1 == Count(xs, MostCommon(xs)[i].0)
  {
    var sorted := Order.SortBy(Counts(xs), CountKey, true);
    var top := MostCommon(xs);
    Order.SortSorted(Counts(xs), CountKey, true);
    assert top == sorted[..|top|];
    forall i | 0 <= i < |top|
      ensures top[i].0 in xs && top[i].1 == Count(xs, top[i].0)
    {
      assert top[i] == sorted[i];
      assert top[i] in multiset(sorted);
      CountsSpec(xs, top[i].0, top[i].1);
    }
  }

  /** An article left out of the top items occurs no more often than any shown one, and
      then five are shown. */
  lemma LeftOutIsNoMoreCommon(xs: seq<string>, a: string)
    requires a in xs && forall i :: 0 <= i < |MostCommon(xs)| ==> MostCommon(xs)[i].0 != a
    ensures |MostCommon(xs)| == 5 && forall i :: 0 <= i < 5 ==> MostCommon(xs)[i].1 >= Count(xs, a)
  {
    var sorted := Order.SortBy(Counts(xs), CountKey, true);
    var top := MostCommon(xs);
    Order.SortSorted(Counts(xs), CountKey, true);
    CountsSpec(xs, a, Count(xs, a));
    assert (a, Count(xs, a)) in multiset(sorted);
    var j :| 0 <= j < |sorted| && sorted[j] == (a, Count(xs, a));
    assert forall i :: 0 <= i < |top| ==> top[i] == sorted[i];
    assert j >= |top|;
    forall i | 0 <= i < 5
      ensures top[i].1 >= Count(xs, a)
    {
      assert top[i] == sorted[i];
      assert !Order.Before(CountKey(sorted[j]), CountKey(sorted[i]), true);
      assert !Order.Less([sorted[i].1], [Count(xs, a)]);
    }
  }

  // ---------------------------------------------------------------- net still held

  /** The net loop's reading of one log: a log with both an article number and a quantity
      becomes a move of that article (its quantity must be an integer and its action
      present); any other log is passed over. */
  function NetMove(l: Sheet.Dict): (r: Result<Option<Ledger.Move<string>>, string>)
    ensures r.Ok? && r.value.Some? ==>
              Sheet.Lookup(l, "article_number") == Some(r.value.value.key)
              && Sheet.Lookup(l, "quantity").Some?
              && Numerals.ParsePyInt(Sheet.Lookup(l, "quantity").value) == Some(r.value.value.qty)
              && Sheet.Lookup(l, "action").Some?
              && r.value.value.action == Ledger.ActionOf(Sheet.Lookup(l, "action").value)
    ensures r.Ok? && r.value.None? <==> Sheet.Lookup(l, "article_number").None? || Sheet.Lookup(l, "quantity").None?
  {
    match Sheet.Lookup(l, "article_number")
    case None => Ok(None)
    case Some(a) =>
      match Sheet.Lookup(l, "quantity")
      case None => Ok(None)
      case Some(q) =>
        match Numerals.ParsePyInt(q)
        case None => Err("invalid literal for int() with base 10: '" + q + "'")
        case Some(n) =>
          match Sheet.Lookup(l, "action")
          case None => Err("'action'")
          case Some(w) => Ok(Some(Ledger.Move(a, Ledger.ActionOf(w), n)))
  }

  /** The moves of the logs in order; the first log that raises stops the page. */
  function NetMoves(logs: seq<Sheet.Dict>): (r: Result<seq<Ledger.Move<string>>, string>) {
    if |logs| == 0 then Ok([])
    else
      match NetMoves(logs[..|logs| - 1])
      case Err(e) => Err(e)
      case Ok(ms) =>
        match NetMove(logs[|logs| - 1])
        case Err(e) => Err(e)
        case Ok(None) => Ok(ms)
        case Ok(Some(m)) => Ok(ms + [m])
  }

  /** The totals and the net dict agree: where every log has an article number, the nets
      add up to the total taken less the total returned. */
  lemma {:induction false} NetsAddUp(logs: seq<Sheet.Dict>, taken: int, returned: int, ms: seq<Ledger.Move<string>>)
    requires forall k :: 0 <= k < |logs| ==> Sheet.Lookup(logs[k], "article_number").Some?
    requires Total(logs, "take") == Ok(taken) && Total(logs, "return") == Ok(returned) && NetMoves(logs) == Ok(ms)
    ensures Ledger.ValueSum(Ledger.Summary(ms)) == taken - returned
  {
    DeltaSumIsNet(logs, taken, returned, ms);
    Ledger.SummarySum(ms);
  }

  lemma {:induction false} DeltaSumIsNet(logs: seq<Sheet.Dict>, taken: int, returned: int, ms: seq<Ledger.Move<string>>)
    requires forall k :: 0 <= k < |logs| ==> Sheet.Lookup(logs[k], "article_number").Some?
    requires Total(logs, "take") == Ok(taken) && Total(logs, "return") == Ok(returned) && NetMoves(logs) == Ok(ms)
    ensures Ledger.DeltaSum(ms) == taken - returned
  {
    if |logs| > 0 {
      var init := logs[..|logs| - 1];
      var l := logs[|logs| - 1];
      var t0 := Total(init, "take").value;
      var r0 := Total(init, "return").value;
      var ms0 := NetMoves(init).value;
      DeltaSumIsNet(init, t0, r0, ms0);
      var ct := Contribution(l, "take").value;
      var cr := Contribution(l, "return").value;
      assert taken == t0 + ct && returned == r0 + cr;
      match NetMove(l).value
      case None =>
        assert ms == ms0;
      case Some(m) =>
        assert ms == ms0 + [m];
        assert ms[..|ms| - 1] == ms0;
    }
  }

  // ---------------------------------------------------------------- the page

  /** {p["article_number"]: p["product_name"]}: Err (KeyError) where an item lacks either. */
  function ProductMap(items: seq<Catalog.Item>): (r: Result<seq<(Value, Value)>, string>)
    ensures r.Ok? ==> |r.value| == |items|
                      && forall i :: 0 <= i < |items| ==>
                           Catalog.Field(items[i], "article_number") == Some(r.value[i].0)
                           && Catalog.Field(items[i], "product_name") == Some(r.value[i].1)
  {
    if |items| == 0 then Ok([])
    else
      match Catalog.Field(items[0], "article_number")
      case None => Err("'article_number'")
      case Some(a) =>
        match Catalog.Field(items[0], "product_name")
        case None => Err("'product_name'")
        case Some(n) =>
          match ProductMap(items[1..])
          case Err(e) => Err(e)
          case Ok(rest) =>
            assert forall i :: 1 <= i < |items| ==> items[1..][i - 1] == items[i];
            Ok([(a, n)] + rest)
  }

  /** product_map.get(article, article) */
  function NameOf(productMap: seq<(Value, Value)>, article: string): Value {
    Sheet.Lookup(productMap, Str(article)).GetOr(Str(article))
  }

  datatype Counted = Counted(article: string, name: Value, count: int)

  datatype Stats =
    | NoLogs
    | Stats(totalTaken: int, totalReturned: int, lastActive: Option<string>,
            topItems: seq<Counted>, unreturned: seq<Counted>)

  function Named(pairs: seq<(string, int)>, productMap: seq<(Value, Value)>): (r: seq<Counted>)
    ensures |r| == |pairs|
    ensures forall i :: 0 <= i < |pairs| ==> r[i] == Counted(pairs[i].0, NameOf(productMap, pairs[i].0), pairs[i].1)
  {
    seq(|pairs|, i requires 0 <= i < |pairs| => Counted(pairs[i].0, NameOf(productMap, pairs[i].0), pairs[i].1))
  }

  /** The user's logs, newest first. */
  function Sorted(t: Sheet.Table, username: string): (r: seq<Sheet.Dict>)
    requires |t| >= 2
    ensures Order.Sorted(r, TimeKey, true)
    ensures multiset(r) == multiset(UserLogs(t[0], t[1..], username))
  {
    Order.SortSorted(UserLogs(t[0], t[1..], username), TimeKey, true);
    Order.SortBy(UserLogs(t[0], t[1..], username), TimeKey, true)
  }

  /** user_stats(username): Err carries the text of the 500 answer. */
  function UserStatsPage(t: Sheet.Table, username: string, items: seq<Catalog.Item>): (r: Result<Stats, string>)
    ensures |t| < 2 ==> r == Ok(NoLogs)
  {
    if |t| < 2 then Ok(NoLogs)
    else
      var logs := Sorted(t, username);
      match Total(logs, "take")
      case Err(e) => Err(e)
      case Ok(taken) =>
        match Total(logs, "return")
        case Err(e) => Err(e)
        case Ok(returned) =>
          match LastActive(logs)
          case Err(e) => Err(e)
          case Ok(last) =>
            match ProductMap(items)
            case Err(e) => Err(e)
            case Ok(pm) =>
              match NetMoves(logs)
              case Err(e) => Err(e)
              case Ok(ms) =>
                Ok(Stats(taken, returned, last, Named(MostCommon(Articles(logs)), pm), Named(Ledger.Outstanding(ms), pm)))
  }

  /** The page reads exactly the user's rows: the logs it works on are the records of the
      non-empty rows with the user's name, reordered; either total failing on those rows
      fails the page; and the totals it shows are their sums over those rows in sheet order,
      with a last-active time exactly when there is such a row. */
  lemma UserStatsPageSpec(t: Sheet.Table, username: string, items: seq<Catalog.Item>)
    requires |t| >= 2
    ensures var mine := Lists.FilterMap(t[1..], OfUser(t[0], username), Sheet.RecordOf(t[0]));
            && multiset(Sorted(t, username)) == multiset(mine)
            && (Total(mine, "take").Err? || Total(mine, "return").Err? ==> UserStatsPage(t, username, items).Err?)
            && (UserStatsPage(t, username, items).Ok? ==>
                  var s := UserStatsPage(t, username, items).value;
                  s.Stats? && Total(mine, "take") == Ok(s.totalTaken) && Total(mine, "return") == Ok(s.totalReturned)
                  && (s.lastActive.None? <==> |mine| == 0))
  {
    UserLogsInOrder(t[0], t[1..], username);
    var logs := Sorted(t, username);
    var mine := UserLogs(t[0], t[1..], username);
    TotalPermuted(logs, mine, "take");
    TotalPermuted(logs, mine, "return");
    assert |logs| == |multiset(logs)| == |multiset(mine)| == |mine|;
  }

  /** The time last active comes from the newest log: no log of the user has a later
      timestamp than the one shown. */
  lemma LastActiveIsNewest(t: Sheet.Table, username: string, k: nat)
    requires |t| >= 2 && 0 < k < |Sorted(t, username)|
    ensures !Order.Less(TimeKey(Sorted(t, username)[0]), TimeKey(Sorted(t, username)[k]))
  {}

  /** Every log counted on the page is one of the user's. */
  lemma OnlyTheUsersLogs(t: Sheet.Table, username: string, k: nat)
    requires |t| >= 2 && k < |Sorted(t, username)|
    ensures Sheet.Lookup(Sorted(t, username)[k], "user_name") == Some(username)
  {
    var r := Sorted(t, username);
    assert r[k] in multiset(UserLogs(t[0], t[1..], username));
  }

  /** An article is listed as still held exactly when its net over the user's logs is
      positive, and then with that net. */
  lemma UnreturnedIff(ms: seq<Ledger.Move<string>>, article: string, n: int)
    ensures (article, n) in Ledger.Outstanding(ms) <==> n > 0 && n == Ledger.NetOf(ms, article)
  {
    Ledger.OutstandingIff(ms, article, n);
  }
}
