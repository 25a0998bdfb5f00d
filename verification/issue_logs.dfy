/** The issue-report page: every report row read positionally into eight fixed fields,
    filtered by user and by article, with a display time that falls back to the raw
    timestamp. */
module IssueLogs {
  import opened Wrappers
  import Text
  import Sheet
  import Lists

  /** The fields every report row is read into, in order. */
  const Fields: seq<string> := ["id", "issue", "article_number", "product_name", "count", "timestamp", "user_name", "created_at"]

  /** The user filter keeps a report whose lower-cased user name contains it. */
  predicate UserKept(filter: string, r: Sheet.Dict) {
    Text.Contains(Text.Lower(Sheet.Cell(r, 6)), filter)
  }

  /** The article filter keeps a report whose lower-cased article number or product name
      contains it. */
  predicate ArticleKept(filter: string, r: Sheet.Dict) {
    Text.Contains(Text.Lower(Sheet.Cell(r, 2)), filter) || Text.Contains(Text.Lower(Sheet.Cell(r, 3)), filter)
  }

  /** A report passes the filters given; an empty filter passes every report. */
  predicate Passes(u: string, a: string, r: Sheet.Dict) {
    (u == "" || UserKept(u, r)) && (a == "" || ArticleKept(a, r))
  }

  /** The filters' test with both filters fixed. */
  function PassesOf(u: string, a: string): Sheet.Dict -> bool {
    r => Passes(u, a, r)
  }

  /** The reports that pass both filters, in order (the user filter's pass followed by the
      article filter's pass keeps exactly these). */
  function Select(rs: seq<Sheet.Dict>, u: string, a: string): (r: seq<Sheet.Dict>)
    ensures |r| <= |rs|
    ensures forall x :: x in r <==> x in rs && Passes(u, a, x)
  {
    Lists.Filter(rs, PassesOf(u, a))
  }

  /** What the filters keep is a sublist of what they were given, each report kept as often
      as the sheet holds it. */
  lemma SelectIsSublist(rs: seq<Sheet.Dict>, u: string, a: string)
    ensures Lists.Sublist(Select(rs, u, a), rs)
    ensures forall x :: multiset(Select(rs, u, a))[x] == if Passes(u, a, x) then multiset(rs)[x] else 0
  {
    Lists.FilterIsSublist(rs, PassesOf(u, a));
    forall x ensures multiset(Select(rs, u, a))[x] == if Passes(u, a, x) then multiset(rs)[x] else 0 {
      Lists.FilterCount(rs, PassesOf(u, a), x);
    }
  }

  /** A shown report with its display time. */
  datatype Line = Line(report: Sheet.Dict, formatted: string)

  /** The display time: the rendering of the parsed timestamp where it parses, the raw
      timestamp otherwise. */
  function Formatted(r: Sheet.Dict, render: string -> Option<string>): (s: string)
    ensures render(Sheet.Cell(r, 5)).None? ==> s == Sheet.Cell(r, 5)
    ensures render(Sheet.Cell(r, 5)).Some? ==> s == render(Sheet.Cell(r, 5)).value
  {
    render(Sheet.Cell(r, 5)).GetOr(Sheet.Cell(r, 5))
  }

  /** The reports kept by the filters given (an empty filter keeps every report). */
  function Kept(userArg: string, articleArg: string, t: Sheet.Table): (r: seq<Sheet.Dict>)
    ensures forall x :: x in r <==>
              x in Sheet.PositionalRows(Fields, t)
              && (Text.Lower(userArg) == "" || UserKept(Text.Lower(userArg), x))
              && (Text.Lower(articleArg) == "" || ArticleKept(Text.Lower(articleArg), x))
  {
    Select(Sheet.PositionalRows(Fields, t), Text.Lower(userArg), Text.Lower(articleArg))
  }

  /** view_issue_logs: the kept reports in sheet order, each with its display time. */
  function ViewIssueLogs(userArg: string, articleArg: string, t: Sheet.Table, render: string -> Option<string>): (r: seq<Line>)
    ensures |r| == |Kept(userArg, articleArg, t)|
    ensures forall k :: 0 <= k < |r| ==>
              r[k].report == Kept(userArg, articleArg, t)[k] && r[k].formatted == Formatted(r[k].report, render)
  {
    var kept := Kept(userArg, articleArg, t);
    seq(|kept|, k requires 0 <= k < |kept| => Line(kept[k], Formatted(kept[k], render)))
  }

  /** The page shows the sheet's reports in their order, some left out. */
  lemma ShownInOrder(userArg: string, articleArg: string, t: Sheet.Table)
    ensures Lists.Sublist(Kept(userArg, articleArg, t), Sheet.PositionalRows(Fields, t))
  {
    SelectIsSublist(Sheet.PositionalRows(Fields, t), Text.Lower(userArg), Text.Lower(articleArg));
  }

  /** With both filters empty every report is shown. */
  lemma NoFilterShowsAll(t: Sheet.Table)
    ensures Kept("", "", t) == Sheet.PositionalRows(Fields, t)
  {
    SelectAll(Sheet.PositionalRows(Fields, t));
  }

  lemma SelectAll(rs: seq<Sheet.Dict>)
    ensures Select(rs, "", "") == rs
  {
    Lists.FilterKeepsAll(rs, PassesOf("", ""));
  }
}
