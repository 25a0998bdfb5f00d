/** The merge half of the projects-to-analytics export job: the index of the stored
    analytics rows by (article number, project number, order time), and the append, update
    or skip decision the job takes for each row it builds. */
module AnalyticsMerge {
  import opened Wrappers
  import Text
  import Sheet

  type Row = Sheet.Row
  type Table = Sheet.Table

  /** (article number, project number, order time). */
  type Key = (string, string, string)

  /** A row the job wants in the analytics table, with the key it is filed under. */
  datatype Candidate = Candidate(key: Key, row: Row)

  /** The columns of the three key cells. */
  datatype Cols = Cols(article: nat, order: nat, project: nat)

  /** hidx.get(name, default) with hidx = {h: i for i, h in enumerate(headers)}: the last
      position holding the header, since a later header overwrites an earlier one. */
  function ColumnOr(headers: Row, name: string, default: nat): (i: nat)
    ensures name in headers ==> i < |headers| && headers[i] == name
                                && forall j :: i < j < |headers| ==> headers[j] != name
    ensures name !in headers ==> i == default
  {
    match Sheet.LastIndexOf(headers, name)
    case Some(i) => i
    case None => default
  }

  /** The key columns: where the headers name them, else columns 0, 1 and 5. */
  function ColsOf(headers: Row): (c: Cols)
    ensures "Article Number" in headers ==> c.article < |headers| && headers[c.article] == "Article Number"
    ensures "Order time" in headers ==> c.order < |headers| && headers[c.order] == "Order time"
    ensures "Drilling unit / Project number" in headers ==>
              c.project < |headers| && headers[c.project] == "Drilling unit / Project number"
  {
    Cols(ColumnOr(headers, "Article Number", 0), ColumnOr(headers, "Order time", 1),
         ColumnOr(headers, "Drilling unit / Project number", 5))
  }

  /** Every key column lies within the first n cells. */
  predicate Fits(cols: Cols, n: nat) {
    cols.article < n && cols.order < n && cols.project < n
  }

  /** The key a padded row is filed under: its three key cells, stripped; None when all
      three are blank, since such a row is not indexed. */
  function KeyOf(cols: Cols, r: Row): (k: Option<Key>)
    requires Fits(cols, |r|)
  {
    var a := Text.PyStrip(r[cols.article]);
    var o := Text.PyStrip(r[cols.order]);
    var p := Text.PyStrip(r[cols.project]);
    if a == "" && o == "" && p == "" then None else Some((a, p, o))
  }

  /** An index entry: the 1-based sheet row number of a stored row, and the row padded to
      the header width. */
  datatype Entry = Entry(rowNumber: nat, row: Row)

  /** existing_map as the (key, entry) pairs in the order they were stored; a look-up takes
      the last pair with the key, as the dict keeps the last assignment. */
  type Index = seq<(Key, Entry)>

  /** Every data row, padded to the header width, reaches the key columns. */
  predicate AllFit(cols: Cols, width: nat, rows: seq<Row>) {
    forall j :: 0 <= j < |rows| ==> Fits(cols, |Sheet.Pad(rows[j], width)|)
  }

  /** The keys of the data rows, padded, in row order. */
  function KeysOf(cols: Cols, width: nat, rows: seq<Row>): (ks: seq<Option<Key>>)
    requires AllFit(cols, width, rows)
    ensures |ks| == |rows|
    ensures forall j :: 0 <= j < |rows| ==> ks[j] == KeyOf(cols, Sheet.Pad(rows[j], width))
  {
    seq(|rows|, j requires 0 <= j < |rows| => KeyOf(cols, Sheet.Pad(rows[j], width)))
  }

  /** The data rows padded to the header width. */
  function PadAll(width: nat, rows: seq<Row>): (ps: seq<Row>)
    ensures |ps| == |rows|
    ensures forall j :: 0 <= j < |rows| ==> ps[j] == Sheet.Pad(rows[j], width)
  {
    seq(|rows|, j requires 0 <= j < |rows| => Sheet.Pad(rows[j], width))
  }

  /** The pairs the index loop stores, from each row's key (if it has one) and padded row;
      row j is sheet row j + 2, below the header. */
  function Filed(keys: seq<Option<Key>>, rows: seq<Row>): (ix: Index)
    requires |keys| == |rows|
    ensures forall i :: 0 <= i < |ix| ==> 2 <= ix[i].1.rowNumber <= |rows| + 1
  {
    if |rows| == 0 then []
    else
      var n := |rows| - 1;
      Filed(keys[..n], rows[..n]) + (if keys[n].Some? then [(keys[n].value, Entry(n + 2, rows[n]))] else [])
  }

  /** The index of the data rows. */
  function Indexed(cols: Cols, width: nat, rows: seq<Row>): (ix: Index)
    requires AllFit(cols, width, rows)
    ensures forall i :: 0 <= i < |ix| ==> 2 <= ix[i].1.rowNumber <= |rows| + 1
  {
    Filed(KeysOf(cols, width, rows), PadAll(width, rows))
  }

  /** The index loop: an IndexError where a padded row is too short for a key column. */
  function BuildIndex(cols: Cols, width: nat, rows: seq<Row>): (r: Result<Index, string>)
    ensures r.Ok? <==> AllFit(cols, width, rows)
    ensures Fits(cols, width) ==> r.Ok?
  {
    if AllFit(cols, width, rows) then Ok(Indexed(cols, width, rows)) else Err("list index out of range")
  }

  /** What the index holds for a key: nothing exactly when no row has the key, and otherwise
      the LAST row with the key, at its sheet row number. */
  lemma {:induction false} FiledLookup(keys: seq<Option<Key>>, rows: seq<Row>, k: Key)
    requires |keys| == |rows|
    ensures var e := Sheet.Lookup(Filed(keys, rows), k);
            (e.None? <==> forall j :: 0 <= j < |rows| ==> keys[j] != Some(k))
            && (e.Some? ==> exists j :: 0 <= j < |rows| && e.value == Entry(j + 2, rows[j]) && keys[j] == Some(k)
                                        && forall i :: j < i < |rows| ==> keys[i] != Some(k))
  {
    if |rows| > 0 {
      var n := |rows| - 1;
      FiledLookup(keys[..n], rows[..n], k);
      FiledSplit(keys, rows, k);
      if keys[n] != Some(k) {
        LastElsewhere(keys, rows, k, Filed(keys[..n], rows[..n]));
      }
    }
  }

  /** The step of FiledLookup where the last row does not carry the key: the answer is the
      earlier rows' one. */
  lemma LastElsewhere(keys: seq<Option<Key>>, rows: seq<Row>, k: Key, init: Index)
    requires |keys| == |rows| > 0 && keys[|rows| - 1] != Some(k)
    requires var n := |rows| - 1;
             var e := Sheet.Lookup(init, k);
             (e.None? <==> forall j :: 0 <= j < n ==> keys[..n][j] != Some(k))
             && (e.Some? ==> exists j :: 0 <= j < n && e.value == Entry(j + 2, rows[..n][j]) && keys[..n][j] == Some(k)
                                         && forall i :: j < i < n ==> keys[..n][i] != Some(k))
    ensures var e := Sheet.Lookup(init, k);
            (e.None? <==> forall j :: 0 <= j < |rows| ==> keys[j] != Some(k))
            && (e.Some? ==> exists j :: 0 <= j < |rows| && e.value == Entry(j + 2, rows[j]) && keys[j] == Some(k)
                                        && forall i :: j < i < |rows| ==> keys[i] != Some(k))
  {
    var n := |rows| - 1;
    assert forall i :: 0 <= i < n ==> keys[..n][i] == keys[i] && rows[..n][i] == rows[i];
  }

  /** Replacing row j with a row under the same key changes only row j's own entry. */
  lemma {:induction false} FiledUpdate(keys: seq<Option<Key>>, rows: seq<Row>, j: nat, r: Row, k: Key)
    requires |keys| == |rows| && j < |rows|
    ensures var before := Sheet.Lookup(Filed(keys, rows), k);
            Sheet.Lookup(Filed(keys, rows[j := r]), k)
            == if before.Some? && before.value.rowNumber == j + 2 then Some(Entry(j + 2, r)) else before
  {
    var n := |rows| - 1;
    var rows' := rows[j := r];
    var init := Filed(keys[..n], rows[..n]);
    var init' := Filed(keys[..n], rows'[..n]);
    if j == n {
      assert rows'[..n] == rows[..n];
      Sheet.LookupSpec(init, k);
    } else {
      assert rows'[..n] == rows[..n][j := r];
      FiledUpdate(keys[..n], rows[..n], j, r, k);
    }
    FiledSplit(keys, rows, k);
    FiledSplit(keys, rows', k);
  }

  /** The index of a non-empty list of rows looked up at a key: the last row's entry where it
      carries the key, the earlier rows' answer otherwise. */
  lemma FiledSplit(keys: seq<Option<Key>>, rows: seq<Row>, k: Key)
    requires |keys| == |rows| > 0
    ensures var n := |rows| - 1;
            Sheet.Lookup(Filed(keys, rows), k)
            == if keys[n] == Some(k) then Some(Entry(n + 2, rows[n])) else Sheet.Lookup(Filed(keys[..n], rows[..n]), k)
  {
    var n := |rows| - 1;
    var init := Filed(keys[..n], rows[..n]);
    if keys[n].Some? {
      Sheet.LookupSnoc(init, (keys[n].value, Entry(n + 2, rows[n])), k);
    } else {
      assert Filed(keys, rows) == init;
    }
  }

  /** Writing data row j with a row filed under the same key changes the index only in the
      entry for row j, which now holds the new row, padded. */
  lemma UpdateIndexed(cols: Cols, width: nat, rows: seq<Row>, j: nat, r: Row, k: Key)
    requires Fits(cols, width) && j < |rows|
    requires KeyOf(cols, Sheet.Pad(r, width)) == KeyOf(cols, Sheet.Pad(rows[j], width))
    ensures AllFit(cols, width, rows) && AllFit(cols, width, rows[j := r])
    ensures var before := Sheet.Lookup(Indexed(cols, width, rows), k);
            Sheet.Lookup(Indexed(cols, width, rows[j := r]), k)
            == if before.Some? && before.value.rowNumber == j + 2 then Some(Entry(j + 2, Sheet.Pad(r, width)))
               else before
  {
    KeysAfterUpdate(cols, width, rows, j, r);
    PadAfterUpdate(width, rows, j, r);
    FiledUpdate(KeysOf(cols, width, rows), PadAll(width, rows), j, Sheet.Pad(r, width), k);
  }

  lemma KeysAfterUpdate(cols: Cols, width: nat, rows: seq<Row>, j: nat, r: Row)
    requires Fits(cols, width) && j < |rows|
    requires KeyOf(cols, Sheet.Pad(r, width)) == KeyOf(cols, Sheet.Pad(rows[j], width))
    ensures AllFit(cols, width, rows) && AllFit(cols, width, rows[j := r])
    ensures KeysOf(cols, width, rows[j := r]) == KeysOf(cols, width, rows)
  {
    var rows' := rows[j := r];
    WideFits(cols, width, rows);
    WideFits(cols, width, rows');
    forall i | 0 <= i < |rows| ensures KeysOf(cols, width, rows')[i] == KeysOf(cols, width, rows)[i] {
      KeyAfterUpdate(cols, width, rows, j, r, i);
    }
  }

  /** Rows padded to a width the key columns fit in all fit. */
  lemma WideFits(cols: Cols, width: nat, rows: seq<Row>)
    requires Fits(cols, width)
    ensures AllFit(cols, width, rows)
  {
  }

  lemma KeyAfterUpdate(cols: Cols, width: nat, rows: seq<Row>, j: nat, r: Row, i: nat)
    requires Fits(cols, width) && j < |rows| && i < |rows|
    requires KeyOf(cols, Sheet.Pad(r, width)) == KeyOf(cols, Sheet.Pad(rows[j], width))
    ensures AllFit(cols, width, rows) && AllFit(cols, width, rows[j := r])
    ensures KeysOf(cols, width, rows[j := r])[i] == KeysOf(cols, width, rows)[i]
  {
    WideFits(cols, width, rows);
    WideFits(cols, width, rows[j := r]);
    if i != j { assert rows[j := r][i] == rows[i]; }
  }

  lemma PadAfterUpdate(width: nat, rows: seq<Row>, j: nat, r: Row)
    requires j < |rows|
    ensures PadAll(width, rows[j := r]) == PadAll(width, rows)[j := Sheet.Pad(r, width)]
  {
    var rows' := rows[j := r];
    var ps := PadAll(width, rows);
    var ps' := PadAll(width, rows');
    forall i | 0 <= i < |rows| ensures ps'[i] == ps[j := Sheet.Pad(r, width)][i] {
      if i != j { assert rows'[i] == rows[i]; }
    }
  }

  // ---------------------------------------------------------------- the merge loop

  /** The analytics table as the loop leaves it, the index, and the three counters. */
  datatype State = State(table: Table, index: Index, appended: nat, updated: nat, skipped: nat)

  /** Every index entry names a data row of the table (sheet rows 2 .. |table|). */
  predicate Valid(s: State) {
    forall i :: 0 <= i < |s.index| ==> 2 <= s.index[i].1.rowNumber <= |s.table|
  }

  /** The decision for one row the job built: a key the index lacks is appended; a key
      whose stored row, padded, equals the new row is skipped; otherwise the stored row is
      replaced in place and the index entry refreshed. */
  function Step(width: nat, s: State, c: Candidate): (r: State)
    requires Valid(s)
    ensures Valid(r)
    ensures r.appended + r.updated + r.skipped == s.appended + s.updated + s.skipped + 1
    ensures |r.table| + s.appended == |s.table| + r.appended && r.appended >= s.appended
    ensures |r.table| > 0 && |s.table| > 0 ==> r.table[0] == s.table[0]
  {
    match Sheet.Lookup(s.index, c.key)
    case None => s.(table := Sheet.AppendRow(s.table, c.row), appended := s.appended + 1)
    case Some(e) =>
      if Sheet.Pad(e.row, width) == c.row then s.(skipped := s.skipped + 1)
      else
        Sheet.LookupSpec(s.index, c.key);
        var t := Sheet.UpdateRow(s.table, e.rowNumber, c.row);
        var ix := s.index + [(c.key, Entry(e.rowNumber, c.row))];
        assert Valid(State(t, ix, 0, 0, 0)) by {
          forall i | 0 <= i < |ix| ensures 2 <= ix[i].1.rowNumber <= |t| {
            if i < |s.index| { assert ix[i] == s.index[i]; }
          }
        }
        s.(table := t, index := ix, updated := s.updated + 1)
  }

  /** The loop over the rows the job built, in order. */
  function Merge(width: nat, s: State, cs: seq<Candidate>): (r: State)
    requires Valid(s)
    decreases |cs|
    ensures Valid(r)
    ensures r.appended + r.updated + r.skipped == s.appended + s.updated + s.skipped + |cs|
    ensures |r.table| + s.appended == |s.table| + r.appended && r.appended >= s.appended
    ensures |s.table| > 0 ==> r.table[0] == s.table[0]
  {
    if |cs| == 0 then s else Merge(width, Step(width, s, cs[0]), cs[1..])
  }

  /** The sheet row number the index files a key under. */
  function RowNumber(ix: Index, k: Key): Option<nat> {
    match Sheet.Lookup(ix, k)
    case None => None
    case Some(e) => Some(e.rowNumber)
  }

  /** A step never moves a key to another row and never files a new key. */
  lemma {:induction false} StepKeepsRowNumbers(width: nat, s: State, c: Candidate, k: Key)
    requires Valid(s)
    ensures RowNumber(Step(width, s, c).index, k) == RowNumber(s.index, k)
  {
    match Sheet.Lookup(s.index, c.key)
    case None =>
    case Some(e) =>
      Sheet.LookupSnoc(s.index, (c.key, Entry(e.rowNumber, c.row)), k);
  }

  /** Stored rows that no built row's key is filed at are never written. */
  lemma {:induction false} MergeUntouched(width: nat, s: State, cs: seq<Candidate>, p: nat)
    requires Valid(s) && p < |s.table|
    requires forall c :: c in cs ==> RowNumber(s.index, c.key) != Some(p + 1)
    decreases |cs|
    ensures |Merge(width, s, cs).table| >= |s.table|
    ensures Merge(width, s, cs).table[p] == s.table[p]
  {
    if |cs| > 0 {
      var c := cs[0];
      var s1 := Step(width, s, c);
      assert s1.table[p] == s.table[p] by {
        assert c in cs;
      }
      forall d | d in cs[1..] ensures RowNumber(s1.index, d.key) != Some(p + 1) {
        StepKeepsRowNumbers(width, s, c, d.key);
      }
      MergeUntouched(width, s1, cs[1..], p);
    }
  }

  /** The rows of the built rows whose key the index lacks, in order. */
  function Fresh(ix: Index, cs: seq<Candidate>): (rs: seq<Row>)
    ensures |rs| <= |cs|
  {
    if |cs| == 0 then []
    else (if Sheet.Lookup(ix, cs[0].key).None? then [cs[0].row] else []) + Fresh(ix, cs[1..])
  }

  /** The loop appends exactly the rows of the keys the index lacked, in order, after the
      stored rows; so `appended` counts them. */
  lemma {:induction false} MergeAppends(width: nat, s: State, cs: seq<Candidate>)
    requires Valid(s)
    decreases |cs|
    ensures var r := Merge(width, s, cs);
            |r.table| >= |s.table| && r.table[|s.table|..] == Fresh(s.index, cs)
            && r.appended == s.appended + |Fresh(s.index, cs)|
  {
    if |cs| > 0 {
      var c := cs[0];
      var s1 := Step(width, s, c);
      MergeAppends(width, s1, cs[1..]);
      assert Fresh(s1.index, cs[1..]) == Fresh(s.index, cs[1..]) by {
        FreshSameKeys(s.index, s1.index, cs[1..], width, s, c);
      }
      var r := Merge(width, s1, cs[1..]);
      if Sheet.Lookup(s.index, c.key).None? {
        assert s1.table == s.table + [c.row];
        MergeKeepsPrefix(width, s1, cs[1..], |s.table|);
        SuffixAfter(s.table, c.row, r.table, Fresh(s.index, cs[1..]));
      } else {
        assert |s1.table| == |s.table|;
      }
    }
  }

  /** A sequence that holds x just past a prefix of length |a|, and t after it, holds
      [x] + t from that point. */
  lemma SuffixAfter<T>(a: seq<T>, x: T, r: seq<T>, t: seq<T>)
    requires |r| >= |a| + 1 && r[|a|] == x && r[|a| + 1..] == t
    ensures r[|a|..] == [x] + t
  {
    assert r[|a|..] == [r[|a|]] + r[|a| + 1..];
  }

  /** The loop never writes a row appended before it started, nor the header. */
  lemma {:induction false} MergeKeepsPrefix(width: nat, s: State, cs: seq<Candidate>, p: nat)
    requires Valid(s) && p < |s.table|
    requires forall i :: 0 <= i < |s.index| ==> s.index[i].1.rowNumber != p + 1
    ensures Merge(width, s, cs).table[p] == s.table[p]
    decreases |cs|
  {
    if |cs| > 0 {
      var s1 := Step(width, s, cs[0]);
      Sheet.LookupSpec(s.index, cs[0].key);
      assert forall i :: 0 <= i < |s1.index| ==> s1.index[i].1.rowNumber != p + 1 by {
        if s1.index != s.index {
          assert forall i :: 0 <= i < |s.index| ==> s1.index[i] == s.index[i];
        }
      }
      MergeKeepsPrefix(width, s1, cs[1..], p);
    }
  }

  lemma {:induction false} FreshSameKeys(ix: Index, ix1: Index, cs: seq<Candidate>, width: nat, s: State, c: Candidate)
    requires Valid(s) && ix == s.index && ix1 == Step(width, s, c).index
    ensures Fresh(ix1, cs) == Fresh(ix, cs)
  {
    if |cs| > 0 {
      StepKeepsRowNumbers(width, s, c, cs[0].key);
      FreshSameKeys(ix, ix1, cs[1..], width, s, c);
    }
  }

  // ---------------------------------------------------------------- re-running the loop

  /** No two built rows share a key. */
  predicate DistinctKeys(cs: seq<Candidate>) {
    forall i, j :: 0 <= i < j < |cs| ==> cs[i].key != cs[j].key
  }

  /** A built row shaped by the headers: as wide as the header row, with its own key in its
      key cells. */
  predicate Shaped(cols: Cols, width: nat, c: Candidate) {
    |c.row| == width && Fits(cols, width) && KeyOf(cols, c.row) == Some(c.key)
  }

  /** A row is shaped when its key cells, stripped, are its key and the key is not blank. */
  lemma ShapedBy(cols: Cols, width: nat, c: Candidate)
    requires |c.row| == width && Fits(cols, width)
    requires Text.PyStrip(c.row[cols.article]) == c.key.0 && c.key.0 != ""
    requires Text.PyStrip(c.row[cols.project]) == c.key.1 && Text.PyStrip(c.row[cols.order]) == c.key.2
    ensures Shaped(cols, width, c)
  {}

  /** The index the job builds from a table: the data rows below the header. */
  function TableIndex(cols: Cols, width: nat, t: Table): (ix: Index)
    requires |t| >= 1 && Fits(cols, width)
    ensures forall i :: 0 <= i < |ix| ==> 2 <= ix[i].1.rowNumber <= |t|
  {
    assert AllFit(cols, width, t[1..]);
    Indexed(cols, width, t[1..])
  }

  /** The table's entry for a key holds the given row. */
  predicate Holds(cols: Cols, width: nat, t: Table, c: Candidate)
    requires |t| >= 1 && Fits(cols, width)
  {
    var e := Sheet.Lookup(TableIndex(cols, width, t), c.key);
    e.Some? && e.value.row == c.row
  }

  /** Part way through the loop: each row already merged is, in the table, the last row with
      its key, and each key still to come is filed in the index where the table has it. */
  predicate Settled(cols: Cols, width: nat, s: State, done: seq<Candidate>, todo: seq<Candidate>)
    requires |s.table| >= 1 && Fits(cols, width)
  {
    (forall c :: c in done ==> Holds(cols, width, s.table, c))
    && (forall c :: c in todo ==> Sheet.Lookup(TableIndex(cols, width, s.table), c.key) == Sheet.Lookup(s.index, c.key))
  }

  /** The key a table's index files at data row j is the key of that row. */
  lemma {:induction false} FiledAtRow(keys: seq<Option<Key>>, rows: seq<Row>, j: nat, k: Key)
    requires |keys| == |rows| && j < |rows|
    requires var e := Sheet.Lookup(Filed(keys, rows), k); e.Some? && e.value.rowNumber == j + 2
    ensures keys[j] == Some(k) && Sheet.Lookup(Filed(keys, rows), k).value.row == rows[j]
  {
    FiledLookup(keys, rows, k);
  }

  /** Appending a row shaped by the headers files it, last, under its key. */
  lemma AppendIndexed(cols: Cols, width: nat, t: Table, c: Candidate, k: Key)
    requires |t| >= 1 && Fits(cols, width) && Shaped(cols, width, c)
    ensures Sheet.Lookup(TableIndex(cols, width, t + [c.row]), k)
            == if c.key == k then Some(Entry(|t| + 1, c.row)) else Sheet.Lookup(TableIndex(cols, width, t), k)
  {
    var rows := t[1..];
    assert (t + [c.row])[1..] == rows + [c.row];
    KeysSnoc(cols, width, rows, c.row);
    PadAllSnoc(width, rows, c.row);
    FiledSnoc(KeysOf(cols, width, rows), PadAll(width, rows), c.key, c.row);
    Sheet.LookupSnoc(Indexed(cols, width, rows), (c.key, Entry(|rows| + 2, c.row)), k);
  }

  lemma KeysSnoc(cols: Cols, width: nat, rows: seq<Row>, r: Row)
    requires Fits(cols, width)
    ensures AllFit(cols, width, rows) && AllFit(cols, width, rows + [r])
    ensures KeysOf(cols, width, rows + [r]) == KeysOf(cols, width, rows) + [KeyOf(cols, Sheet.Pad(r, width))]
  {
    assert AllFit(cols, width, rows) && AllFit(cols, width, rows + [r]);
    forall i | 0 <= i < |rows| ensures (rows + [r])[i] == rows[i] {}
  }

  lemma PadAllSnoc(width: nat, rows: seq<Row>, r: Row)
    ensures PadAll(width, rows + [r]) == PadAll(width, rows) + [Sheet.Pad(r, width)]
  {
    forall i | 0 <= i < |rows| ensures (rows + [r])[i] == rows[i] {}
  }

  lemma FiledSnoc(keys: seq<Option<Key>>, rows: seq<Row>, k: Key, r: Row)
    requires |keys| == |rows|
    ensures Filed(keys + [Some(k)], rows + [r]) == Filed(keys, rows) + [(k, Entry(|rows| + 2, r))]
  {
    assert (keys + [Some(k)])[..|rows|] == keys;
    assert (rows + [r])[..|rows|] == rows;
  }

  lemma {:induction false} StepSettlesAppend(cols: Cols, width: nat, s: State, done: seq<Candidate>, c: Candidate,
                                             rest: seq<Candidate>)
    requires Valid(s) && |s.table| >= 1 && Fits(cols, width) && Shaped(cols, width, c)
    requires Sheet.Lookup(s.index, c.key).None?
    requires Settled(cols, width, s, done, [c] + rest)
    requires forall d :: d in done + rest ==> d.key != c.key
    ensures |Step(width, s, c).table| >= 1
    ensures Settled(cols, width, Step(width, s, c), done + [c], rest)
  {
    var s1 := Step(width, s, c);
    assert s1.table == s.table + [c.row] && s1.index == s.index;
    forall d | d in done + [c] ensures Holds(cols, width, s1.table, d) {
      AppendIndexed(cols, width, s.table, c, d.key);
      if d != c { assert d in done + rest; }
    }
    forall d | d in rest
      ensures Sheet.Lookup(TableIndex(cols, width, s1.table), d.key) == Sheet.Lookup(s1.index, d.key)
    {
      AppendIndexed(cols, width, s.table, c, d.key);
      assert d in done + rest && d in [c] + rest;
    }
  }

  /** Where the index already files the key, it names data row j with that row padded. */
  lemma FoundRow(cols: Cols, width: nat, t: Table, k: Key) returns (j: nat)
    requires |t| >= 1 && Fits(cols, width)
    requires Sheet.Lookup(TableIndex(cols, width, t), k).Some?
    ensures j < |t| - 1 && AllFit(cols, width, t[1..])
    ensures Sheet.Lookup(TableIndex(cols, width, t), k).value == Entry(j + 2, Sheet.Pad(t[1..][j], width))
    ensures KeysOf(cols, width, t[1..])[j] == Some(k)
  {
    var rows := t[1..];
    assert AllFit(cols, width, rows);
    FiledLookup(KeysOf(cols, width, rows), PadAll(width, rows), k);
    var e := Sheet.Lookup(TableIndex(cols, width, t), k).value;
    j :| 0 <= j < |rows| && e == Entry(j + 2, PadAll(width, rows)[j]) && KeysOf(cols, width, rows)[j] == Some(k);
  }

  lemma {:induction false} StepSettlesSkip(cols: Cols, width: nat, s: State, done: seq<Candidate>, c: Candidate,
                                           rest: seq<Candidate>)
    requires Valid(s) && |s.table| >= 1 && Fits(cols, width) && Shaped(cols, width, c)
    requires Sheet.Lookup(s.index, c.key).Some?
    requires Sheet.Pad(Sheet.Lookup(s.index, c.key).value.row, width) == c.row
    requires Settled(cols, width, s, done, [c] + rest)
    ensures |Step(width, s, c).table| >= 1
    ensures Settled(cols, width, Step(width, s, c), done + [c], rest)
  {
    assert c in [c] + rest;
    var j := FoundRow(cols, width, s.table, c.key);
    Sheet.PadIdempotent(s.table[1..][j], width);
    assert Holds(cols, width, s.table, c);
    var s1 := Step(width, s, c);
    assert s1.table == s.table && s1.index == s.index;
    SkipSettles(cols, width, s, s1, done, c, rest);
  }

  /** The skip case with the step's effect given as plain facts about the new state. */
  lemma SkipSettles(cols: Cols, width: nat, s: State, s1: State, done: seq<Candidate>, c: Candidate,
                    rest: seq<Candidate>)
    requires |s.table| >= 1 && Fits(cols, width) && Holds(cols, width, s.table, c)
    requires Settled(cols, width, s, done, [c] + rest)
    requires s1.table == s.table && s1.index == s.index
    ensures Settled(cols, width, s1, done + [c], rest)
  {
    assert forall d :: d in rest ==> d in [c] + rest;
  }

  lemma {:induction false} StepSettlesUpdate(cols: Cols, width: nat, s: State, done: seq<Candidate>, c: Candidate,
                                             rest: seq<Candidate>)
    requires Valid(s) && |s.table| >= 1 && Fits(cols, width) && Shaped(cols, width, c)
    requires Sheet.Lookup(s.index, c.key).Some?
    requires Sheet.Pad(Sheet.Lookup(s.index, c.key).value.row, width) != c.row
    requires Settled(cols, width, s, done, [c] + rest)
    requires forall d :: d in done + rest ==> d.key != c.key
    ensures |Step(width, s, c).table| >= 1
    ensures Settled(cols, width, Step(width, s, c), done + [c], rest)
  {
    assert c in [c] + rest;
    var j := UpdateFacts(cols, width, s, c);
    UpdateSettles(cols, width, s, Step(width, s, c), done, c, rest, j);
  }

  /** Where the index and the table agree on the key, the update writes the data row the
      table files it under. */
  lemma UpdateFacts(cols: Cols, width: nat, s: State, c: Candidate) returns (j: nat)
    requires Valid(s) && |s.table| >= 1 && Fits(cols, width)
    requires Sheet.Lookup(s.index, c.key).Some? && Sheet.Pad(Sheet.Lookup(s.index, c.key).value.row, width) != c.row
    requires Sheet.Lookup(TableIndex(cols, width, s.table), c.key) == Sheet.Lookup(s.index, c.key)
    ensures j < |s.table| - 1
    ensures Sheet.Lookup(TableIndex(cols, width, s.table), c.key).Some?
    ensures Sheet.Lookup(TableIndex(cols, width, s.table), c.key).value.rowNumber == j + 2
    ensures Step(width, s, c).table == s.table[j + 1 := c.row]
    ensures Step(width, s, c).index == s.index + [(c.key, Entry(j + 2, c.row))]
  {
    var e := Sheet.Lookup(s.index, c.key).value;
    UpdateStep(width, s, c, e);
    j := e.rowNumber - 2;
  }

  /** The update case of a step: the stored row is replaced where the index files it, and
      the index gains a fresh entry for the key. */
  lemma UpdateStep(width: nat, s: State, c: Candidate, e: Entry)
    requires Valid(s) && Sheet.Lookup(s.index, c.key) == Some(e) && Sheet.Pad(e.row, width) != c.row
    ensures 2 <= e.rowNumber <= |s.table|
    ensures Step(width, s, c).table == s.table[e.rowNumber - 1 := c.row]
    ensures Step(width, s, c).index == s.index + [(c.key, Entry(e.rowNumber, c.row))]
  {
    Sheet.LookupSpec(s.index, c.key);
  }

  /** The update case with the step's effect given as plain facts about the new state. */
  lemma UpdateSettles(cols: Cols, width: nat, s: State, s1: State, done: seq<Candidate>, c: Candidate,
                      rest: seq<Candidate>, j: nat)
    requires |s.table| >= 1 && Fits(cols, width) && Shaped(cols, width, c) && j < |s.table| - 1
    requires Sheet.Lookup(TableIndex(cols, width, s.table), c.key).Some?
    requires Sheet.Lookup(TableIndex(cols, width, s.table), c.key).value.rowNumber == j + 2
    requires Settled(cols, width, s, done, [c] + rest)
    requires forall d :: d in done + rest ==> d.key != c.key
    requires s1.table == s.table[j + 1 := c.row]
    requires s1.index == s.index + [(c.key, Entry(j + 2, c.row))]
    ensures Settled(cols, width, s1, done + [c], rest)
  {
    forall d | d in done + [c] ensures Holds(cols, width, s1.table, d) {
      UpdatedLookup(cols, width, s.table, j, c, d.key);
      if d != c {
        assert d in done && d in done + rest;
      }
    }
    forall d | d in rest
      ensures Sheet.Lookup(TableIndex(cols, width, s1.table), d.key) == Sheet.Lookup(s1.index, d.key)
    {
      UpdatedLookup(cols, width, s.table, j, c, d.key);
      Sheet.LookupSnoc(s.index, (c.key, Entry(j + 2, c.row)), d.key);
      assert d in done + rest && d in [c] + rest;
    }
  }

  /** Replacing data row j, filed under c's key, with c's row refreshes that key's entry
      and leaves every other key's. */
  lemma UpdatedLookup(cols: Cols, width: nat, t: Table, j: nat, c: Candidate, k: Key)
    requires |t| >= 1 && Fits(cols, width) && Shaped(cols, width, c) && j < |t| - 1
    requires Sheet.Lookup(TableIndex(cols, width, t), c.key).Some?
    requires Sheet.Lookup(TableIndex(cols, width, t), c.key).value.rowNumber == j + 2
    ensures |t[j + 1 := c.row]| >= 1
    ensures Sheet.Lookup(TableIndex(cols, width, t[j + 1 := c.row]), k)
            == if k == c.key then Some(Entry(j + 2, c.row)) else Sheet.Lookup(TableIndex(cols, width, t), k)
  {
    var rows := t[1..];
    assert t[j + 1 := c.row][1..] == rows[j := c.row];
    assert AllFit(cols, width, rows);
    FiledAtRow(KeysOf(cols, width, rows), PadAll(width, rows), j, c.key);
    UpdateIndexed(cols, width, rows, j, c.row, k);
    var before := Sheet.Lookup(TableIndex(cols, width, t), k);
    if k != c.key && before.Some? && before.value.rowNumber == j + 2 {
      FiledAtRow(KeysOf(cols, width, rows), PadAll(width, rows), j, k);
    }
  }

  /** One step keeps the loop settled. */
  lemma StepSettles(cols: Cols, width: nat, s: State, done: seq<Candidate>, c: Candidate, rest: seq<Candidate>)
    requires Valid(s) && |s.table| >= 1 && Fits(cols, width) && Shaped(cols, width, c)
    requires Settled(cols, width, s, done, [c] + rest)
    requires forall d :: d in done + rest ==> d.key != c.key
    ensures |Step(width, s, c).table| >= 1
    ensures Settled(cols, width, Step(width, s, c), done + [c], rest)
  {
    match Sheet.Lookup(s.index, c.key)
    case None => StepSettlesAppend(cols, width, s, done, c, rest);
    case Some(e) =>
      if Sheet.Pad(e.row, width) == c.row {
        StepSettlesSkip(cols, width, s, done, c, rest);
      } else {
        StepSettlesUpdate(cols, width, s, done, c, rest);
      }
  }

  /** The whole loop keeps it settled: once every row has been merged, each is the row the
      table files under its key. */
  lemma {:induction false} MergeSettles(cols: Cols, width: nat, s: State, done: seq<Candidate>, cs: seq<Candidate>)
    requires Valid(s) && |s.table| >= 1 && Fits(cols, width)
    requires forall c :: c in cs ==> Shaped(cols, width, c)
    requires DistinctKeys(done + cs)
    requires Settled(cols, width, s, done, cs)
    decreases |cs|
    ensures |Merge(width, s, cs).table| >= 1
    ensures forall c :: c in done + cs ==> Holds(cols, width, Merge(width, s, cs).table, c)
  {
    if |cs| == 0 {
      assert done + cs == done;
    } else {
      var c, rest := cs[0], cs[1..];
      assert cs == [c] + rest;
      assert done + cs == (done + [c]) + rest;
      forall d | d in done + rest ensures d.key != c.key {
        var i :| 0 <= i < |done + rest| && (done + rest)[i] == d;
        if i < |done| {
          assert (done + cs)[i] == d && (done + cs)[|done|] == c;
        } else {
          assert (done + cs)[i + 1] == d && (done + cs)[|done|] == c;
        }
      }
      assert c in cs;
      StepSettles(cols, width, s, done, c, rest);
      MergeSettles(cols, width, Step(width, s, c), done + [c], rest);
    }
  }

  /** When the index already files every row, padded, as it is, the loop skips them all and
      writes nothing. */
  lemma {:induction false} HeldSkips(width: nat, s: State, cs: seq<Candidate>)
    requires Valid(s)
    requires forall c :: c in cs ==> |c.row| == width && Sheet.Lookup(s.index, c.key).Some?
                                     && Sheet.Lookup(s.index, c.key).value.row == c.row
    decreases |cs|
    ensures Merge(width, s, cs) == s.(skipped := s.skipped + |cs|)
  {
    if |cs| > 0 {
      var c := cs[0];
      assert c in cs;
      Sheet.PadIdempotent(c.row, width);
      assert Sheet.Pad(c.row, width) == c.row;
      var s1 := Step(width, s, c);
      assert s1 == s.(skipped := s.skipped + 1);
      assert forall d :: d in cs[1..] ==> d in cs;
      HeldSkips(width, s1, cs[1..]);
    }
  }

  /** Running the merge again over the same rows finds every one already in place: all are
      skipped and the table is left as the first run wrote it. */
  lemma RerunSkips(cols: Cols, width: nat, t: Table, cs: seq<Candidate>)
    requires |t| >= 1 && Fits(cols, width)
    requires forall c :: c in cs ==> Shaped(cols, width, c)
    requires DistinctKeys(cs)
    ensures var t2 := Merge(width, State(t, TableIndex(cols, width, t), 0, 0, 0), cs).table;
            |t2| >= 1
            && Merge(width, State(t2, TableIndex(cols, width, t2), 0, 0, 0), cs)
               == State(t2, TableIndex(cols, width, t2), 0, 0, |cs|)
  {
    var s0 := State(t, TableIndex(cols, width, t), 0, 0, 0);
    assert [] + cs == cs;
    MergeSettles(cols, width, s0, [], cs);
    var t2 := Merge(width, s0, cs).table;
    var s2 := State(t2, TableIndex(cols, width, t2), 0, 0, 0);
    HeldSkips(width, s2, cs);
  }

  /** The loop over two runs of rows is the loop over the first, then over the second. */
  lemma {:induction false} MergeConcat(width: nat, s: State, a: seq<Candidate>, b: seq<Candidate>)
    requires Valid(s)
    decreases |a|
    ensures Merge(width, s, a + b) == Merge(width, Merge(width, s, a), b)
  {
    if |a| == 0 {
      assert a + b == b;
    } else {
      assert (a + b)[0] == a[0] && (a + b)[1..] == a[1..] + b;
      MergeConcat(width, Step(width, s, a[0]), a[1..], b);
    }
  }

  /** The index files a key at a stored row only if that row carries the key. */
  lemma KeyAtRow(cols: Cols, width: nat, t: Table, k: Key, j: nat)
    requires |t| >= 1 && Fits(cols, width) && j < |t| - 1
    requires RowNumber(TableIndex(cols, width, t), k) == Some(j + 2)
    ensures Fits(cols, |Sheet.Pad(t[j + 1], width)|) && KeyOf(cols, Sheet.Pad(t[j + 1], width)) == Some(k)
  {
    var rows := t[1..];
    WideFits(cols, width, rows);
    FiledRowKey(KeysOf(cols, width, rows), PadAll(width, rows), k, j);
    assert rows[j] == t[j + 1];
  }

  /** Whatever the keys, the row number the index gives a key is that of a row with the key. */
  lemma FiledRowKey(keys: seq<Option<Key>>, rows: seq<Row>, k: Key, j: nat)
    requires |keys| == |rows| && j < |rows|
    requires RowNumber(Filed(keys, rows), k) == Some(j + 2)
    ensures keys[j] == Some(k)
  {
    FiledAtRow(keys, rows, j, k);
  }

  /** A stored data row whose key no built row carries is left exactly as it was. */
  lemma UnbuiltRowUntouched(cols: Cols, width: nat, t: Table, cs: seq<Candidate>, p: nat)
    requires |t| >= 1 && Fits(cols, width) && 1 <= p < |t|
    requires forall c :: c in cs ==> Some(c.key) != KeyOf(cols, Sheet.Pad(t[p], width))
    ensures Merge(width, State(t, TableIndex(cols, width, t), 0, 0, 0), cs).table[p] == t[p]
  {
    var ix := TableIndex(cols, width, t);
    var j := p - 1;
    assert t[j + 1] == t[p];
    forall c | c in cs ensures RowNumber(ix, c.key) != Some(j + 2) {
      if RowNumber(ix, c.key) == Some(j + 2) {
        KeyAtRow(cols, width, t, c.key, j);
      }
    }
    MergeUntouched(width, State(t, ix, 0, 0, 0), cs, p);
  }
}
