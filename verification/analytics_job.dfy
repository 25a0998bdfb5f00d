/** The projects-to-analytics export job as a whole: read the analytics table and index it,
    read the projects table, and for each project build its rows and merge them into the
    analytics table, returning the appended, updated and skipped counts. The job writes as
    it goes, so a project that stops it leaves the rows of the earlier projects written. */
module AnalyticsJob {
  import opened Wrappers
  import Sheet
  import Numerals
  import Order
  import AnalyticsMerge
  import AnalyticsAgg

  type Table = Sheet.Table
  type Row = Sheet.Row
  type Candidate = AnalyticsMerge.Candidate

  /** How a run ends: with its three counts, or with the exception that stopped it. */
  datatype Outcome = Done(appended: nat, updated: nat, skipped: nat) | Crashed(error: string)

  /** A run's outcome and the analytics table it leaves behind. */
  datatype Run = Run(outcome: Outcome, table: Table)

  /** An analytics table without a header row: no rows at all, or an empty first row. */
  predicate Headerless(t: Table) {
    |t| == 0 || |t[0]| == 0
  }

  /** The analytics headers the job works with: the stored header row, or the default one. */
  function Headers(t: Table): (h: seq<string>)
    ensures Headerless(t) ==> h == AnalyticsAgg.DefaultHeaders
    ensures !Headerless(t) ==> h == t[0]
  {
    if Headerless(t) then AnalyticsAgg.DefaultHeaders else t[0]
  }

  /** The stored data rows the job indexes: none for a headerless table. */
  function Existing(t: Table): (rows: seq<Row>)
    ensures Headerless(t) ==> rows == []
    ensures !Headerless(t) ==> rows == t[1..]
  {
    if Headerless(t) then [] else t[1..]
  }

  /** [dict(zip(headers, r)) for r in rows if r]. */
  function ProjectDicts(headers: Row, rows: seq<Row>): (ds: seq<Sheet.Dict>)
    ensures |ds| <= |rows|
  {
    if |rows| == 0 then []
    else (if rows[0] == [] then [] else [Sheet.Record(headers, rows[0])]) + ProjectDicts(headers, rows[1..])
  }

  /** What reading each project gives: its rows, or the error it raises. */
  type Reading = Result<seq<Candidate>, string>

  /** Each project's reading under the given analytics headers, in order. */
  function Readings(headers: seq<string>, ps: seq<Sheet.Dict>): (rs: seq<Reading>)
    ensures |rs| == |ps|
  {
    seq(|ps|, i requires 0 <= i < |ps| => AnalyticsAgg.ProjectRows(headers, ps[i]))
  }

  /** The rows of the readings in order, up to the first failed reading, and that
      reading's error. */
  function Built(rs: seq<Reading>): (r: (Option<string>, seq<Candidate>)) {
    if |rs| == 0 then (None, [])
    else
      match rs[0]
      case Err(e) => (Some(e), [])
      case Ok(cs) =>
        var rest := Built(rs[1..]);
        assert forall i :: 1 <= i < |rs| ==> rs[1..][i - 1] == rs[i];
        (rest.0, cs + rest.1)
  }

  /** A built row comes from a reading that succeeded. */
  lemma {:induction false} BuiltFrom(rs: seq<Reading>, c: Candidate) returns (j: nat)
    requires c in Built(rs).1
    ensures j < |rs| && rs[j].Ok? && c in rs[j].value
  {
    var cs := rs[0].value;
    if c in cs {
      j := 0;
    } else {
      var j' := BuiltFrom(rs[1..], c);
      j := j' + 1;
    }
  }

  /** The rows every project builds before the first project that raises, and that
      project's error. */
  function AllRows(headers: seq<string>, ps: seq<Sheet.Dict>): (r: (Option<string>, seq<Candidate>)) {
    Built(Readings(headers, ps))
  }

  /** The job's loop over the projects: each project's rows are merged before the next
      project is read, and a project that raises stops the loop. */
  function Fold(width: nat, s: AnalyticsMerge.State, rs: seq<Reading>): (r: (Option<string>, AnalyticsMerge.State))
    requires AnalyticsMerge.Valid(s)
    decreases |rs|
    ensures AnalyticsMerge.Valid(r.1) && |r.1.table| >= |s.table|
  {
    if |rs| == 0 then (None, s)
    else
      match rs[0]
      case Err(e) => (Some(e), s)
      case Ok(cs) => Fold(width, AnalyticsMerge.Merge(width, s, cs), rs[1..])
  }

  /** Merging project by project is merging all the rows built before the first failing
      project in one go, and the loop stops with that project's error. */
  lemma {:induction false} FoldIsMerge(width: nat, s: AnalyticsMerge.State, rs: seq<Reading>)
    requires AnalyticsMerge.Valid(s)
    decreases |rs|
    ensures Fold(width, s, rs) == (Built(rs).0, AnalyticsMerge.Merge(width, s, Built(rs).1))
  {
    if |rs| > 0 {
      match rs[0]
      case Err(e) =>
      case Ok(cs) =>
        var s1 := AnalyticsMerge.Merge(width, s, cs);
        FoldIsMerge(width, s1, rs[1..]);
        AnalyticsMerge.MergeConcat(width, s, cs, Built(rs[1..]).1);
    }
  }

  /** The readings a run goes through: none when the projects table has no header row. */
  function Plan(analytics: Table, projects: Table): (rs: seq<Reading>)
    ensures Headerless(projects) ==> rs == []
  {
    if Headerless(projects) then []
    else Readings(Headers(analytics), ProjectDicts(projects[0], projects[1..]))
  }

  /** The run's result once its loop has stopped. */
  function Finish(r: (Option<string>, AnalyticsMerge.State)): Run {
    match r.0
    case Some(e) => Run(Crashed(e), r.1.table)
    case None => Run(Done(r.1.appended, r.1.updated, r.1.skipped), r.1.table)
  }

  /** The index the run builds from the stored table, or the error that stops it. */
  function IndexOf(analytics: Table): Result<AnalyticsMerge.Index, string> {
    var headers := Headers(analytics);
    AnalyticsMerge.BuildIndex(AnalyticsMerge.ColsOf(headers), |headers|, Existing(analytics))
  }

  /** The run over given project readings: a stored row the index cannot read stops it
      before anything is written. */
  function RunOn(analytics: Table, rs: seq<Reading>): (r: Run)
    ensures |r.table| >= |analytics|
  {
    match IndexOf(analytics)
    case Err(e) => Run(Crashed(e), analytics)
    case Ok(index) => Finish(Fold(|Headers(analytics)|, AnalyticsMerge.State(analytics, index, 0, 0, 0), rs))
  }

  /** _export_projects_to_data_analytics_job, on the analytics table and the projects
      table. */
  function RunJob(analytics: Table, projects: Table): Run {
    RunOn(analytics, Plan(analytics, projects))
  }

  /** The rows a run builds, before any project that raises. */
  function BuiltRows(analytics: Table, projects: Table): seq<Candidate> {
    Built(Plan(analytics, projects)).1
  }

  /** The state a run that gets past indexing starts from. */
  function Start(analytics: Table): (s: AnalyticsMerge.State)
    requires IndexOf(analytics).Ok?
    ensures AnalyticsMerge.Valid(s)
  {
    AnalyticsMerge.State(analytics, IndexOf(analytics).value, 0, 0, 0)
  }

  /** A run that gets past indexing merges every row it builds, in order, into the stored
      table, and stops with the error of the first project that raises. */
  lemma RunIsMerge(analytics: Table, rs: seq<Reading>)
    requires IndexOf(analytics).Ok?
    ensures RunOn(analytics, rs) == Finish((Built(rs).0, AnalyticsMerge.Merge(|Headers(analytics)|, Start(analytics), Built(rs).1)))
  {
    FoldIsMerge(|Headers(analytics)|, Start(analytics), rs);
  }

  /** The counts of a finished run add up to the number of rows built, the table grows by
      the appended rows, a stored header row is kept, and a run that stops on a project
      has still written the rows of the projects before it. */
  lemma RunCounts(analytics: Table, rs: seq<Reading>)
    requires IndexOf(analytics).Ok?
    ensures var r := RunOn(analytics, rs);
            r.outcome.Done? ==> r.outcome.appended + r.outcome.updated + r.outcome.skipped == |Built(rs).1|
                                && |r.table| == |analytics| + r.outcome.appended
    ensures var r := RunOn(analytics, rs);
            |r.table| >= |analytics| && (!Headerless(analytics) ==> r.table[0] == analytics[0])
    ensures RunOn(analytics, rs).table == AnalyticsMerge.Merge(|Headers(analytics)|, Start(analytics), Built(rs).1).table
  {
    RunIsMerge(analytics, rs);
  }

  /** An index failure stops the run with the table unchanged. */
  lemma IndexFailureWritesNothing(analytics: Table, rs: seq<Reading>)
    requires IndexOf(analytics).Err?
    ensures RunOn(analytics, rs) == Run(Crashed(IndexOf(analytics).error), analytics)
  {}

  /** An empty projects table ends the run with nothing counted and nothing written. */
  lemma NoProjectsNoWrites(analytics: Table, projects: Table)
    requires Headerless(projects)
    ensures var r := RunJob(analytics, projects);
            r.table == analytics && (r.outcome.Done? ==> r.outcome == Done(0, 0, 0))
  {}

  /** The key the index reads from stored row p, padded to the header width. */
  function StoredKey(t: Table, p: nat): Option<AnalyticsMerge.Key>
    requires !Headerless(t) && p < |t| && AnalyticsMerge.Fits(AnalyticsMerge.ColsOf(t[0]), |t[0]|)
  {
    AnalyticsMerge.KeyOf(AnalyticsMerge.ColsOf(t[0]), Sheet.Pad(t[p], |t[0]|))
  }

  /** A stored data row whose key no built row carries is not written. */
  lemma UntouchedRows(analytics: Table, rs: seq<Reading>, p: nat)
    requires !Headerless(analytics) && 1 <= p < |analytics|
    requires AnalyticsMerge.Fits(AnalyticsMerge.ColsOf(analytics[0]), |analytics[0]|)
    requires forall c :: c in Built(rs).1 ==> Some(c.key) != StoredKey(analytics, p)
    ensures RunOn(analytics, rs).table[p] == analytics[p]
  {
    var headers := analytics[0];
    var cols := AnalyticsMerge.ColsOf(headers);
    assert IndexOf(analytics) == Ok(AnalyticsMerge.TableIndex(cols, |headers|, analytics));
    RunCounts(analytics, rs);
    AnalyticsMerge.UnbuiltRowUntouched(cols, |headers|, analytics, Built(rs).1, p);
  }

  /** Header rows that name the three key columns. */
  predicate NamesKeys(headers: seq<string>) {
    "Article Number" in headers && "Order time" in headers && "Drilling unit / Project number" in headers
  }

  /** No two projects share a stripped (project number, created_at) pair. */
  predicate DistinctProjects(ps: seq<Sheet.Dict>) {
    forall i, j :: 0 <= i < j < |ps| ==>
      (AnalyticsAgg.TextField(ps[i], "project_number"), AnalyticsAgg.TextField(ps[i], "created_at"))
      != (AnalyticsAgg.TextField(ps[j], "project_number"), AnalyticsAgg.TextField(ps[j], "created_at"))
  }

  /** No row of one reading shares a key with a row of another. */
  predicate KeysApart(a: seq<Candidate>, b: seq<Candidate>) {
    forall c, d :: c in a && d in b ==> c.key != d.key
  }

  /** Every successful reading has distinct keys, and no two readings share one. */
  predicate ReadingsDistinct(rs: seq<Reading>) {
    (forall i :: 0 <= i < |rs| && rs[i].Ok? ==> AnalyticsMerge.DistinctKeys(rs[i].value))
    && (forall i, j :: 0 <= i < j < |rs| && rs[i].Ok? && rs[j].Ok? ==> KeysApart(rs[i].value, rs[j].value))
  }

  /** Readings with distinct keys build rows with distinct keys. */
  lemma {:induction false} BuiltDistinct(rs: seq<Reading>)
    requires ReadingsDistinct(rs)
    ensures AnalyticsMerge.DistinctKeys(Built(rs).1)
  {
    if |rs| > 0 && rs[0].Ok? {
      var cs := rs[0].value;
      var tail := rs[1..];
      assert ReadingsDistinct(tail) by {
        forall i | 0 <= i < |tail| ensures tail[i] == rs[i + 1] {}
      }
      BuiltDistinct(tail);
      var rest := Built(tail).1;
      forall c, d | c in cs && d in rest ensures c.key != d.key {
        var j := BuiltFrom(tail, d);
        assert tail[j] == rs[j + 1];
        assert KeysApart(rs[0].value, rs[j + 1].value);
      }
      DistinctConcat(cs, rest);
    }
  }

  lemma DistinctConcat(a: seq<Candidate>, b: seq<Candidate>)
    requires AnalyticsMerge.DistinctKeys(a) && AnalyticsMerge.DistinctKeys(b) && KeysApart(a, b)
    ensures AnalyticsMerge.DistinctKeys(a + b)
  {
    var ab := a + b;
    forall i, j | 0 <= i < j < |ab| ensures ab[i].key != ab[j].key {
      if j < |a| {
        assert ab[i] == a[i] && ab[j] == a[j];
      } else if i >= |a| {
        assert ab[i] == b[i - |a|] && ab[j] == b[j - |a|];
      } else {
        assert ab[i] in a && ab[j] in b;
      }
    }
  }

  /** Distinct projects read under any headers give readings with distinct keys: a row's
      key carries its project's number and order time. */
  lemma ProjectsReadDistinct(headers: seq<string>, ps: seq<Sheet.Dict>)
    requires DistinctProjects(ps)
    ensures ReadingsDistinct(Readings(headers, ps))
  {
    var rs := Readings(headers, ps);
    forall i, j | 0 <= i < j < |rs| && rs[i].Ok? && rs[j].Ok? ensures KeysApart(rs[i].value, rs[j].value) {
      assert rs[i] == AnalyticsAgg.ProjectRows(headers, ps[i]) && rs[j] == AnalyticsAgg.ProjectRows(headers, ps[j]);
    }
  }

  /** Under headers that name the key columns every built row is shaped by them. */
  lemma AllRowsShaped(headers: seq<string>, ps: seq<Sheet.Dict>)
    requires NamesKeys(headers)
    ensures forall c :: c in AllRows(headers, ps).1 ==> AnalyticsMerge.Shaped(AnalyticsMerge.ColsOf(headers), |headers|, c)
  {
    var rs := Readings(headers, ps);
    forall c | c in Built(rs).1 ensures AnalyticsMerge.Shaped(AnalyticsMerge.ColsOf(headers), |headers|, c) {
      var j := BuiltFrom(rs, c);
      AnalyticsAgg.ProjectRowsShaped(headers, ps[j]);
    }
  }

  /** Re-running over the same readings against the table a finished run left behind
      appends nothing, updates nothing, skips every row and writes nothing, when the
      stored header row names the key columns and the built rows have distinct keys and
      are shaped by the headers. */
  lemma RerunOn(analytics: Table, rs: seq<Reading>)
    requires !Headerless(analytics) && AnalyticsMerge.Fits(AnalyticsMerge.ColsOf(analytics[0]), |analytics[0]|)
    requires forall c :: c in Built(rs).1 ==> AnalyticsMerge.Shaped(AnalyticsMerge.ColsOf(analytics[0]), |analytics[0]|, c)
    requires AnalyticsMerge.DistinctKeys(Built(rs).1)
    requires RunOn(analytics, rs).outcome.Done?
    ensures var t2 := RunOn(analytics, rs).table;
            RunOn(t2, rs) == Run(Done(0, 0, |Built(rs).1|), t2)
  {
    var headers := analytics[0];
    var cols := AnalyticsMerge.ColsOf(headers);
    var width := |headers|;
    var cs := Built(rs).1;
    var s := AnalyticsMerge.State(analytics, AnalyticsMerge.TableIndex(cols, width, analytics), 0, 0, 0);
    assert IndexOf(analytics) == Ok(s.index);
    RunCounts(analytics, rs);
    var t2 := RunOn(analytics, rs).table;
    AnalyticsMerge.RerunSkips(cols, width, analytics, cs);
    var s2 := AnalyticsMerge.State(t2, AnalyticsMerge.TableIndex(cols, width, t2), 0, 0, 0);
    assert !Headerless(t2) && t2[0] == headers;
    assert IndexOf(t2) == Ok(s2.index);
    FoldIsMerge(width, s2, rs);
    FoldIsMerge(width, s, rs);
  }

  /** Re-running the job over unchanged projects against the table its finished run left
      behind appends nothing, updates nothing, skips every row and writes nothing, provided
      the header row names the key columns and no two projects share a project number and
      order time. */
  lemma RerunIsIdempotent(analytics: Table, projects: Table)
    requires !Headerless(analytics) && NamesKeys(analytics[0])
    requires !Headerless(projects) && DistinctProjects(ProjectDicts(projects[0], projects[1..]))
    requires RunJob(analytics, projects).outcome.Done?
    ensures var t2 := RunJob(analytics, projects).table;
            RunJob(t2, projects) == Run(Done(0, 0, |BuiltRows(analytics, projects)|), t2)
  {
    var headers := analytics[0];
    var ps := ProjectDicts(projects[0], projects[1..]);
    var rs := Plan(analytics, projects);
    ProjectsReadDistinct(headers, ps);
    BuiltDistinct(rs);
    AllRowsShaped(headers, ps);
    RerunOn(analytics, rs);
    var t2 := RunJob(analytics, projects).table;
    RunCounts(analytics, rs);
    assert Plan(t2, projects) == rs;
  }

  // ------------------------------------------------------------ the empty analytics table

  /** A row the job builds under the default headers: twelve cells, with a decimal number
      in the projected-quantity column. */
  predicate DataRow(r: Row) {
    |r| == 12 && |r[8]| > 0 && (r[8][0] == '-' || Numerals.IsDigit(r[8][0]))
  }

  /** Every row built for one project under the default headers is a data row. */
  lemma ProjectDataRows(proj: Sheet.Dict)
    requires AnalyticsAgg.ProjectRows(AnalyticsAgg.DefaultHeaders, proj).Ok?
    ensures forall c :: c in AnalyticsAgg.ProjectRows(AnalyticsAgg.DefaultHeaders, proj).value ==> DataRow(c.row)
  {
    var headers := AnalyticsAgg.DefaultHeaders;
    var ml := AnalyticsAgg.ReadProject(proj).value;
    var cs := AnalyticsAgg.Candidates(headers, ml.0, ml.1);
    forall k | 0 <= k < |cs| ensures DataRow(cs[k].row) {
      var iid := Order.SortedSet(AnalyticsAgg.Iids(ml.1))[k];
      var it := AnalyticsAgg.ItemOf(AnalyticsAgg.Aggregate(ml.1), iid);
      AnalyticsAgg.CandidateRow(headers, ml.0, ml.1, k, 8);
      AnalyticsAgg.CellByHeader(ml.0, iid, it);
      assert cs[k].row[8] == Numerals.IntToString(it.projected);
    }
  }

  /** Every row built under the default headers is a data row. */
  lemma AllDataRows(ps: seq<Sheet.Dict>)
    ensures forall c :: c in AllRows(AnalyticsAgg.DefaultHeaders, ps).1 ==> DataRow(c.row)
  {
    var rs := Readings(AnalyticsAgg.DefaultHeaders, ps);
    forall c | c in Built(rs).1 ensures DataRow(c.row) {
      var j := BuiltFrom(rs, c);
      ProjectDataRows(ps[j]);
    }
  }

  /** The first fresh row is the row of one of the built rows. */
  lemma {:induction false} FreshFrom(ix: AnalyticsMerge.Index, cs: seq<Candidate>) returns (c: Candidate)
    requires |AnalyticsMerge.Fresh(ix, cs)| > 0
    decreases |cs|
    ensures c in cs && AnalyticsMerge.Fresh(ix, cs)[0] == c.row
  {
    if Sheet.Lookup(ix, cs[0].key).None? {
      c := cs[0];
    } else {
      c := FreshFrom(ix, cs[1..]);
    }
  }

  /** As written, a run on an empty analytics table writes no header row: the first row it
      appends, a data row, becomes the table's first row, and the next run takes that row
      for its header row instead of the headers the first run wrote under. */
  lemma EmptyTableLosesHeader(rs: seq<Reading>)
    requires forall c :: c in Built(rs).1 ==> DataRow(c.row)
    requires RunOn([], rs).outcome.Done? && RunOn([], rs).outcome.appended > 0
    ensures var t := RunOn([], rs).table;
            |t| >= 1 && DataRow(t[0]) && Headers(t) == t[0] && Headers(t) != Headers([])
  {
    var headers := AnalyticsAgg.DefaultHeaders;
    var s := AnalyticsMerge.State([], [], 0, 0, 0);
    var cs := Built(rs).1;
    assert IndexOf([]) == Ok([]);
    RunCounts([], rs);
    AnalyticsMerge.MergeAppends(|headers|, s, cs);
    var t := RunOn([], rs).table;
    assert t[0..] == AnalyticsMerge.Fresh([], cs);
    var c := FreshFrom([], cs);
    assert t[0] == c.row;
    HeadersNotData();
  }

  /** The default header row is not a data row: its projected-quantity cell is a title. */
  lemma HeadersNotData()
    ensures !DataRow(AnalyticsAgg.DefaultHeaders)
  {
    assert AnalyticsAgg.DefaultHeaders[8][0] == 'P';
  }

  /** In particular on the job's own readings of any projects table. */
  lemma EmptyJobLosesHeader(projects: Table)
    requires RunJob([], projects).outcome.Done? && RunJob([], projects).outcome.appended > 0
    ensures var t := RunJob([], projects).table;
            |t| >= 1 && DataRow(t[0]) && Headers(t) != Headers([])
  {
    if !Headerless(projects) {
      AllDataRows(ProjectDicts(projects[0], projects[1..]));
    }
    EmptyTableLosesHeader(Plan([], projects));
  }

  /** The header row written before the run when the analytics table has none. */
  function WithHeader(t: Table): (r: Table)
    ensures !Headerless(r) && r[0] == Headers(t)
    ensures !Headerless(t) ==> r == t
  {
    if |t| == 0 then Sheet.AppendRow(t, AnalyticsAgg.DefaultHeaders)
    else if |t[0]| == 0 then Sheet.UpdateRow(t, 1, AnalyticsAgg.DefaultHeaders)
    else t
  }

  /** The job with the header row written first: every later run reads the headers this
      run wrote under. */
  function RunJobFixed(analytics: Table, projects: Table): Run {
    RunJob(WithHeader(analytics), projects)
  }

  /** The corrected run leaves a header row in place: the stored one, or the default one
      on a table that had none. */
  lemma FixedKeepsHeader(analytics: Table, projects: Table)
    ensures var t := RunJobFixed(analytics, projects).table;
            |t| >= 1 && t[0] == Headers(analytics) && Headers(t) == Headers(analytics)
  {
    var t := WithHeader(analytics);
    if IndexOf(t).Ok? {
      RunCounts(t, Plan(t, projects));
    }
  }

  /** With the header row written first, a re-run over unchanged projects appends,
      updates and writes nothing, from any starting table whose header row names the key
      columns, the empty table included. */
  lemma RerunFixedIsIdempotent(analytics: Table, projects: Table)
    requires NamesKeys(Headers(analytics))
    requires !Headerless(projects) && DistinctProjects(ProjectDicts(projects[0], projects[1..]))
    requires RunJobFixed(analytics, projects).outcome.Done?
    ensures var t2 := RunJobFixed(analytics, projects).table;
            RunJobFixed(t2, projects) == Run(Done(0, 0, |BuiltRows(analytics, projects)|), t2)
  {
    var t := WithHeader(analytics);
    FixedKeepsHeader(analytics, projects);
    var t2 := RunJobFixed(analytics, projects).table;
    assert WithHeader(t2) == t2;
    assert Plan(t, projects) == Plan(analytics, projects);
    RerunIsIdempotent(t, projects);
  }
}
