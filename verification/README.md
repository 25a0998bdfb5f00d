# Rototec warehouse: a Dafny model of the inventory core

The warehouse application keeps stock counters for items and an append-only movement
log. It also keeps projects, and each project carries three embedded lists: the items
reserved for it, the items workers took, and the items workers returned. A periodic job
folds every project's lists into per-item rows and upserts those rows into a
consolidated analytics table.

This project restates that core as pure Dafny functions over an abstract table and proves
what the routes and the browser carts promise. The table is a header row plus rows of text
cells.

The model is layered as the application is:

- **Support.** `Wrappers` holds Option and Result. `Text` mirrors Python's and
  JavaScript's strip, lower, `in` and join. `Numerals` renders and parses decimal
  integers. `Json` holds a JSON value, which also serves as "a Python value" and "a
  JavaScript value". It has both languages' truthiness, `.get`, `str()` and `String()`. `JsonCodec` is `json.dumps`/`json.loads`. `Sheet` is the
  tabular store: header zip, padding, and row append and update. `Order` is Python's
  stable `sort`, and `Lists` holds small list helpers.
- **Tolerant readers.** `Coerce` holds the `_to_int`/`_ensure_int` variants,
  `_safe_parse_json` and `_safe_json_list`.
- **Stock ledger and confirm dispatch.**
  - `SheetsService` models `update_item_stock`, the movement-log insert, the safety-stock
    list and delivery requests.
  - `ItemApi` models the QR lookup and the per-line decisions of `confirm_items`.
  - `LowStock` models the analytics page's low-stock list.
  - `Ledger` holds the "net outstanding per (article, user)" fold that the catalog, logs
    and user-statistics pages each repeat.
- **Project sub-ledger.**
  - `Projects` covers visibility, the derived status, per-item sums, the point edit of one
    item line and the status setter.
  - `ProjectItems` covers the take and return pages' project look-up, enrichment and the
    two append operations.
  - `CreateProject` covers the project list, creation and the workers list.
  - `ProjectLogs` covers the project-log bucketing.
- **Reconciliation job.**
  - `AnalyticsAgg` covers the per-project aggregation and the rows built from it.
  - `AnalyticsMerge` covers the index of the stored rows and the append, update or skip
    decision.
  - `AnalyticsJob` covers the whole run: counts, untouched rows, idempotence of a re-run,
    and the empty-table defect with its correction.
- **Read-side pages.** `Catalog`, `LogsView`, `UserStats`, `IssueLogs`, `Users` and
  `Columns` (the two column-letter converters).
- **Browser carts.** `Carts` holds the shared list operations, and the page modules are
  `TakeCart`, `ReturnCart`, `AddStockCart` and `ProjectForm`. Each page's summary is shown
  to be what `ItemApi.Confirm` consumes. Per line, the dispatch is proved to write a record
  with the line's content. It is also proved to move stock exactly for a take, or for a
  return that applies to stock.

Every request handler is a function from its inputs and the table state to a response
and the new table state. Every Python exception becomes an error value, and an uncaught
one becomes the 500 response Flask would send. The session, "today", dates, UUIDs and
timestamps are parameters.

## Model

| member | source | states |
|---|---|---|
| AnalyticsAgg.ReadLineSpec | app/routes/data_analytics/data_analytics.py:399-423 | A list entry that is not a dict raises, because `.get` is called on it. A dict whose stripped `item_id` is blank is skipped. Any other dict yields one line with the stripped id and the quantity read by the job's `to_int`; only returned entries carry a return type. Reading fails exactly when `item_name` (or, for returns, `return_type`) is truthy and not text. |
| AnalyticsAgg.ReadListFails | app/routes/data_analytics/data_analytics.py:399-423 | A list is read without error iff every entry is. The error reported is that of the first failing entry, since the loop stops at the first exception. |
| AnalyticsAgg.ReadField | app/routes/data_analytics/data_analytics.py:399-419 | A field that did not decode to a list contributes no lines; a list is read entry by entry. |
| AnalyticsAgg.ReadListTotal | app/routes/data_analytics/data_analytics.py:399-419 | For a non-blank id, the lines read from a list carry in total exactly the sum of `to_int(quantity)` over the raw entries whose stripped id is that id. |
| AnalyticsAgg.Bump | app/routes/data_analytics/data_analytics.py:404 | `d[k] = d.get(k, 0) + q` adds k to the keys, raises k's amount by q, and leaves every other key's amount alone. |
| AnalyticsAgg.AddType | app/routes/data_analytics/data_analytics.py:422-423 | The per-item return-type tally keeps each type once; the touched type is present afterwards, its amount grows by q, and other types keep their amounts. |
| AnalyticsAgg.SumsAreTotals | app/routes/data_analytics/data_analytics.py:390-419 | After the three loops, an id is a key of the projected, taken or returned dict iff some line of that kind carries it, and its amount is the sum of that kind's quantities for it. |
| AnalyticsAgg.NamesAreFirst | app/routes/data_analytics/data_analytics.py:392-397 | An id gets a name iff some line gives it a non-empty name, and the name kept is that of the first such line. |
| AnalyticsAgg.TypesAreTotals | app/routes/data_analytics/data_analytics.py:420-423 | Per item, the return-type tally has no duplicate type. It holds a type iff some returned line of the item has that (stripped, lower-cased, non-blank) type. Its amount is the sum of those lines' quantities. |
| AnalyticsAgg.IdsAreKeys | app/routes/data_analytics/data_analytics.py:425 | The sorted distinct ids are exactly the keys of the union of the three quantity dicts. |
| AnalyticsAgg.CommentEmpty | app/routes/data_analytics/data_analytics.py:433-438 | The comment is empty iff the item has no return types. |
| AnalyticsAgg.ItemTotals | app/routes/data_analytics/data_analytics.py:390-438 | The item's projected, taken and returned figures are the three per-kind sums. Its name is the first name seen, or empty when no line names it. Its comment is empty iff none of its returned lines has a type. |
| AnalyticsAgg.Candidates | app/routes/data_analytics/data_analytics.py:425-458 | One row per distinct item id, in ascending id order, each filed under (id, project number, order time). |
| AnalyticsAgg.CandidatesDistinct | app/routes/data_analytics/data_analytics.py:425-458 | No two rows built for one project share a key. |
| AnalyticsAgg.CellByHeader | app/routes/data_analytics/data_analytics.py:441-454 | Each known header selects its value: the id, the order time, the project number, the name, the three quantities as decimal text, and the comment. |
| AnalyticsAgg.CandidateRow | app/routes/data_analytics/data_analytics.py:455-456 | Cell j of a built row is the value that header j selects for that row's item. |
| AnalyticsAgg.CandidateCells | app/routes/data_analytics/data_analytics.py:441-456 | The three quantity cells of a built row are the decimal renderings of the per-kind sums over the project's lines. |
| AnalyticsAgg.NewRow | app/routes/data_analytics/data_analytics.py:456 | The built row has exactly one cell per analytics header. |
| AnalyticsAgg.CandidatesShaped | app/routes/data_analytics/data_analytics.py:343-347 | When the headers name the three key columns, every built row, stripped at its key cells, reads back as its own non-blank key, so the index files it under that key. |
| AnalyticsAgg.ProjectRowsShaped | app/routes/data_analytics/data_analytics.py:343-347 | The same holds for every row built from a project record. |
| AnalyticsAgg.TextField | app/routes/data_analytics/data_analytics.py:377-381 | `(proj.get(name) or "").strip()` leaves no surrounding whitespace. |
| AnalyticsAgg.Driller | app/routes/data_analytics/data_analytics.py:383-387 | The driller is empty when `workers` is not a non-empty list or its first worker is falsy. A truthy first worker that is not a dict raises. For a dict it is the stripped name when the name is text, and an error when the name is truthy but not text. With a falsy name it falls back to the username: the stripped username when that is text, empty when it is falsy, an error when it is truthy but not text. |
| AnalyticsAgg.ReadProject | app/routes/data_analytics/data_analytics.py:369-387 | A project that reads without error yields well-formed lines and metadata whose project number and order time are the stripped `project_number` and `created_at`. |
| AnalyticsAgg.ProjectRows | app/routes/data_analytics/data_analytics.py:369-458 | The rows built for one project have distinct keys, and each key carries that project's stripped project number and order time. |
| AnalyticsMerge.ColumnOr | app/routes/data_analytics/data_analytics.py:328-331 | `hidx.get(name, default)` is the last position holding that header when the header is present (a later duplicate header wins), and the default otherwise. |
| AnalyticsMerge.ColsOf | app/routes/data_analytics/data_analytics.py:333-335 | The three key columns are where the headers name them, falling back to columns 0, 1 and 5. |
| AnalyticsMerge.KeysOf | app/routes/data_analytics/data_analytics.py:340-347 | Each stored data row is filed under the stripped key cells of the row padded to the header width. |
| AnalyticsMerge.PadAll | app/routes/data_analytics/data_analytics.py:342 | Each stored row is padded to the header width. |
| AnalyticsMerge.BuildIndex | app/routes/data_analytics/data_analytics.py:339-347 | Indexing succeeds iff every padded row reaches all three key columns; otherwise `r[idx]` raises. It always succeeds when the key columns lie within the header width. |
| AnalyticsMerge.FiledLookup | app/routes/data_analytics/data_analytics.py:339-347 | A key is found iff some stored row carries it; rows whose three key cells are blank are never filed. The entry found is the LAST such row (its 1-based sheet row number and its padded cells), because a later assignment replaces an earlier one. |
| AnalyticsMerge.Step | app/routes/data_analytics/data_analytics.py:458-476 | Each built row bumps exactly one counter. The table grows only by appends, and its header row stays in place. |
| AnalyticsMerge.Merge | app/routes/data_analytics/data_analytics.py:427-476 | Over all built rows, appended + updated + skipped equals the number of rows built. The table grows by exactly the number of appends, and the header row is unchanged. |
| AnalyticsMerge.StepKeepsRowNumbers | app/routes/data_analytics/data_analytics.py:459-467 | An update never moves a key to a different sheet row; an append does not enter the index. |
| AnalyticsMerge.MergeUntouched | app/routes/data_analytics/data_analytics.py:459-476 | A stored row that no built row's key points at is left exactly as it was. |
| AnalyticsMerge.MergeAppends | app/routes/data_analytics/data_analytics.py:471-476 | The rows added at the end of the table are exactly the built rows whose key the initial index lacked, in order, and `appended` counts them. |
| AnalyticsMerge.MergeKeepsPrefix | app/routes/data_analytics/data_analytics.py:459-476 | A stored row the index does not point at is never rewritten. |
| AnalyticsMerge.UpdateIndexed | app/routes/data_analytics/data_analytics.py:464-467 | Overwriting a stored row with one of the same key changes only that row's index entry, which now holds the new padded row. |
| AnalyticsMerge.AppendIndexed | app/routes/data_analytics/data_analytics.py:473 | Indexing the table after an append finds the appended row, at the new last sheet row, under its own key, and every other key as before. |
| AnalyticsMerge.UnbuiltRowUntouched | app/routes/data_analytics/data_analytics.py:459-476 | A stored row whose key no built row carries is left unchanged by the whole merge. |
| AnalyticsMerge.MergeSettles | app/routes/data_analytics/data_analytics.py:458-476 | When built rows have distinct, readable keys, after the merge the indexed table holds each of them under its key, with the same cells. |
| AnalyticsMerge.HeldSkips | app/routes/data_analytics/data_analytics.py:459-470 | When the index already holds every built row with identical cells, the merge changes nothing but the skipped counter. |
| AnalyticsMerge.RerunSkips | app/routes/data_analytics/data_analytics.py:303-312 | A second merge of the same distinct-key rows into the merged table, re-indexed, writes nothing and skips every row. |
| AnalyticsMerge.MergeConcat | app/routes/data_analytics/data_analytics.py:427-476 | Merging two batches one after the other equals merging their concatenation, so the per-project loop composes. |
| AnalyticsJob.Headers | app/routes/data_analytics/data_analytics.py:315-325 | A missing or empty header row means the twelve default headers; otherwise the stored header row is used. |
| AnalyticsJob.Existing | app/routes/data_analytics/data_analytics.py:315-325 | The stored data rows are all rows after the header, and none when the table has no header row. |
| AnalyticsJob.FoldIsMerge | app/routes/data_analytics/data_analytics.py:369-478 | The per-project loop equals one merge of all rows built before the first project that raises, and that project's error ends the run. |
| AnalyticsJob.RunIsMerge | app/routes/data_analytics/data_analytics.py:303-478 | A run that gets past indexing writes exactly what the merge of its built rows writes. |
| AnalyticsJob.RunCounts | app/routes/data_analytics/data_analytics.py:365-478 | A completed run's appended + updated + skipped equals the number of rows built, and the table grows by exactly `appended`. A stored header row is never rewritten. |
| AnalyticsJob.IndexFailureWritesNothing | app/routes/data_analytics/data_analytics.py:339-347 | A stored row that the index cannot read stops the run before anything is written. |
| AnalyticsJob.NoProjectsNoWrites | app/routes/data_analytics/data_analytics.py:349-352 | A projects table with no header returns (0, 0, 0) and leaves the analytics table as it was. |
| AnalyticsJob.Plan | app/routes/data_analytics/data_analytics.py:349-355 | A projects table with no header gives nothing to do. |
| AnalyticsJob.UntouchedRows | app/routes/data_analytics/data_analytics.py:458-476 | A stored analytics row whose key no project produces is left unchanged by the run. |
| AnalyticsJob.BuiltDistinct | app/routes/data_analytics/data_analytics.py:425-458 | When the projects' readings have pairwise distinct keys, so do all rows the run builds. |
| AnalyticsJob.RerunOn | app/routes/data_analytics/data_analytics.py:303-312 | Re-running on the table a completed run produced appends and updates nothing, and skips every row. |
| AnalyticsJob.RerunIsIdempotent | app/routes/data_analytics/data_analytics.py:303-312 | Given a header row naming the key columns and projects with distinct (project number, created_at), a second run of the whole job on the written table is a no-op: (0, 0, n), table unchanged. |
| AnalyticsJob.EmptyTableLosesHeader | app/routes/data_analytics/data_analytics.py:315-322 | As written: on an empty analytics table the default headers are used but never written, so the first appended data row becomes the table's header row. |
| AnalyticsJob.EmptyJobLosesHeader | app/routes/data_analytics/data_analytics.py:471-476 | The same for the whole job: after a run that appends to an empty table, its first row is a data row and the next run reads different headers. |
| AnalyticsJob.WithHeader | app/routes/data_analytics/data_analytics.py:315-322 | The correction writes the header row the run works with when the table has none, and leaves a table with a header untouched. |
| AnalyticsJob.FixedKeepsHeader | app/routes/data_analytics/data_analytics.py:315-325 | With the correction, the table after a run starts with the headers the run used. |
| AnalyticsJob.RerunFixedIsIdempotent | app/routes/data_analytics/data_analytics.py:303-312 | With the correction, a re-run is a no-op even when the first run started from an empty table. |
| Coerce.AnalyticsToInt | app/routes/data_analytics/data_analytics.py:28-39 | None gives the default, and a number is itself. A bool is 1 or 0, as `int(True)` is 1. Text is read by `int(float(s.strip()))`, and blank or unreadable text gives the default. |
| Coerce.BlankIsUnreadable | app/routes/data_analytics/data_analytics.py:34-36 | Blank text never reads as a number, so the blank test is only a shortcut. |
| Coerce.ContainerIsUnreadable | app/routes/data_analytics/data_analytics.py:34-39 | `str()` of a list or dict never reads as a number, so containers give the default. |
| Coerce.AnalyticsToIntOfText | app/routes/data_analytics/data_analytics.py:34-37 | The decimal text of any integer reads back as that integer. |
| Coerce.JobToInt | app/routes/data_analytics/data_analytics.py:357-363 | The job's inner `to_int` gives the default for None and also for bools: it reads `str(True)` as text, which is unreadable. |
| Coerce.JobToIntAgrees | app/routes/data_analytics/data_analytics.py:357-363 | Apart from bools, the job's `to_int` and `_to_int` compute the same value for every input. |
| Coerce.EnsureInt | app/google_sheets/sheets_service.py:29-40 | Blank text, and text that is "none" in any case, give the default. |
| Coerce.EnsureIntAgrees | app/google_sheets/sheets_service.py:29-40 | `_ensure_int` and the analytics `_to_int` agree on every input: the "none" test only catches text that is unreadable anyway. |
| Coerce.PyInt | app/routes/projects/projects.py:29 | `int(v)`: a number is itself, text goes through Python's integer-literal reading, and None, lists and dicts raise. |
| Coerce.PyIntOfText | app/routes/projects/projects.py:29 | `int(str(n)) == int(n) == n` for every integer n. |
| Coerce.ProjectsToInt | app/routes/projects/projects.py:27-31 | `int(value)` where it succeeds, and the default where it raises. |
| Coerce.ProjectsToIntAgrees | app/routes/projects/projects.py:27-31 | On whole-number text the projects page's `_to_int` and the analytics `_to_int` give the same value. |
| Coerce.SafeParseJson | app/routes/data_analytics/data_analytics.py:287-301 | A falsy input gives the default, and an already decoded truthy list or dict is returned unchanged. Blank or malformed text gives the default. |
| Coerce.SafeParseJsonOfEncoded | app/routes/data_analytics/data_analytics.py:287-296 | Whatever `json.dumps` wrote, `_safe_parse_json` reads back unchanged. |
| Coerce.SafeJsonList | app/routes/projects/projects.py:11-25 | The result only ever holds dicts. A missing, blank or malformed cell gives []. Text holding a scalar also gives [], and text holding a dict gives that dict alone. |
| Coerce.OnlyDicts | app/routes/projects/projects.py:20-22 | The list never grows, and it keeps exactly its dict elements. |
| Coerce.OnlyDictsInOrder | app/routes/projects/projects.py:20-22 | The result is the list filtered to its dict elements, so their order is kept and nothing else is added. |
| Coerce.SafeJsonListOfEncoded | app/routes/projects/projects.py:15-22 | A list written by `json.dumps` reads back as its dict elements. |
| Coerce.SafeJsonListOfDict | app/routes/projects/projects.py:18-19 | A dict written by `json.dumps` reads back as a one-element list. |
| ProjectItems.FindRow | app/routes/take_item/take_item.py:102-104 | The first data row whose stripped `project_number` equals the requested number; none iff no row has it. |
| ProjectItems.FindFrom | app/routes/take_item/take_item.py:102-104 | The first index at or after k holding the number; none iff there is none. |
| ProjectItems.Names | app/routes/take_item/take_item.py:44 | The worker names list has one entry per worker, in order, read by the page's name reader; it fails iff some worker's name cannot be read. |
| ProjectItems.NamedIff | app/routes/take_item/take_item.py:44-45 | The user is in the names list iff some worker's read name equals the user. |
| ProjectItems.Records | app/routes/take_item/take_item.py:59-60 | One catalog record per catalog row, zipped with the catalog headers. |
| ProjectItems.Match | app/routes/take_item/take_item.py:65 | The FIRST catalog record whose `article_number` equals the item's `item_id`; none iff no record matches. |
| ProjectItems.Enrich | app/routes/take_item/take_item.py:63-75 | Enrichment succeeds iff every project item is a dict. It then gives one eight-field record per item, in order, each built from the item and its first catalog match. |
| ProjectItems.Enriched | app/routes/return_item/return_item.py:75-84 | Every enriched record is a dict of the eight listed fields. |
| ProjectItems.UnmatchedDefaults | app/routes/return_item/return_item.py:79-83 | An item with no catalog match gets "-" for location, unit, type and available, and an empty image URL. |
| ProjectItems.ListPlan | app/routes/take_item/take_item.py:25-52 | Listing proceeds only for a dict body with a text project number, a projects table with data, the first row with that number, readable worker names that include the user, and items that decode. Every refusal is a non-200 response. |
| ProjectItems.ListItems | app/routes/take_item/take_item.py:22-79 | A 200 answer lists exactly the enriched project items against a catalog that has data; every refusal of the plan is the answer. |
| ProjectItems.ListAuthorization | app/routes/return_item/return_item.py:53-55 | For a found project with readable workers, the answer is 403 iff the user is not among the worker names. |
| ProjectItems.ItemsRefusal | app/routes/take_item/take_item.py:44-46 | A listing is refused with 403 exactly when the plan refuses it with 403. |
| ProjectItems.PlannedNotRefused | app/routes/take_item/take_item.py:48-77 | A planned listing ends in 200 or 500, never 403 or 404. |
| ProjectItems.NoWorkersNoListing | app/routes/take_item/take_item.py:44-46 | A project with an empty workers list is never listed to anyone. |
| ProjectItems.NewEntries | app/routes/take_item/take_item.py:110-117 | One new ledger entry per dict item, in order; the first entry whose quantity `int()` rejects is the error. |
| ProjectItems.ReturnEntryShape | app/routes/return_item/return_item.py:130-135 | A returned entry records the scanned article number as `item_id`, the product name, `int(quantity)` and the lower-cased return type. |
| ProjectItems.Appended | app/routes/take_item/take_item.py:106-117 | No new entries leave the stored list as it was. New entries are added at the end of a stored list. A stored value that is not a list cannot be appended to. |
| ProjectItems.Target | app/routes/take_item/take_item.py:94-104 | A missing user or project number, or items that are not a list, give 400 "Missing required fields or invalid data". A number with no row gives 404 "Project not found". Success names the first matching row, after the membership check for returns. |
| ProjectItems.AppendFor | app/routes/return_item/return_item.py:100-148 | A refusal changes nothing in the table. A found project ends in 200 or in the 500 an uncaught exception gives. |
| ProjectItems.Member | app/routes/return_item/return_item.py:111-118 | The take page makes no membership check, and a failed check never answers 200. |
| ProjectItems.InsertTaken | app/routes/take_item/take_item.py:86-127 | Every answer other than 200 leaves the projects table unchanged. |
| ProjectItems.InsertReturned | app/routes/return_item/return_item.py:92-148 | Every answer other than 200 leaves the projects table unchanged. |
| ProjectItems.AppendWrites | app/routes/take_item/take_item.py:119-125 | A successful append rewrites only the found row, and only its ledger column. It pads the row to reach that column. The column then decodes to the stored list followed by the new entries. |
| ProjectItems.AppendedCell | app/routes/return_item/return_item.py:137-144 | The written cell is `json.dumps` of the appended list: ASCII-escaped for takes, UTF-8 kept for returns (`ensure_ascii=False`). |
| ProjectItems.TakeNeedsNoMembership | app/routes/take_item/take_item.py:102-125 | A take into an existing project with a readable ledger list succeeds for any signed-in user, member or not. |
| ProjectItems.MemberRefusal | app/routes/return_item/return_item.py:112-118 | The return check refuses with 403 iff no worker dict names the user, stripped and lower-cased. The workers are read as [] when the cell is not JSON or does not decode to a list, so such a cell also refuses. The check can otherwise only crash. |
| ProjectItems.ReturnNeedsMembership | app/routes/return_item/return_item.py:108-118 | A return into a found project answers 403 iff the user is not a listed worker, and then writes nothing. |
| ProjectItems.UnreadableWorkersRefuse | app/routes/return_item/return_item.py:112-118 | A workers cell that is not JSON counts as no workers, so every return is refused with 403. |
| Projects.MeIds | app/routes/projects/projects.py:63-64 | The user's identifiers are the non-empty normalised username, email and name from the session, and never the empty string. |
| Projects.Norm | app/routes/projects/projects.py:59-60 | `(x or "").strip().lower()` fails exactly on a truthy value that is not text, and otherwise strips and lower-cases text. |
| Projects.WorkerIds | app/routes/projects/projects.py:73-77 | A worker's identifiers never include the empty string. Reading them fails iff one of its username, email or name cannot be normalised. |
| Projects.Hit | app/routes/projects/projects.py:69-72 | Testing one worker fails exactly when its identifiers cannot be read. |
| Projects.Assigned | app/routes/projects/projects.py:67-79 | If the `any(...)` raises, some worker's identifiers could not be read. |
| Projects.AssignedIff | app/routes/projects/projects.py:67-79 | With readable workers, the user is assigned iff some worker shares a non-empty identifier with the user. |
| Projects.Visible | app/routes/projects/projects.py:82-85 | The visibility test raises exactly when the assigned test raises. |
| Projects.VisibleIff | app/routes/projects/projects.py:58-86 | With readable workers, a project is visible iff its non-empty normalised creator is one of the user's identifiers, or some worker shares a non-empty identifier with the user. |
| Projects.NoIdentitySeesNothing | app/routes/projects/projects.py:63-64 | A session with no username, email or name sees no project: empty identifiers never match. |
| Projects.AssignedNeedsShare | app/routes/projects/projects.py:67-79 | "Assigned" is only ever true because of a real shared identifier. |
| Projects.DerivedStatus | app/routes/projects/projects.py:91-107 | The shown status differs from the stored one only when a stored "active" shows as "upcoming". Unreadable dates keep the stored status, and a stored status other than "active" is shown unchanged. |
| Projects.ActiveStaysActive | app/routes/projects/projects.py:96-102 | A stored "active" on or after its start day shows "active", even past its end day. |
| Projects.UpcomingIff | app/routes/projects/projects.py:96-98 | A project shows "upcoming" iff it is stored "active", both dates parse, and today is before the start. |
| Projects.EntryQty | app/routes/projects/projects.py:119 | An entry's quantity falls back to 1 where `int()` rejects it. |
| Projects.Total | app/routes/projects/projects.py:114-120 | A falsy id has no total. |
| Projects.SumsAreTotals | app/routes/projects/projects.py:114-129 | The dict built by the loop gives every id the sum of the quantities of the entries with that id. |
| Projects.SumsFailIff | app/routes/projects/projects.py:114-129 | The loop raises iff some entry has a truthy id that cannot be a dict key (a list or dict). |
| Projects.Sums | app/routes/projects/projects.py:114-120 | Every key of the built dict is a truthy, hashable id. |
| Projects.CardLine | app/routes/projects/projects.py:133-145 | One card line is built iff the item's `item_id` can be a dict key. |
| Projects.CardLines | app/routes/projects/projects.py:132-145 | The card lists one line per project item, in order; it fails iff some item's line fails. |
| Projects.BuildCard | app/routes/projects/projects.py:147-157 | A built card carries the derived status and `items_count == len(items_list)`, which is also its number of lines. |
| Projects.CardTotals | app/routes/projects/projects.py:133-145 | Each card line shows the item's id, the taken and returned totals for that id, `is_taken` iff the taken total is positive, and `_to_int(quantity, 0)` as the projected figure. |
| Projects.Gate | app/routes/projects/projects.py:85-111 | A row contributes a card iff it is visible, passes the page's status filter and its card builds. The row is dropped with an error exactly when visibility raises, or when building the card of a visible, kept row raises. |
| Projects.ActiveEntrySpec | app/routes/projects/projects.py:47-161 | On the active page a row gives a card iff the project is visible, its derived status is not "finished", and its card builds; the card is the one built with the derived status. |
| Projects.FinishedEntrySpec | app/routes/projects/projects.py:256-350 | On the finished page a row gives a card iff the project is visible and its stored status, stripped and lower-cased, is "finished"; the card's status is "finished". |
| Projects.Shown | app/routes/projects/projects.py:159-161 | Rows that raise or are filtered out are skipped, so there are never more cards than rows. |
| Projects.ShownIff | app/routes/projects/projects.py:159-161 | A card is shown iff some row produced it. |
| Projects.ShownInOrder | app/routes/projects/projects.py:159-161 | Wrapped back as entries, the cards are exactly the rows that produced one, in row order. |
| Projects.Entries | app/routes/projects/projects.py:47-48 | Each data row is read on its own, in order. |
| Projects.ProjectsView | app/routes/projects/projects.py:39-41 | A projects table without data rows lists nothing. |
| Projects.FinishedView | app/routes/projects/projects.py:248-250 | A projects table without data rows lists nothing on the finished page. |
| Projects.ListingSpec | app/routes/projects/projects.py:163-169 | A sorted listing is a permutation of the cards the rows produced (the same cards, each as often), so a card is listed iff some row produced it. It is ordered by the key. |
| Projects.ProjectsViewSpec | app/routes/projects/projects.py:34-170 | The active page is a permutation of the cards its rows produce, so it lists exactly those cards. They are in ascending start-date order, and unreadable dates sort last. |
| Projects.FinishedViewSpec | app/routes/projects/projects.py:243-362 | The finished page is a permutation of the cards its rows produce, so it lists exactly those cards, and the latest end date comes first. |
| Projects.UnreadableEndIsMinimum | app/routes/projects/projects.py:353-360 | An unreadable end date reads as `datetime.min`. It ties with a parsed 0001-01-01 and comes after every later date. |
| Projects.FinishedTiesKeepRowOrder | app/routes/projects/projects.py:360 | Cards with equal end keys keep their row order, as Python's sort is stable even with `reverse=True`. This includes the unreadable dates and 0001-01-01. |
| Projects.FindProject | app/routes/projects/projects.py:196-198 | The first row at or after k whose `project_number` equals the request's; none iff there is none. |
| Projects.OnlyDictsOfDicts | app/routes/projects/projects.py:201 | Filtering a list of dicts for dicts keeps it unchanged. |
| Projects.ItemsOf | app/routes/projects/projects.py:200-201 | The items read from a project are all dicts. |
| Projects.NewLine | app/routes/projects/projects.py:214-218 | The added line is a dict carrying the requested id and the `int()` quantity. |
| Projects.EditLines | app/routes/projects/projects.py:204-219 | The edited list holds only dicts. Without the add flag, a list with no match is returned unchanged and not marked updated. |
| Projects.Ids | app/routes/projects/projects.py:205 | The `item_id` of each line, in order. |
| Projects.PointEdit | app/routes/projects/projects.py:204-211 | The intended point edit keeps only dicts and never grows the list. |
| Projects.EditWithoutAdd | app/routes/projects/projects.py:204-211 | Without the add flag, the loop is the point edit. When it reports an update, the FIRST line with the id was deleted, or had its quantity set to `int(quantity)`, and nothing else changed. It reports no change iff no line has the id. |
| Projects.EmptyListNeverUpdated | app/routes/projects/projects.py:204-222 | An empty items list is never updated, even with the add flag. |
| Projects.AddWhenAbsent | app/routes/projects/projects.py:213-219 | With the add flag and no line with the id, exactly one new line is appended, and it is marked updated. |
| Projects.AddDuplicatesLine | app/routes/projects/projects.py:213-219 | As written: with items [a, b], a request for b with the add flag appends a new b while visiting a, so the list ends with two b lines. |
| Projects.FixedEdit | app/routes/projects/projects.py:204-219 | The corrected edit keeps only dicts. |
| Projects.FixedEditSpec | app/routes/projects/projects.py:204-219 | The corrected edit never grows a list that already holds the id. When the id is absent, or the add flag is off, it is the code as written. |
| Projects.ItemPlan | app/routes/projects/projects.py:190-229 | A planned edit names the first matching row and the `items` column, and records an edit that reported an update. A row with no match gives 404 "Project not found", and every other failure is 404 or 500. |
| Projects.UpdateProjectItemWith | app/routes/projects/projects.py:176-234 | Only a manager gets past 403. A dict body without a truthy project number or item id gives 400 "Missing data". Every answer other than 200 leaves the table unchanged. |
| Projects.ItemEditWrites | app/routes/projects/projects.py:224-229 | A 200 rewrites only the project's `items` cell, and the cell decodes to the edited list. |
| Projects.ItemsOfDicts | app/routes/projects/projects.py:201 | The planned list holds only dicts. |
| Projects.ItemEditIsPointEdit | app/routes/projects/projects.py:204-211 | Without the add flag, the written list is the point edit of the stored one. |
| Projects.EmptyItemsNotFound | app/routes/projects/projects.py:221-222 | A project with no item lines answers 404 "Item not found in project" and writes nothing. |
| Projects.MissingItemNotFound | app/routes/projects/projects.py:196-222 | Without the add flag, a found project none of whose lines has the item id answers 404 "Item not found in project" and writes nothing, as written and corrected. |
| Projects.FindNumbered | app/routes/projects/projects.py:394-395 | The first row whose project-number cell exists and equals the requested number. |
| Projects.StatusRow | app/routes/projects/projects.py:396-399 | The rewritten row is padded to the header width, holds the new status in the status column, and keeps every other cell. |
| Projects.StatusPlan | app/routes/projects/projects.py:370-407 | Only a manager passes 403. A requested status other than "finished" or "active" gives 400. With both columns present, a number no data row holds gives 404 "Project not found". A plan names the first matching row, the status column and the requested status. |
| Projects.UpdateStatus | app/routes/projects/projects.py:365-407 | Every answer other than 200 leaves the table unchanged, and only a non-manager gets 403. |
| Projects.UnknownProjectNotFound | app/routes/projects/projects.py:376-407 | A manager's "finished" or "active" for a number no data row holds, with both columns present, answers 404 "Project not found" and writes nothing. |
| Projects.StatusWrites | app/routes/projects/projects.py:394-405 | A 200 rewrites only the matched row, with its status cell set to the requested status. |
| Projects.PlanOnWritten | app/routes/projects/projects.py:394-399 | Writing the status does not move the matched row or the columns, so the same request plans the same write again. |
| Projects.UpdateStatusApplies | app/routes/projects/projects.py:394-405 | The planned write is the whole effect of the request. |
| Projects.StatusIdempotent | app/routes/projects/projects.py:365-407 | Setting the same status twice is the same as setting it once. |
| Projects.RowReadsStatus | app/routes/projects/projects.py:298-299 | The rewritten row reads as finished on the finished page iff the new status is "finished". |
| Projects.StatusWord | app/routes/projects/projects.py:376 | The two accepted statuses survive strip and lower unchanged. |
| Projects.StatusReadsBack | app/routes/projects/projects.py:298-299 | After a 200, the finished page sees the project as finished iff "finished" was requested. |
| Carts.ParseText | app/routes/take_item/take_item.js:218 | `parseInt(text)` is NaN exactly when the text has no leading decimal integer. |
| Carts.ParseTextOfInt | app/routes/take_item/take_item.js:218 | `parseInt` reads the decimal text of any integer back as that integer. |
| Carts.Max1 | app/routes/take_item/take_item.js:219 | `Math.max(1, q)` keeps NaN as NaN, and otherwise gives at least 1 and at least q; it is q itself when q is 1 or more. |
| Carts.OrOne | app/routes/take_item/take_item.js:256 | `parseInt(q)`, with NaN and 0 replaced by 1: NaN and 0 become 1, and any other whole number is kept, so a quantity a cart can hold is sent as 1 or more. |
| Carts.AddQty | app/routes/take_item/take_item.js:317 | The amount added, `Math.max(1, parseInt(qty or 1, 10))` (JavaScript's or), is NaN or at least 1. A qty that is falsy in JavaScript adds 1, and a number of 1 or more adds itself. Text adds NaN iff `parseInt` finds no digits. An object, `true` and `[]` add NaN, and `[n]` adds n for n of 1 or more. Here `parseInt` reads `String(qty)`. |
| Carts.StringReads | app/routes/take_item/take_item.js:317 | `parseInt(String(v))` reads a number and a one-number array as that number. It reads an object, a boolean and `[]` as NaN. |
| Carts.Plus | app/routes/add_stock/add_stock.js:185 | JavaScript addition of cart quantities is NaN iff either side is, and otherwise the sum. |
| Carts.Merged | app/routes/take_item/take_item.js:320 | Merging adds the amount to the stored quantity: an unreadable stored quantity counts as 0. The result is NaN iff the added amount is NaN, and stays a quantity the cart can hold. |
| Carts.AsJson | app/routes/add_stock/add_stock.js:240 | `JSON.stringify` writes a NaN quantity as null and a whole number as itself. |
| Carts.Find | app/routes/take_item/take_item.js:318 | `Array.find`: the first line that holds the item under the page's comparison, and none iff no line does. |
| Carts.AddNew | app/routes/take_item/take_item.js:99-103 | Pushing a line only when none matches: the cart is kept as a prefix and grows by one iff no line held the item. The item is held afterwards. |
| Carts.AddNewKeepsDistinct | app/routes/take_item/take_item.js:99-103 | Adding through a "push only when absent" step keeps a cart free of duplicate lines. |
| Carts.RemoveAt | app/routes/take_item/take_item.js:227-231 | `splice(idx, 1)` removes exactly the line at idx, keeping the others in order; an index past the end changes nothing. |
| Carts.UpdateQty | app/routes/take_item/take_item.js:216-219 | Editing a quantity changes only that line's quantity: to `max(1, parseInt(value))`, or NaN for unreadable text. |
| Carts.MergeAdd | app/routes/take_item/take_item.js:316-323 | Adding an item already in the cart merges the added amount into its line and changes nothing else; otherwise a new line is pushed. |
| Carts.Copied | app/routes/take_item/take_item.js:253-255 | A summary field copies the item's field, and `JSON.stringify` drops a field the item lacks. |
| Carts.ProjectNumber | app/routes/take_item/take_item.js:251 | A page with no project input sends an empty project number. |
| Carts.ProjectInsert | app/routes/take_item/take_item.js:270-285 | The project insert is sent, once, iff the confirm succeeded and a project number was entered, and it carries the same summary. |
| TakeCart.SelectItem | app/routes/take_item/take_item.js:171-176 | Selecting an item adds it with quantity 1 iff no line has its article number, and otherwise changes nothing. The cart keeps one line per article number. |
| TakeCart.Scan | app/routes/take_item/take_item.js:90-103 | A scan that finds no product name is refused; otherwise it acts as selecting the item. |
| TakeCart.AddItemForTake | app/routes/take_item/take_item.js:316-323 | A line with the same id gets the added amount; otherwise the item is pushed with it. |
| TakeCart.EntryReads | app/routes/take_item/take_item.js:253-258 | Each summary entry carries the line's article number and product name, action "take", and the quantity read by `parseInt(q)` with 1 for NaN or 0, which is at least 1. |
| TakeCart.Summary | app/routes/take_item/take_item.js:253-258 | One summary entry per cart line, in order. |
| TakeCart.Submit | app/routes/take_item/take_item.js:239-285 | An empty cart sends nothing. Otherwise the confirm is sent with the summary and project number. The project insert follows iff the confirm succeeded and a project number was entered. |
| TakeCart.EntriesMoveStock | app/routes/take_item/take_item.js:253-258 | Every take entry moves stock when confirmed, with a numeric quantity that is at least 1. |
| TakeCart.EntriesRecorded | app/routes/take_item/take_item.js:277-280 | The project ledger records each take entry as its article number, product name and quantity. |
| ReturnCart.Typed | app/routes/return_item/return_item.js:177 | The spread item with `return_type` set keeps the item's id, article number and product name. |
| ReturnCart.Restored | app/routes/return_item/return_item.js:22 | A restored line whose return type is falsy in JavaScript gets "returned". A line with a truthy type keeps it as it was, and `[]` and `{}` count as truthy. |
| ReturnCart.Restore | app/routes/return_item/return_item.js:17-22 | One line per saved line, in order, and every restored line has a return type that is truthy in JavaScript. |
| ReturnCart.SavedQty | app/routes/return_item/return_item.js:20 | A saved quantity is read by `parseInt` on its `String()`. A number comes back as the number it was, text as `parseInt` reads it, and a null (a NaN saved by `JSON.stringify`) comes back as NaN. |
| ReturnCart.Scan | app/routes/return_item/return_item.js:95-103 | A scan is refused iff the product was not found or a line already has its id or its article number. Otherwise the item is pushed with quantity 1 and type "returned", keeping lines distinct. |
| ReturnCart.SelectItem | app/routes/return_item/return_item.js:174-180 | Selecting adds the item with quantity 1 and type "returned" iff no line has its article number. |
| ReturnCart.UpdateReturnType | app/routes/return_item/return_item.js:317-320 | Only the chosen line's type changes, to the choice or "returned" for an empty choice. |
| ReturnCart.AddItemForReturn | app/routes/return_item/return_item.js:427-434 | The line with the same truthy id, or the same article number, gets the added amount; otherwise the item is pushed as "returned". |
| ReturnCart.ReturnType | app/routes/return_item/return_item.js:361 | A type that is falsy in JavaScript summarises as "returned", and a non-empty text type as itself lower-cased. It fails iff the type is truthy in JavaScript but not text, `[]` and `{}` included, since `toLowerCase` then throws. |
| ReturnCart.Entry | app/routes/return_item/return_item.js:360-370 | Building an entry fails exactly when its return type cannot be lower-cased, which ReturnType states in JavaScript's truthiness. |
| ReturnCart.EntryReads | app/routes/return_item/return_item.js:360-370 | Each entry carries the article number, product name, `parseInt(q)` with 1 for NaN or 0, action "return" and the type. Its `apply_to_stock` is true iff the type is "returned". |
| ReturnCart.Summary | app/routes/return_item/return_item.js:360-370 | The summary is built iff every line's type can be lower-cased in JavaScript, one entry per line in order. A `[]` or `{}` type is truthy and so fails the summary. |
| ReturnCart.TextTypesSummarise | app/routes/return_item/return_item.js:360-370 | A cart built by the page's own operations always summarises. |
| ReturnCart.Submit | app/routes/return_item/return_item.js:344-397 | An empty cart sends nothing. Otherwise the confirm is sent with the summary. The project insert follows iff the confirm succeeded and a project number was entered. |
| ReturnCart.EntryMovesIff | app/routes/return_item/return_item.js:366-368 | Confirming an entry moves stock iff its type is "returned". |
| ReturnCart.EntriesRecorded | app/routes/return_item/return_item.js:389-392 | The project ledger records each return entry as its article number, product name, quantity and lower-cased type. |
| AddStockCart.Scan | app/routes/add_stock/add_stock.js:95-101 | A scan is refused iff the product was not found or a line already has its id; otherwise the item is pushed with quantity 1. |
| AddStockCart.SelectItem | app/routes/add_stock/add_stock.js:169-175 | Selecting adds the item with quantity 1 iff no line has its article number. |
| AddStockCart.AddItem | app/routes/add_stock/add_stock.js:290-297 | The line with the same id gets the added amount merged in; otherwise the item is pushed with it. |
| AddStockCart.Total | app/routes/add_stock/add_stock.js:182-185 | The displayed total is NaN iff some line's quantity is. |
| AddStockCart.TotalSplit | app/routes/add_stock/add_stock.js:182-185 | The total of two carts joined is the sum of their totals. |
| AddStockCart.TotalAfterRemove | app/routes/add_stock/add_stock.js:213-217 | Removing a line lowers the total by that line's quantity. |
| AddStockCart.TotalAfterScan | app/routes/add_stock/add_stock.js:95-101 | An accepted scan raises the total by one. |
| AddStockCart.TotalAfterReplace | app/routes/add_stock/add_stock.js:208-211 | Replacing a line's quantity changes the total by the difference. |
| AddStockCart.TotalAfterAdd | app/routes/add_stock/add_stock.js:290-297 | Adding an item raises the total by the added amount. |
| AddStockCart.TotalAfterMerge | app/routes/add_stock/add_stock.js:294 | Merging an amount into one line raises the total by that amount. |
| AddStockCart.EntryReads | app/routes/add_stock/add_stock.js:237-243 | As written: each summary entry carries the article number, the raw quantity and action "return", and no `return_type` or `apply_to_stock`. |
| AddStockCart.FixedEntryReads | app/routes/add_stock/add_stock.js:237-243 | The corrected entry is the same and also carries `apply_to_stock: true`. |
| AddStockCart.Summary | app/routes/add_stock/add_stock.js:237-243 | One summary entry per line, in order. |
| AddStockCart.FixedSummary | app/routes/add_stock/add_stock.js:237-243 | The corrected summary has one corrected entry per line, in order. |
| AddStockCart.Submit | app/routes/add_stock/add_stock.js:224-243 | An empty cart sends nothing; otherwise exactly one confirm with the summary. |
| AddStockCart.EntryOnlyLogs | app/routes/add_stock/add_stock.js:237-243 | As written: every add-stock entry that the confirm accepts is only logged, and the stock of every product is left unchanged. |
| AddStockCart.NaNLineRefused | app/routes/add_stock/add_stock.js:240 | A line whose quantity became NaN is sent as null, and the confirm refuses it with 400 "Missing quantity". |
| AddStockCart.FixedEntryMovesStock | app/routes/add_stock/add_stock.js:237-243 | With the correction, every add-stock entry moves stock when confirmed. |
| ProjectForm.IndexOf | app/routes/create_project/create_project.js:138 | `findIndex` by username: the first selected worker with that username, and none iff no selected worker has it. |
| ProjectForm.Toggle | app/routes/create_project/create_project.js:133-153 | Clicking an unselected worker appends it. Clicking a selected one removes exactly that entry. No username is listed twice afterwards, the clicked worker's selection flips, and every other worker's selection is unchanged. |
| ProjectForm.ToggleTwice | app/routes/create_project/create_project.js:133-153 | Clicking a worker twice restores the selection: exactly for an unselected worker, and up to order for a selected one. |
| ProjectForm.RemoveSelected | app/routes/create_project/create_project.js:179-180 | Removing by username keeps exactly the other workers, in order, and leaves the username unselected. |
| ProjectForm.RemoveIsToggleOff | app/routes/create_project/create_project.js:179-180 | In a selection without repeats, the badge's remove button does what clicking the selected worker does. |
| ProjectForm.Hit | app/routes/create_project/create_project.js:109-110 | A missing field never matches. A text field matches iff it is non-empty and, lower-cased, contains the search term. The test fails iff the field is truthy in JavaScript but not text, `[]` and `{}` included. |
| ProjectForm.FilterWorkers | app/routes/create_project/create_project.js:106-113 | The filter succeeds iff every worker can be tested. It then keeps exactly the workers whose name or username contains the lower-cased term. |
| ProjectForm.FilterWorkersInOrder | app/routes/create_project/create_project.js:106-113 | When the filter succeeds, its result is the workers filtered by that test, in list order. |
| ProjectForm.ServedWorkerFilters | app/routes/create_project/create_project.js:106-113 | Every worker the server lists can be filtered, and an empty term keeps exactly those with a non-empty name or username. |
| ProjectForm.NameIs | app/routes/create_project/create_project.js:245-247 | A catalog item matches iff its product name is non-empty text and equals the input ignoring case. The test fails iff the name is truthy in JavaScript but not text, `[]` and `{}` included. |
| ProjectForm.CatalogFind | app/routes/create_project/create_project.js:245-247 | The FIRST catalog item whose name matches, none iff no item matches. An error arises only when some item's name is truthy in JavaScript and not text. |
| ProjectForm.ItemIndex | app/routes/create_project/create_project.js:255 | The line with the item's article number, and none iff no line has it. |
| ProjectForm.Bump | app/routes/create_project/create_project.js:254-264 | Adding an item raises the total unit count by one. A new line is pushed iff the item had none; otherwise that line's quantity grows. Ids stay unique and quantities positive. |
| ProjectForm.AddSelectedItem | app/routes/create_project/create_project.js:238-264 | A blank input gives "Please select an item first", and an unknown name gives "Item not found in catalog". Otherwise the first item with that name is added once. |
| ProjectForm.UpdateItemQuantity | app/routes/create_project/create_project.js:306-312 | A quantity edit changes only that line. A positive number is taken, and anything else leaves the list unchanged. |
| ProjectForm.SubmitProject | app/routes/create_project/create_project.js:330-351 | A project is sent iff it has a trimmed project number, at least one worker, both dates and at least one item. The first missing one names the error. |
| ProjectForm.SubmittedIsCreated | app/routes/create_project/create_project.js:353-360 | Every project the form sends is created by the server in one new row, whose workers cell decodes to the selected workers. |
| ProjectForm.BodyReads | app/routes/create_project/create_project.js:330-337 | The body carries the trimmed project number and the selected workers. |
| CreateProject.FullRecords | app/routes/create_project/create_project.py:40-41 | A record is produced iff some row at least as wide as the header row zips with the headers to it. |
| CreateProject.FullRecordsInOrder | app/routes/create_project/create_project.py:40-41 | The records are the full-width rows, filtered in row order, each zipped with the headers. |
| CreateProject.Matching | app/routes/create_project/create_project.py:43-47 | The search keeps exactly the projects whose lower-cased project number contains it. |
| CreateProject.MatchingInOrder | app/routes/create_project/create_project.py:43-47 | The search result is the project list filtered by that test, in its order. |
| CreateProject.GetProjects | app/routes/create_project/create_project.py:31-54 | The list holds exactly the full-width rows, filtered by the lower-cased search when one is given. |
| CreateProject.NewRow | app/routes/create_project/create_project.py:75-86 | The project row has ten cells. |
| CreateProject.Creator | app/routes/create_project/create_project.py:68 | The creator is the session's username, or "unknown@user.no" when it is missing or empty. |
| CreateProject.CreateProjectApi | app/routes/create_project/create_project.py:56-103 | A project is created (200) iff the body is a dict with a truthy `project_number`; every other answer writes nothing. |
| CreateProject.CreatedRow | app/routes/create_project/create_project.py:73-86 | Creation appends exactly one ten-cell row after the others. In order, the cells are: the new id; the project number as a non-empty cell; the start and end dates; the creator; the creation time; "active"; the workers; the items; the customer name. Text is stored as is, null as an empty cell, and any other value as its JSON text. The workers and items cells decode back to what was sent. |
| CreateProject.Workers | app/routes/create_project/create_project.py:116-120 | The workers list holds exactly the users whose role is "worker", as username (email) and name. |
| CreateProject.WorkersInOrder | app/routes/create_project/create_project.py:116-120 | The workers list is the users filtered to role "worker", in row order, each turned into its username and name. |
| CreateProject.GetWorkers | app/routes/create_project/create_project.py:109-111 | An empty users table lists no workers. |
| CreateProject.GetWorkersIff | app/routes/create_project/create_project.py:105-122 | A worker is listed iff some full-width user row with role "worker" produces it. |
| Catalog.SearchFields | app/routes/catalog/catalog.py:40-47 | The free-text query looks in exactly five fields of an item. |
| Catalog.Filtered | app/routes/catalog/catalog.py:40-54 | An item is kept iff it is in the table and matches. It matches when the query occurs in one of its five fields (or is empty) and each non-empty exact filter equals the item's value. |
| Catalog.FilteredInOrder | app/routes/catalog/catalog.py:40-54 | The listing is the catalogue filtered by that test, in catalogue order. |
| Catalog.NoFilterKeepsAll | app/routes/catalog/catalog.py:48-54 | With no query and no filters every item is kept, in order. |
| Catalog.TotalPages | app/routes/catalog/catalog.py:56-57 | There is at least one page, the pages hold all matching items at 24 per page, and no page past the last is counted. |
| Catalog.PageOf | app/routes/catalog/catalog.py:58-59 | A page never holds more than 24 items. |
| Catalog.PageCovers | app/routes/catalog/catalog.py:58-59 | Item i of the list appears on page i/24+1, at position i mod 24. |
| Catalog.PageZeroEmpty | app/routes/catalog/catalog.py:58-59 | Page 0 is empty (its slice starts past its own end). |
| Catalog.PageIsSlice | app/routes/catalog/catalog.py:58-59 | Every entry of a page is an entry of the filtered list. |
| Catalog.OrDefault | app/routes/catalog/catalog.py:61-63 | A missing or empty label is replaced by the default; a label text is taken as it is. |
| Catalog.Labels | app/routes/catalog/catalog.py:61-63 | When no label is a non-text value, there is one label per item, each read through the default rule. |
| Catalog.UniqueLabels | app/routes/catalog/catalog.py:61-63 | The category, supplier and location lists are strictly increasing and hold exactly the labels some item has. |
| Catalog.ZeroStockCases | app/routes/catalog/catalog.py:65 | The number 0, the text "0" and a missing stock all count as out of stock. |
| Catalog.ZeroItems | app/routes/catalog/catalog.py:65 | The zero-stock list holds exactly the items that are out of stock. |
| Catalog.ArticleNumbers | app/routes/catalog/catalog.py:69 | The article numbers are read one per zero-stock item; a missing article number is the KeyError of the page. |
| Catalog.LogsFor | app/routes/catalog/catalog.py:70-78 | Only logs whose article number is one of the zero-stock articles are kept. |
| Catalog.ReadMove | app/routes/catalog/catalog.py:80-87 | A log becomes a signed move: a take adds its quantity, a return subtracts it, any other action counts nothing; an unreadable quantity is an error. |
| Catalog.ReadMoves | app/routes/catalog/catalog.py:80-87 | All logs are read into moves in order, or the first error is reported. |
| Catalog.Unreturned | app/routes/catalog/catalog.py:65-95 | With no zero-stock items nothing is unreturned. |
| Catalog.UnreturnedIff | app/routes/catalog/catalog.py:80-95 | An (article, user) pair is listed with n iff n is positive and equals that user's takes less returns of the article over the kept logs. |
| Catalog.PageNumber | app/routes/catalog/catalog.py:35 | A missing page argument means page 1; otherwise it must be a whole number. |
| Catalog.CatalogView | app/routes/catalog/catalog.py:27-112 | A rendered page holds at most 24 items, each from the table and matching the filters; at least one page is counted; the three lists are sorted without duplicates; the page shown is the one asked for. |
| Catalog.AllHits | app/routes/catalog/catalog.py:138-145 | Every product collected matches the query in its name or article number. |
| Catalog.Collect | app/routes/catalog/catalog.py:138-145 | The search loop only extends what it has collected and never goes past 20. |
| Catalog.CollectIsPrefix | app/routes/catalog/catalog.py:138-145 | The loop yields what it had followed by the remaining hits, cut at 20. |
| Catalog.SearchItem | app/routes/catalog/catalog.py:123-147 | A query shorter than two characters finds nothing; otherwise at most 20 products, each a hit. |
| Catalog.SearchIsFirstHits | app/routes/catalog/catalog.py:123-147 | The search answers exactly the first 20 hits, in table order. |
| LogsView.Descriptions | app/routes/logs/logs.py:53-57 | Each item gives its article number and product name (or "" when missing); a missing article number is an error. |
| LogsView.ProductName | app/routes/logs/logs.py:60-61 | A log's product name is the item's, or "Unknown" for an article not in the catalogue. |
| LogsView.Lines | app/routes/logs/logs.py:59-90 | Each log is kept in order with its product name and its local time, or its raw timestamp when that does not parse. |
| LogsView.ItemKept | app/routes/logs/logs.py:66-71 | A log whose article number contains the item filter is kept. |
| LogsView.ByUser | app/routes/logs/logs.py:64-65 | A line is kept iff its user name contains the lower-cased user filter. |
| LogsView.ByUserInOrder | app/routes/logs/logs.py:64-65 | The user filter's result is the lines filtered by its test, in their order. |
| LogsView.ByItem | app/routes/logs/logs.py:66-71 | A line is kept iff the item filter is empty or occurs in its article number or product name. |
| LogsView.ByItemFails | app/routes/logs/logs.py:66-71 | The item filter fails iff it is set and its test throws on some line. |
| LogsView.ByItemInOrder | app/routes/logs/logs.py:66-71 | When it does not fail, an empty item filter keeps every line. A set one gives the lines filtered by its test, in their order. |
| LogsView.ZeroItems | app/routes/logs/logs.py:95-98 | The zero-stock list holds exactly the items whose stock text is "0", "0.0" or empty. |
| LogsView.LinesFor | app/routes/logs/logs.py:102-103 | Only lines whose article is one of the zero-stock articles are kept. |
| LogsView.LogsOf | app/routes/logs/logs.py:103-106 | The ledger reads the logs of the kept lines, in order. |
| LogsView.Holdings | app/routes/logs/logs.py:114-122 | Each outstanding pair is reported once with its product name, user and quantity. |
| LogsView.Unreturned | app/routes/logs/logs.py:100-101 | With no zero-stock items nothing is unreturned. |
| LogsView.ShownSpec | app/routes/logs/logs.py:63-74 | The lines shown are sorted newest first. They are a permutation of the sheet's lines filtered by the user test and then, when set, by the item test, so a line is shown iff it comes from the sheet and both filters keep it. |
| LogsView.UnreturnedIff | app/routes/logs/logs.py:100-122 | An (article, user) pair is listed with n iff n is positive and is that user's takes less returns of the article over the lines shown. |
| LogsView.ZeroWordsDiffer | app/routes/logs/logs.py:95-98 | This page counts an empty stock text as out of stock, while the catalogue page does not. |
| UserStats.UserNames | app/routes/user_stats/user_stats.py:29-31 | A name is collected iff some non-empty data row has it as a non-empty user name. |
| UserStats.Overview | app/routes/user_stats/user_stats.py:19-36 | The overview lists the distinct user names of the log, sorted without duplicates, and nothing when the sheet has no data row. |
| UserStats.UserLogs | app/routes/user_stats/user_stats.py:51-58 | Only the user's own logs are kept, and every non-empty row of that user is kept. |
| UserStats.UserLogsInOrder | app/routes/user_stats/user_stats.py:51-58 | The user's logs are the non-empty rows whose user name is exactly the user's, filtered in row order, each zipped with the headers. |
| UserStats.Contribution | app/routes/user_stats/user_stats.py:62-63 | A log adds its whole-number quantity to the total of its own action and nothing to the other; a missing action or unreadable quantity is the page's error. |
| UserStats.LastActive | app/routes/user_stats/user_stats.py:64 | With no logs there is no last-active time; otherwise it is the newest log's timestamp cut to 16 characters with "T" replaced by a space. |
| UserStats.Articles | app/routes/user_stats/user_stats.py:66 | Only non-empty article numbers are counted. |
| UserStats.Ones | app/routes/user_stats/user_stats.py:66 | Counting articles is the ledger with one taken unit per occurrence. |
| UserStats.OnesCount | app/routes/user_stats/user_stats.py:66 | That ledger's net of an article is its number of occurrences, and it has moved iff it occurs. |
| UserStats.CountsSpec | app/routes/user_stats/user_stats.py:66 | A pair (article, n) is in the counter iff the article occurs and n is its number of occurrences. |
| UserStats.MostCommon | app/routes/user_stats/user_stats.py:67 | At most five articles are reported. |
| UserStats.MostCommonSpec | app/routes/user_stats/user_stats.py:66-67 | The top articles are sorted by count, highest first, and each is a counted article with its true count. |
| UserStats.LeftOutIsNoMoreCommon | app/routes/user_stats/user_stats.py:67 | An article left out of the top list is only left out when five others were counted at least as often. |
| UserStats.NetMove | app/routes/user_stats/user_stats.py:85-91 | A log with article and quantity becomes a move of its whole-number quantity under its action; a log lacking either is skipped. |
| UserStats.NetsAddUp | app/routes/user_stats/user_stats.py:62-63 | Where every log has an article number, the net dict adds up to the total taken less the total returned. |
| UserStats.DeltaSumIsNet | app/routes/user_stats/user_stats.py:62-63 | The signed sum of the moves is the total taken less the total returned. |
| UserStats.ProductMap | app/routes/user_stats/user_stats.py:69-70 | Each item gives its article number and product name; an item lacking either is the page's KeyError. |
| UserStats.Named | app/routes/user_stats/user_stats.py:72-79 | Each counted article is shown with its product name, or its own article number when it is not in the catalogue. |
| UserStats.Sorted | app/routes/user_stats/user_stats.py:58-60 | The user's logs are reordered newest first and nothing is added or lost. |
| UserStats.UserStatsPage | app/routes/user_stats/user_stats.py:45-47 | A log without a data row gives empty statistics. |
| UserStats.TotalWithout | app/routes/user_stats/user_stats.py:62-63 | Taking one log out: the total succeeds iff the rest's total and that log's contribution both do, and it is then their sum. |
| UserStats.TotalPermuted | app/routes/user_stats/user_stats.py:60-63 | Reordering the logs changes neither whether a total succeeds nor its value, so sorting before summing does not matter. |
| UserStats.UserStatsPageSpec | app/routes/user_stats/user_stats.py:45-64 | The page works on a permutation of the user's rows (non-empty, user name exactly theirs). A total that fails on those rows fails the page. A page that succeeds shows the sums of those rows in sheet order, and has a last-active time iff such a row exists. |
| UserStats.LastActiveIsNewest | app/routes/user_stats/user_stats.py:60-64 | The log that gives the last-active time is at least as new as every other log of the user. |
| UserStats.OnlyTheUsersLogs | app/routes/user_stats/user_stats.py:58 | Every log the page counts belongs to the user asked for. |
| UserStats.UnreturnedIff | app/routes/user_stats/user_stats.py:93-102 | An article is listed with n iff n is positive and is the user's takes less returns of it. |
| IssueLogs.Select | app/routes/issue_logs/issue_logs.py:49-56 | A report is kept iff it is a report of the sheet and passes the user filter and the article filter. The selection is the shared list filter by that test. |
| IssueLogs.SelectIsSublist | app/routes/issue_logs/issue_logs.py:49-56 | Filtering keeps the reports in sheet order. Each report that passes is kept as many times as the sheet holds it, and no other report is kept. |
| IssueLogs.Formatted | app/routes/issue_logs/issue_logs.py:58-62 | The shown time is the rendered timestamp where it parses, and the raw timestamp otherwise. |
| IssueLogs.Kept | app/routes/issue_logs/issue_logs.py:24-56 | A report is shown iff it comes from the sheet and each non-empty lower-cased filter occurs in its user name, or in its article number or product name. |
| IssueLogs.ViewIssueLogs | app/routes/issue_logs/issue_logs.py:19-64 | The page shows each kept report, in order, with its formatted time. |
| IssueLogs.ShownInOrder | app/routes/issue_logs/issue_logs.py:49-56 | The page shows reports in the order of the sheet. |
| IssueLogs.NoFilterShowsAll | app/routes/issue_logs/issue_logs.py:49-56 | Without filters every report is shown. |
| IssueLogs.SelectAll | app/routes/issue_logs/issue_logs.py:49-56 | Empty filters keep every report. |
| ProjectLogs.BucketIff | app/routes/project_logs/project_logs.py:36-54 | A project is completed iff its dates parse and its status is "completed"; upcoming iff its dates parse, it is not completed and today is before its start; active otherwise. |
| ProjectLogs.AnyIsMe | app/routes/project_logs/project_logs.py:32-34 | The viewer is found among the workers iff some worker dict has the viewer's username; a non-dict worker before a match is an error. |
| ProjectLogs.WorkerLabels | app/routes/project_logs/project_logs.py:61 | Each worker is shown by its name, or its username when the name is empty; a non-dict worker is an error. |
| ProjectLogs.LogItems | app/routes/project_logs/project_logs.py:62-66 | Each item line keeps its id, name and quantity, with "" for a missing one; a non-dict item is an error. |
| ProjectLogs.Reads | app/routes/project_logs/project_logs.py:26-27 | Every data row is read under the sheet's header, in order. |
| ProjectLogs.ProjectLogsPage | app/routes/project_logs/project_logs.py:15-17 | A sheet without a data row gives three empty lists. |
| ProjectLogs.PlaceCount | app/routes/project_logs/project_logs.py:26-74 | The three lists together hold one card per row that produced one. |
| ProjectLogs.PlaceMembers | app/routes/project_logs/project_logs.py:45-56 | A card is in a list iff some row produced it for that list. |
| ProjectLogs.PageSpec | app/routes/project_logs/project_logs.py:9-76 | A card is in a list of the page iff some data row of the sheet reads as that card in that list. |
| ProjectLogs.OnlyOwnProjects | app/routes/project_logs/project_logs.py:32-34 | A viewer who is not the master only sees projects that list them as a worker. |
| ProjectLogs.MasterSeesAll | app/routes/project_logs/project_logs.py:28-34 | The master sees every project whose workers and items cells hold lists of dicts. |
| ItemApi.ArticleKey | app/routes/shared/item_api.py:25 | An item's match key is read only from a dict item. |
| ItemApi.Hits | app/routes/shared/item_api.py:24-26 | An item is a hit iff its trimmed, lower-cased article number equals the scanned code. |
| ItemApi.MatchQr | app/routes/shared/item_api.py:24-28 | The match found is the first item whose key equals the code; no match means every item's key differs. |
| ItemApi.MatchQrFinds | app/routes/shared/item_api.py:24-28 | The first item whose key equals the code is the one found. |
| ItemApi.GetItemByQr | app/routes/shared/item_api.py:16-34 | The answer is 200, 404 or 500. A 200 returns the first item whose trimmed, lower-cased article number equals the trimmed, lower-cased code. A 404 means no item matched. |
| ItemApi.QrFinds | app/routes/shared/item_api.py:20-28 | When the first matching item has a product name, the lookup answers 200 with that item. |
| ItemApi.ArticleToId | app/routes/shared/item_api.py:48 | The article-to-id map pairs every product's article number with its id, in catalogue order; it cannot be built when an article number is a list or dict. |
| ItemApi.QtyAsInt | app/routes/shared/item_api.py:73-76 | A number quantity is compared as it is; a quantity that is neither a number nor a bool cannot be compared. |
| ItemApi.ReturnType | app/routes/shared/item_api.py:61 | A falsy return type reads as "". A text return type reads as itself, stripped and lower-cased. Reading fails iff the value is truthy but not text, since it has no `.strip()`. |
| ItemApi.ApplyToStock | app/routes/shared/item_api.py:62 | With its own flag, a line applies to stock iff the flag is truthy. Without one, it applies iff its return type is "returned" and its action is "return". |
| ItemApi.Resolve | app/routes/shared/item_api.py:50-66 | A non-dict line is a 500, a falsy article number is 400 "Missing article_number", a missing quantity is 400 "Missing quantity"; a return type that is not text or an unhashable article is a 500, and an article the catalogue does not map to a truthy product id is 400 "Unknown product <art>"; a line that resolves maps its article to a truthy product id. |
| ItemApi.LogLine | app/routes/shared/item_api.py:84 | A line is logged iff its quantity reads as a whole number. Logging appends exactly one record and leaves the products alone. The record holds the article as `str()`, the quantity as that number, the action (default "take") and the user. It stores the return type as the status iff the log sheet has a status column. |
| ItemApi.MoveLine | app/routes/shared/item_api.py:68-84 | A line that goes through has moved stock exactly as the stock update with its quantity and action says, and appended one record with the line's content. A quantity that does not read as an int is a 500. A refused stock update answers 400 with the refusal's message, any other stock error 500, and neither writes anything. |
| ItemApi.ConfirmLine | app/routes/shared/item_api.py:50-84 | A line that does not resolve ends the handler with its answer and writes nothing; a line that goes through adds exactly one log. |
| ItemApi.ConfirmLineSpec | app/routes/shared/item_api.py:50-84 | A line that goes through resolved, and the new record holds its article, quantity, action, user and return type. If the line moves stock (a take, or a return that applies to stock), the products are exactly what the stock update with its quantity and action gives. Otherwise they are unchanged and the line is a return. |
| ItemApi.TakeMovesStock | app/routes/shared/item_api.py:72-73 | A take that goes through always runs the stock update with "take" and its quantity. |
| ItemApi.InvalidActionRefused | app/routes/shared/item_api.py:72-79 | A resolved line whose action is neither "take" nor "return" answers 400 and writes nothing. |
| ItemApi.NoMoveKeepsProducts | app/routes/shared/item_api.py:72-77 | A line that goes through without moving stock is a return and leaves the products unchanged. |
| ItemApi.PlainReturnOnlyLogs | app/routes/shared/item_api.py:61-62 | A return with neither a return type nor its own flag is logged and leaves the stock as it was. |
| ItemApi.LineKeepsStockNonNegative | app/routes/shared/item_api.py:68-81 | No line can bring a product's stock below zero when none was. |
| ItemApi.ConfirmLines | app/routes/shared/item_api.py:50-86 | Lines run in order; when all go through there is one new log per line, and earlier lines' logs stay when a later line fails. |
| ItemApi.ConfirmLinesAppend | app/routes/shared/item_api.py:50-86 | Running two batches of lines is running the first and then, if it went through, the second on the tables it left, so the handler is not atomic. |
| ItemApi.ConfirmLinesSnoc | app/routes/shared/item_api.py:50-86 | When a batch ending in a line goes through, so did the batch before it. The last line appended exactly one record, with that line's content. It changed the stock exactly by its own stock update when it moves stock, and not at all otherwise. |
| ItemApi.LinesKeepStockNonNegative | app/routes/shared/item_api.py:50-86 | Confirming any lines keeps every stock non-negative when it started so. |
| ItemApi.RunSummary | app/routes/shared/item_api.py:46-90 | The handler answers 200 only with "OK", and logs written are never taken back. |
| ItemApi.Confirm | app/routes/shared/item_api.py:41-44 | A missing or empty summary answers 400 "No data provided" and writes nothing. |
| ItemApi.ConfirmOk | app/routes/shared/item_api.py:37-90 | A confirmed summary wrote one log per line and left no stock below zero. |
| SheetsService.Ids | app/google_sheets/sheets_service.py:106 | The product ids are listed one per product, in order. |
| SheetsService.FindById | app/google_sheets/sheets_service.py:106-108 | The product found is the first one with the id; none is found iff no product has it. |
| SheetsService.MoveOf | app/google_sheets/sheets_service.py:102-104 | An action moves stock as a take iff it reads "take" after strip and lower, and as a return iff it reads "return". |
| SheetsService.WriteStock | app/google_sheets/sheets_service.py:119 | Writing a stock sets it on every product with the id and changes nothing else: same products, same ids, other fields untouched. |
| SheetsService.MoveStock | app/google_sheets/sheets_service.py:100-119 | A non-positive quantity and an unknown action are refused first; an unknown id is refused iff nothing else was; a take is short iff the product's stock is below the quantity; a move that succeeds keeps the products and their ids. |
| SheetsService.UpdateItemStock | app/google_sheets/sheets_service.py:92-124 | A non-positive quantity is "Quantity must be positive.", an action that is not "take" or "return" after strip and lower is refused, and only those two actions succeed. |
| SheetsService.MoveWrites | app/google_sheets/sheets_service.py:110-119 | A successful take writes the current stock less the quantity, and a return writes it plus the quantity, on the product with the id. |
| SheetsService.ShortNamesStock | app/google_sheets/sheets_service.py:111-114 | A short take reports the product, the available stock and the requested quantity. |
| SheetsService.StockStaysNonNegative | app/google_sheets/sheets_service.py:111-117 | A move that succeeds never leaves a stock below zero when none was. |
| SheetsService.ActionWords | app/google_sheets/sheets_service.py:102-103 | "take" and "return" are the two actions. |
| SheetsService.NormalWord | app/google_sheets/sheets_service.py:102 | Trimmed lower-case text is its own normal form. |
| SheetsService.TakeThenReturn | app/google_sheets/sheets_service.py:115-117 | Taking a quantity and returning it succeeds and restores the stock; where the stock was stored as that number the products are exactly as before. |
| SheetsService.WriteTwice | app/google_sheets/sheets_service.py:119 | A second stock write overrides the first. |
| SheetsService.WriteSame | app/google_sheets/sheets_service.py:119 | Writing the stock a product already holds changes nothing. |
| SheetsService.InsertLog | app/google_sheets/sheets_service.py:129-152 | A log is written iff the quantity reads as a whole number; it holds the article as text, the quantity, action and user, and a status and project reference exactly when the log table has those columns. |
| SheetsService.CreateDeliveryRequest | app/google_sheets/sheets_service.py:226-242 | A falsy article and a missing or non-positive quantity are refused with their messages; a request is made iff the article is set and the quantity is a positive whole number, with status "on_the_way" and "" for empty comments. |
| SheetsService.ShortProducts | app/google_sheets/sheets_service.py:269-278 | No more entries than products. |
| SheetsService.BelowSafetyStock | app/google_sheets/sheets_service.py:279 | The list is a permutation of the short products, sorted by deficit descending, then by safety stock ascending. |
| SheetsService.BelowSafetyExact | app/google_sheets/sheets_service.py:269-278 | An entry is listed iff it comes from a product with positive safety stock and less stock than that, and every listed deficit is positive and is the safety stock less the stock. |
| SheetsService.BelowSafetyStable | app/google_sheets/sheets_service.py:279 | Entries with the same sort key keep their original order. |
| LowStock.FirstSet | app/routes/data_analytics/data_analytics.py:205-208 | A chain of "or" look-ups gives the first key's value that is non-empty; where none is, what the last key holds. |
| LowStock.TextField | app/routes/data_analytics/data_analytics.py:205-206 | A text field is non-empty iff one of its spellings holds a non-empty value. |
| LowStock.Products | app/routes/data_analytics/data_analytics.py:109-111 | Without a header row there are no products; otherwise one dict per data row, keyed by the header. |
| LowStock.LowStockList | app/routes/data_analytics/data_analytics.py:203-221 | No more entries than products. |
| LowStock.LowStockExact | app/routes/data_analytics/data_analytics.py:203-221 | A product is listed iff its safety stock is positive and its stock below it, and every listed deficit is positive and equals safety less stock. |
| LowStock.FirstSpellingWins | app/routes/data_analytics/data_analytics.py:207 | A product with a non-empty "stock" cell reads its stock there, whatever other spellings hold. |
| LowStock.NoSafetyNotLow | app/routes/data_analytics/data_analytics.py:208-213 | A product without any safety-stock column is never listed. |
| Users.WriteAt | app/routes/view_users/view_users.py:91-93 | Writing one cell keeps the number of rows. |
| Users.FindRow | app/routes/view_users/view_users.py:69-73 | The row found (numbered from 2) is the first whose padded id cell equals the user id; none is found iff no row has it. |
| Users.Updates | app/routes/view_users/view_users.py:80-86 | Name, e-mail and role are always written, in that order, and the PIN is written too iff it was given. |
| Users.WriteKey | app/routes/view_users/view_users.py:88-93 | Writing one key keeps the number of rows. |
| Users.WriteAll | app/routes/view_users/view_users.py:88-93 | The write loop keeps the number of rows. |
| Users.UpdateUser | app/routes/view_users/view_users.py:44-101 | Every answer other than "User information updated" leaves the table unchanged. |
| Users.WriteKeyInRow | app/routes/view_users/view_users.py:88-93 | A key's write changes the target row only. |
| Users.WriteAllInRow | app/routes/view_users/view_users.py:88-93 | The whole loop changes the target row only. |
| Users.RowAfterSpec | app/routes/view_users/view_users.py:88-93 | Each key present in the header ends up holding its value, and every other cell of the row is as it was (or "" where the row was padded). |
| Users.DistinctTail | app/routes/view_users/view_users.py:80-86 | The update keys are distinct, so a later key never overwrites an earlier key's column. |
| Users.RefusalsWriteNothing | app/routes/view_users/view_users.py:55-77 | A missing id, name, e-mail or role, an empty sheet, a header without "id" and an id no row has each answer their message and write nothing. |
| Users.EditTargetsFirstMatch | app/routes/view_users/view_users.py:65-93 | An update changes only the first row whose id matches, and changes it as the write loop says. |
| Users.UpdatedWrites | app/routes/view_users/view_users.py:55-93 | An update happens only with all four fields given and a matching row, and it is the write loop on that row. |
| Users.FirstMatch | app/routes/view_users/view_users.py:69-73 | The row found has the id and no earlier data row does. |
| Users.RowWrites | app/routes/view_users/view_users.py:79-93 | After an update the row holds the given name, e-mail and role (and PIN when given) under their headers, and nothing else in it changed. |
| Users.NoPinNoPinWrite | app/routes/view_users/view_users.py:85-86 | Without a PIN the PIN column is not written. |
| Columns.Letter | app/routes/view_users/view_users.py:40 | Each digit 0 to 25 is a capital letter. |
| Columns.Letters | app/routes/view_users/view_users.py:36-42 | The bijective base-26 numeral of n is made of capital letters and is empty only for 0. |
| Columns.ValueOfLetters | app/routes/view_users/view_users.py:36-42 | Reading the letters back gives the number, so the numeral is exact. |
| Columns.LettersInjective | app/routes/view_users/view_users.py:38-42 | Different columns never get the same letters. |
| Columns.LetterExamples | app/routes/view_users/view_users.py:37 | Index 0 is "A", 25 is "Z", 26 is "AA" and 27 is "AB". |
| Columns.SingleLetter | app/images/images.py:103-106 | An index below 26 is the single letter chr(65 + index). |
| Columns.IndexToColumnLetter | app/routes/view_users/view_users.py:36-42 | The loop computes the letters of index + 1, and "" for a negative index. |
| Columns.ColIndexToLetter | app/images/images.py:100-107 | The loop computes the letters of idx0 + 1. |
| Columns.ConversionsAgree | app/images/images.py:100-107 | The two converters give the same non-empty string of capital letters for every index from 0 up. |
| Ledger.ActionOf | app/routes/catalog/catalog.py:83-86 | A log counts as a take iff its action is exactly "take", and as a return iff it is exactly "return". |
| Ledger.UnmovedNetsZero | app/routes/catalog/catalog.py:80-87 | A key with no counted move has net zero. |
| Ledger.BumpSpec | app/routes/catalog/catalog.py:83-86 | Adding to one key's running total keeps the keys distinct and changes that key's total alone. |
| Ledger.SummarySpec | app/routes/catalog/catalog.py:80-87 | The net dict has one entry per key that some counted move touched, holding that key's takes less returns. |
| Ledger.SummarySum | app/routes/catalog/catalog.py:80-87 | The nets of the dict add up to the signed sum of all moves. |
| Ledger.Positive | app/routes/catalog/catalog.py:89-95 | Exactly the entries with a positive net are reported. |
| Ledger.OutstandingIff | app/routes/catalog/catalog.py:80-95 | (key, n) is reported iff n is positive and is the key's takes less returns. |
| Order.SortSorted | app/routes/logs/logs.py:74 | The sort yields a sorted list, ascending or descending. |
| Order.SortStable | app/google_sheets/sheets_service.py:279 | The sort is stable: entries with equal keys keep their relative order. |
| Order.SortedSet | app/routes/catalog/catalog.py:61-63 | sorted(set(...)) is strictly increasing and holds exactly the values given. |
| Order.StrictlyIncreasingUnique | app/routes/catalog/catalog.py:61-63 | Two strictly increasing lists with the same members are equal, so the sorted set is unique. |
| Sheet.Pad | app/routes/view_users/view_users.py:70 | Padding keeps the row's cells and fills with "" up to the width, never shortening. |
| Sheet.PadIdempotent | app/routes/view_users/view_users.py:70 | Padding twice to the same width is padding once. |
| Sheet.Fit | app/routes/logs/logs.py:45-46 | Padding then cutting gives exactly the width, keeping the row's cells. |
| Sheet.Zip | app/routes/user_stats/user_stats.py:29 | dict(zip(keys, values)) pairs keys and values position by position, up to the shorter. |
| Sheet.Positional | app/routes/logs/logs.py:44-49 | A row is keyed positionally by the fixed fields, with "" for missing cells. |
| Sheet.PositionalRows | app/routes/logs/logs.py:40-51 | A sheet with at most a header gives no dicts; otherwise one dict per data row, in row order, padded or cut to the given fields and keyed by them. The log page reads its rows into its eight log fields this way, and the issue-report page (app/routes/issue_logs/issue_logs.py, lines 40 to 47) reads its rows into its eight report fields the same way. |
| Sheet.LookupSpec | app/routes/logs/logs.py:49 | A key reads as the value of its last pair, as a dict built from the pairs does, and is absent iff no pair has it. |
| Sheet.IndexOf | app/routes/view_users/view_users.py:66 | list.index finds the first position holding the value; None iff the value is absent. |
| Sheet.AppendRow | app/routes/create_project/create_project.py:75-86 | Appending adds exactly the row at the end. |
| Sheet.UpdateRow | app/routes/take_item/take_item.py:124 | Updating replaces exactly one row. |
| Sheet.WriteCell | app/routes/view_users/view_users.py:93 | Writing a cell changes only that row. |
| Text.PyStrip | app/routes/shared/item_api.py:20 | str.strip() never lengthens and leaves no whitespace at either end. It is the text from the first non-space character, with only whitespace cut from the end. |
| Text.PyStripIdempotent | app/routes/shared/item_api.py:20 | Stripping twice is stripping once. |
| Text.JsTrim | app/routes/create_project/create_project.js:340-351 | String.trim() never lengthens and leaves no whitespace at either end. It is the text from the first non-space character, with only whitespace cut from the end. |
| Text.Lower | app/routes/shared/item_api.py:20 | lower() keeps the length, lowers each capital and leaves no capital. |
| Text.LowerIdempotent | app/routes/shared/item_api.py:20 | Lowering twice is lowering once. |
| Text.Contains | app/routes/logs/logs.py:65 | "sub in s" holds iff sub occurs in s at some position. |
| Text.PySlice | app/routes/catalog/catalog.py:58-59 | A Python slice is the ordinary sub-sequence when its bounds are in range, and never longer than its bounds allow. |
| Numerals.IntToStringRoundTrip | app/routes/take_item/take_item.py:116 | int(str(n)) == n for every integer. |
| Numerals.NatToStringInjective | app/routes/take_item/take_item.py:116 | Different naturals have different decimal texts. |
| Numerals.ParseFloatTruncOfInt | app/routes/data_analytics/data_analytics.py:28-39 | On whole-number text int(float(s)) agrees with int(s). |
| Numerals.JsParseIntOfInt | app/routes/take_item/take_item.js:218 | parseInt reads back the decimal text of every integer. |
| Json.TruthyDiffers | app/routes/return_item/return_item.js:22 | JavaScript and Python truthiness differ exactly on `[]` and `{}`, which only JavaScript counts as truthy. |
| Json.JsString | app/routes/take_item/take_item.js:317 | `String(v)`: text as itself, a number as its decimal digits, `[]` as "", and a one-element array as its element. |
| Numerals.JsParseIntNoDigit | app/routes/take_item/take_item.js:218 | `parseInt` is NaN on text that is empty or starts with something other than a space, a sign or a digit. |
| Json.GetSpec | app/routes/shared/item_api.py:51-53 | dict.get finds the value stored under a key, and is absent iff no field has the key. |
| Json.GetSet | app/routes/logs/logs.py:61 | After d[key] = value the key reads as value and every other key as before. |
| JsonCodec.DecodeEncode | app/routes/take_item/take_item.py:106-123 | json.loads(json.dumps(v)) == v, with or without ensure_ascii, so a cell written as JSON reads back as what was written. |
| JsonCodec.EncodeEnds | app/routes/return_item/return_item.py:143 | json.dumps output starts and ends with a non-space character. |

## Left out

- Store access: the Supabase client, the sheet reads and the row and cell writes are an abstract table (a header row and rows of text cells) with append, update-row and write-cell operations; network failures, `res.error` checks and the read-modify-write race on stock are not modelled.
- Sheet ranges: reads name fixed ranges ("A1:Z1000" for most pages, "A1:Z10000" for the job's projects sheet and the analytics sources, "A1:L100000" for the consolidated table). The model reads the whole table, so rows and columns past those limits, which the source would not see, are not modelled.
- Cell types: every cell is text, so the store's coercion between the ints the analytics job builds and the strings it reads back is not modelled; the job renders its ints as decimal text.
- Time: "today", parsed dates (as day numbers counted as `date.toordinal()` counts them, 0001-01-01 being day 1), timestamps, UUIDs and the timezone conversion of the logs page are parameters; `datetime.strptime`, `fromisoformat` and pytz are not modelled.
- Pandas aggregation (top users, top items, daily usage, issue counts) and every Excel export are not modelled: they are reporting over third-party code.
- Floating point: `float()` is modelled exactly on decimal text with an optional fraction and truncated toward zero. There is no rounding to a 53-bit double, so texts above 2^53 read exactly. Exponents, underscores, "inf" and "nan" read as unreadable, and JSON numbers are integers only.
- Coerce.AnalyticsToIntOfText: holds for every integer because the model's `float()` is exact; Python's `int(float(s))` rounds to a 53-bit double above 2^53, where the two readings differ. Underscores in numerals (`int("1_0")`) are not accepted either.
- Coerce.JobToIntAgrees: the agreement rests on the same exact `float()`; above 2^53 the job's and the analytics reader's double rounding is not modelled, nor are underscores in numerals.
- Coerce.ProjectsToIntAgrees: the agreement on whole-number text rests on the exact `float()`; above 2^53 Python's double rounding makes `int(float(s))` differ from `int(s)`, which is not modelled, nor are underscores in numerals.
- Numerals.ParseFloatTruncOfInt: int(float(s)) equals int(s) only up to 2^53 in Python; the model's float reading is exact, so the lemma does not show the rounding above that. Underscores in numerals, accepted by both `int()` and `float()`, read as unreadable.
- `_safe_parse_json`'s `ast.literal_eval` fallback is not modelled: text that only Python literal syntax accepts reads as the default.
- Strings: `lower()` lowers ASCII capitals only; Unicode case mapping is not modelled.
- Python's `1 == True` (a bool and an int colliding as dict keys) is not modelled: a bool and a number are different keys.
- Exception texts: where the source answers with `str(e)`, the text is approximated (the KeyError, TypeError and ValueError wording of CPython); only the status codes and the explicit messages are exact.
- Request bodies are taken as already decoded JSON values; how Flask answers a body that is not JSON is not modelled.
- The JSON decoder refuses lone surrogate escapes (a Dafny `char` cannot hold them), and an object with duplicate keys re-encodes all its fields where Python would keep one.
- Roles: the master and manager roles are booleans on the session; app/config/roles.py is not part of this model.
- Catalog.OrDefault: a truthy category, supplier or location that is not text is an error (sorting it with text raises); the exact mixed-type sort order of Python is not modelled.
- Catalog: `search_items` (the whole-table search endpoint) and `check_zero_stock_items_logs` (a debugging endpoint) are not modelled; `inventory_redirect` is plumbing.
- Catalog.PageOf: a negative page number is sliced with Python's negative-index rules, which the model follows, but no property beyond the size bound is stated for it.
- ItemApi: `get_all_products` (the product list endpoint) is not modelled; it copies two fields per item.
- Columns.ColIndexToLetter: requires idx0 >= -1, because for idx0 < -1 the Python loop never terminates (floor division keeps n negative).
- SheetsService.CreateDeliveryRequest: only the validation and the row written are modelled; the insert is the abstract store.
- SheetsService: user look-ups, issue and request inserts, reservations, pending deliveries, stock comments, storage upload and QR/image handling are store adapters and are not modelled.
- Projects: the add-flag path of `update_project_item` is modelled as written and stated through the finding below; only the empty-list and no-add cases carry positive properties.
- JavaScript `parseInt` is modelled for base 10 on `String()` of its argument; other radices and numeric separators are not modelled. JavaScript numbers are unbounded integers or NaN in the model, not doubles: the lines below say which members this affects.
- Carts.AddQty: a number qty is read through its decimal text. JavaScript writes a number of 1e21 or more in exponent form, so `parseInt(1e21)` is 1, and the model does not show this. Numeric text above 2^53 is read exactly, where JavaScript rounds it to a double.
- Carts.ParseText: reads any digit run exactly. JavaScript's `parseInt` rounds a run above 2^53 to the nearest double, which is not modelled.
- Carts.ParseTextOfInt: holds for every integer because `parseInt` is exact in the model. In JavaScript the round trip fails above 2^53, where the parsed value is rounded to a double.
- Carts.UpdateQty: the new quantity is the exact `parseInt` of the text. JavaScript's rounding of long digit runs to a double is not modelled.
- Numerals.JsParseIntOfInt: holds for every integer in the model. In JavaScript `parseInt` rounds a digit run above 2^53 to a double, so the round trip fails there.
- Json.JsString: a number is written as its decimal digits. JavaScript's exponent form from 1e21 on, and the shortest-digits rendering of doubles above 2^53, are not modelled.
- Carts: `===` on objects is structural equality in the model, where JavaScript compares references; the carts only compare ids, article numbers and names, which are text.
- Carts: spreading arrays or strings into a line and `JSON.stringify` of the summary are kept as values; the URL encoding of the form body is not modelled.
- Browser side effects: DOM rendering, the scanner's timing, `sessionStorage`, alerts, the confirm dialog and the ordering of `fetch` calls are not modelled; only the cart transformations and the requests a submit would send are.
- TakeCart: restoring the cart from `sessionStorage` and the worker dataset's text conversion are not modelled.
- AddStockCart.Total: the displayed total assumes every quantity is a number or NaN; string concatenation by `+` on text quantities is not modelled.
- AddStockCart: `removeItem` is modelled by the shared `Carts.RemoveAt`.
- ProjectForm.FilterWorkers: a null entry in the worker list would throw in the browser (reading a field of null); the model reads its fields as missing and leaves it out.
- Report-issue pages, login, home, item detail, user creation and the CSV imports are not modelled: they are form handling and I/O.

## Findings

| source | as written | input that shows it | evidently intended | confidence | as-written member | corrected member |
|---|---|---|---|---|---|---|
| app/routes/add_stock/add_stock.js:237-243 | The add-stock summary sends each line as action "return" with neither `return_type` nor `apply_to_stock`, and the confirm handler only moves stock for such a return when `return_type` is "returned" (app/routes/shared/item_api.py:61-62). | Any cart, e.g. one line of article "A1" with quantity 3: the confirm logs a return of 3 and the stock of A1 stays as it was. | Adding stock raises the product's stock by the quantity. | not executed | AddStockCart.EntryOnlyLogs | AddStockCart.FixedEntryMovesStock |
| app/routes/data_analytics/data_analytics.py:315-322 | On an empty analytics table the job works under the default headers but never writes them, so its first appended data row becomes the table's first row. | An empty analytics table and one project with one item: after the run the table's first row is that item's row, and the next run takes it for the header row. | The header row is written before the first data row. | not executed | AnalyticsJob.EmptyTableLosesHeader | AnalyticsJob.RerunFixedIsIdempotent |
| app/routes/projects/projects.py:204-219 | With the add flag, the loop appends a new line while visiting a line whose id differs, and then reaches and edits the matching line too. | Items [{item_id "a"}, {item_id "b", quantity 1}] and a request for "b", quantity 5, add flag set: the list ends as a, b with quantity 5, and a new b line. | A new line is added only when no line has the id. | not executed | Projects.AddDuplicatesLine | Projects.FixedEditSpec |
