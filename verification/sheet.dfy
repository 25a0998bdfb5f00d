/** The abstract table store every route reads and writes: a header row followed by data rows
    of text cells, the positional row-to-record mapping the routes build with
    dict(zip(headers, row)), header look-ups, and the store's three write operations
    (append a row, replace a row, write one cell), addressed by 1-based sheet row numbers. */
module Sheet {
  import opened Wrappers

  type Row = seq<string>
  type Table = seq<Row>

  /** A record built from a row: (header, cell) pairs in column order. */
  type Dict = seq<(string, string)>

  /** row + [""] * (n - len(row)): a short row is padded with empty cells, a long one is
      left as it is. */
  function Pad(row: Row, n: nat): (r: Row)
    ensures |r| == if |row| < n then n else |row|
    ensures forall i :: 0 <= i < |r| ==> r[i] == if i < |row| then row[i] else ""
  {
    if |row| < n then row + seq(n - |row|, _ => "") else row
  }

  /** Padding twice is padding once. */
  lemma PadIdempotent(row: Row, n: nat)
    ensures Pad(Pad(row, n), n) == Pad(row, n)
  {}

  /** (row + [""] * (n - len(row)))[:n]: exactly n cells, positionally. */
  function Fit(row: Row, n: nat): (r: Row)
    ensures |r| == n
    ensures forall i :: 0 <= i < n ==> r[i] == if i < |row| then row[i] else ""
  {
    Pad(row, n)[..n]
  }

  /** dict(zip(keys, values)) as its pairs: zip stops at the shorter sequence. */
  function Zip(keys: seq<string>, values: seq<string>): (d: Dict)
    ensures |d| == if |keys| < |values| then |keys| else |values|
    ensures forall i :: 0 <= i < |d| ==> d[i] == (keys[i], values[i])
  {
    var n := if |keys| < |values| then |keys| else |values|;
    seq(n, i requires 0 <= i < n => (keys[i], values[i]))
  }

  /** Reading rows under a header row, as a function of the row. */
  function RecordOf(headers: Row): Row -> Dict {
    row => Zip(headers, row)
  }

  /** A row read by position into fixed fields, whatever the sheet's header row says: padded
      with "" or cut to as many cells as there are fields. */
  function Positional(fields: seq<string>, row: Row): (d: Dict)
    ensures |d| == |fields|
    ensures forall i :: 0 <= i < |fields| ==> d[i] == (fields[i], if i < |row| then row[i] else "")
  {
    Zip(fields, Fit(row, |fields|))
  }

  /** The data rows read positionally; none unless the sheet has a row after the header. */
  function PositionalRows(fields: seq<string>, t: Table): (ds: seq<Dict>)
    ensures |t| <= 1 ==> ds == []
    ensures |t| > 1 ==> |ds| == |t| - 1 && forall k :: 0 <= k < |ds| ==> ds[k] == Positional(fields, t[k + 1])
  {
    if |t| <= 1 then [] else seq(|t| - 1, k requires 0 <= k < |t| - 1 => Positional(fields, t[k + 1]))
  }

  /** The value of the i-th field of a positionally read row ("" past its end). */
  function Cell(d: Dict, i: nat): string {
    if i < |d| then d[i].1 else ""
  }

  /** d.get(key) on a dict built from pairs: a later pair with the same key overwrites an
      earlier one. */
  function Lookup<K(==), V>(d: seq<(K, V)>, key: K): Option<V> {
    if |d| == 0 then None
    else if d[|d| - 1].0 == key then Some(d[|d| - 1].1)
    else Lookup(d[..|d| - 1], key)
  }

  /** The look-up finds the value of the LAST pair with the key, and nothing exactly when no
      pair has the key. */
  lemma {:induction false} LookupSpec<K, V>(d: seq<(K, V)>, key: K)
    ensures Lookup(d, key).None? <==> forall i :: 0 <= i < |d| ==> d[i].0 != key
    ensures Lookup(d, key).Some? ==>
              exists i :: 0 <= i < |d| && d[i] == (key, Lookup(d, key).value)
                          && forall j :: i < j < |d| ==> d[j].0 != key
  {
    if |d| > 0 && d[|d| - 1].0 != key {
      var init := d[..|d| - 1];
      LookupSpec(init, key);
      assert forall i :: 0 <= i < |init| ==> init[i] == d[i];
    }
  }

  /** A pair added at the end overrides every earlier pair with its key. */
  lemma LookupSnoc<K, V>(d: seq<(K, V)>, p: (K, V), key: K)
    ensures Lookup(d + [p], key) == if p.0 == key then Some(p.1) else Lookup(d, key)
  {
    assert (d + [p])[..|d|] == d;
  }

  /** d.get(key, default). */
  function GetOr<K(==), V>(d: seq<(K, V)>, key: K, default: V): V {
    Lookup(d, key).GetOr(default)
  }

  /** The record of a row under the given headers. */
  function Record(headers: Row, row: Row): Dict {
    Zip(headers, row)
  }

  /** xs.index(x): the first position holding x; None where Python raises ValueError. */
  function IndexOf<T(==)>(xs: seq<T>, x: T): (r: Option<nat>)
    ensures r.Some? ==> r.value < |xs| && xs[r.value] == x
                        && forall j :: 0 <= j < r.value ==> xs[j] != x
    ensures r.None? <==> x !in xs
  {
    if |xs| == 0 then None
    else if xs[0] == x then Some(0)
    else
      match IndexOf(xs[1..], x)
      case None => None
      case Some(i) => Some(i + 1)
  }

  /** {h: i for i, h in enumerate(headers)}.get(name): the last position holding name. */
  function LastIndexOf(headers: Row, name: string): (r: Option<nat>)
    ensures r.Some? ==> r.value < |headers| && headers[r.value] == name
                        && forall j :: r.value < j < |headers| ==> headers[j] != name
    ensures r.None? <==> name !in headers
  {
    if |headers| == 0 then None
    else if headers[|headers| - 1] == name then Some(|headers| - 1)
    else LastIndexOf(headers[..|headers| - 1], name)
  }

  /** The store's append_row. */
  function AppendRow(t: Table, row: Row): (r: Table)
    ensures |r| == |t| + 1 && r[..|t|] == t && r[|t|] == row
  {
    t + [row]
  }

  /** The store's update_row: replaces the row with the given 1-based sheet row number. */
  function UpdateRow(t: Table, rowNumber: nat, row: Row): (r: Table)
    requires 1 <= rowNumber <= |t|
    ensures |r| == |t| && r[rowNumber - 1] == row
    ensures forall i :: 0 <= i < |t| && i != rowNumber - 1 ==> r[i] == t[i]
  {
    t[rowNumber - 1 := row]
  }

  /** The store's write_cell at a 1-based row number and 0-based column: a row shorter than
      the column is first padded with empty cells. */
  function WriteCell(t: Table, rowNumber: nat, col: nat, value: string): (r: Table)
    requires 1 <= rowNumber <= |t|
    ensures |r| == |t|
    ensures forall i :: 0 <= i < |t| && i != rowNumber - 1 ==> r[i] == t[i]
    ensures var old_ := t[rowNumber - 1]; var new_ := r[rowNumber - 1];
            |new_| == (if col < |old_| then |old_| else col + 1) && new_[col] == value
            && forall j :: 0 <= j < |new_| && j != col ==> new_[j] == (if j < |old_| then old_[j] else "")
  {
    var row := Pad(t[rowNumber - 1], col + 1);
    t[rowNumber - 1 := row[col := value]]
  }
}
