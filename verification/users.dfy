/** The user-edit form of the users page: find the first stored user row with the given id
    and write the edited name, e-mail, role and (when given) PIN into it, one cell at a
    time, each addressed by its column letters and sheet row number. */
module Users {
  import opened Wrappers
  import Sheet
  import Columns

  type Table = Sheet.Table
  type Row = Sheet.Row

  /** The flashed message and its category. */
  datatype Flash = Flash(message: string, category: string)

  /** The submitted form: a field the form lacks is None. */
  datatype Form = Form(userId: Option<string>, name: Option<string>, email: Option<string>,
                       role: Option<string>, pin: Option<string>)

  /** A truthy form value: present and not empty. */
  predicate Given(o: Option<string>) {
    o.Some? && o.value != ""
  }

  const Missing := Flash("All cells must be filled.", "danger")
  const Unreadable := Flash("❌ Error when reading users file.", "danger")
  const NotFound := Flash("❌ User not found.", "danger")
  const Failed := Flash("❌ Error when updating user information.", "danger")
  const Updated := Flash("✅ User information updated.", "success")

  /** The store's write_cell at an A1-style address: the column letters name the column,
      the number the 1-based sheet row. */
  function WriteAt(t: Table, letters: string, rowNumber: nat, value: string): (r: Table)
    requires Columns.AllLetters(letters) && Columns.Value(letters) >= 1 && 1 <= rowNumber <= |t|
    ensures |r| == |t|
  {
    Sheet.WriteCell(t, rowNumber, Columns.Value(letters) - 1, value)
  }

  /** The first data row (sheet row 2 onward) whose id cell, after padding to the header
      width, equals the user id, as a sheet row number. */
  function FindRow(rows: seq<Row>, idCol: nat, width: nat, userId: string): (r: Option<nat>)
    requires idCol < width
    ensures r.Some? ==> 2 <= r.value <= |rows| + 1 && Sheet.Pad(rows[r.value - 2], width)[idCol] == userId
                        && forall j :: 0 <= j < r.value - 2 ==> Sheet.Pad(rows[j], width)[idCol] != userId
    ensures r.None? ==> forall j :: 0 <= j < |rows| ==> Sheet.Pad(rows[j], width)[idCol] != userId
  {
    if |rows| == 0 then None
    else if Sheet.Pad(rows[0], width)[idCol] == userId then Some(2)
    else
      match FindRow(rows[1..], idCol, width, userId)
      case None => None
      case Some(n) => Some(n + 1)
  }

  /** The fields to write, in order: name, email, role, and the PIN only when given. */
  function Updates(name: string, email: string, role: string, pin: Option<string>): (us: seq<(string, string)>)
    ensures 3 <= |us| <= 4 && us[0] == ("name", name) && us[1] == ("email", email) && us[2] == ("role", role)
    ensures |us| == 4 <==> Given(pin)
    ensures |us| == 4 ==> us[3] == ("pin", pin.value)
  {
    [("name", name), ("email", email), ("role", role)] + (if Given(pin) then [("pin", pin.value)] else [])
  }

  /** The column of a header: its first position. */
  function ColumnOf(headers: Row, key: string): nat
    requires key in headers
  {
    Sheet.IndexOf(headers, key).value
  }

  /** One pass of the loop: a key the header row names is written at its column, addressed
      by that column's letters; other keys are passed over. */
  function WriteKey(t: Table, headers: Row, rowNumber: nat, u: (string, string)): (r: Table)
    requires 1 <= rowNumber <= |t|
    ensures |r| == |t|
  {
    if u.0 in headers then
      Columns.ValueOfLetters(ColumnOf(headers, u.0) + 1);
      WriteAt(t, Columns.Letters(ColumnOf(headers, u.0) + 1), rowNumber, u.1)
    else t
  }

  /** The loop over the updates. */
  function WriteAll(t: Table, headers: Row, rowNumber: nat, us: seq<(string, string)>): (r: Table)
    requires 1 <= rowNumber <= |t|
    decreases |us|
    ensures |r| == |t|
  {
    if |us| == 0 then t
    else WriteAll(WriteKey(t, headers, rowNumber, us[0]), headers, rowNumber, us[1..])
  }

  /** update_user on the users table and the form: the flash shown and the table after. */
  function UpdateUser(t: Table, form: Form): (r: (Flash, Table))
    ensures r.0 != Updated ==> r.1 == t
  {
    if !Given(form.userId) || !Given(form.name) || !Given(form.email) || !Given(form.role) then (Missing, t)
    else if |t| == 0 then (Unreadable, t)
    else
      var headers := t[0];
      match Sheet.IndexOf(headers, "id")
      case None => (Failed, t)
      case Some(idCol) =>
        match FindRow(t[1..], idCol, |headers|, form.userId.value)
        case None => (NotFound, t)
        case Some(rowNumber) =>
          (Updated, WriteAll(t, headers, rowNumber, Updates(form.name.value, form.email.value, form.role.value, form.pin)))
  }

  /** The columns the loop writes. */
  predicate WritesColumn(headers: Row, us: seq<(string, string)>, col: nat) {
    exists k :: 0 <= k < |us| && us[k].0 in headers && ColumnOf(headers, us[k].0) == col
  }

  /** One cell written into a row: padded first when the row is too short. */
  function SetCell(row: Row, col: nat, value: string): Row {
    Sheet.Pad(row, col + 1)[col := value]
  }

  /** One pass of the loop on the target row alone. */
  function KeyRow(row: Row, headers: Row, u: (string, string)): Row {
    if u.0 in headers then SetCell(row, ColumnOf(headers, u.0), u.1) else row
  }

  /** The target row after the loop. */
  function RowAfter(row: Row, headers: Row, us: seq<(string, string)>): Row
    decreases |us|
  {
    if |us| == 0 then row
    else RowAfter(KeyRow(row, headers, us[0]), headers, us[1..])
  }

  /** One pass writes only the target row, and writes it as KeyRow does. */
  lemma WriteKeyInRow(t: Table, headers: Row, rowNumber: nat, u: (string, string))
    requires 1 <= rowNumber <= |t|
    ensures WriteKey(t, headers, rowNumber, u) == t[rowNumber - 1 := KeyRow(t[rowNumber - 1], headers, u)]
  {
    if u.0 in headers {
      Columns.ValueOfLetters(ColumnOf(headers, u.0) + 1);
    }
  }

  /** All the loop's writes land in the target row. */
  lemma {:induction false} WriteAllInRow(t: Table, headers: Row, rowNumber: nat, us: seq<(string, string)>)
    requires 1 <= rowNumber <= |t|
    decreases |us|
    ensures WriteAll(t, headers, rowNumber, us) == t[rowNumber - 1 := RowAfter(t[rowNumber - 1], headers, us)]
  {
    if |us| > 0 {
      var row1 := KeyRow(t[rowNumber - 1], headers, us[0]);
      var t1 := WriteKey(t, headers, rowNumber, us[0]);
      WriteKeyInRow(t, headers, rowNumber, us[0]);
      WriteAllInRow(t1, headers, rowNumber, us[1..]);
      assert t1[rowNumber - 1] == row1;
      assert t1[rowNumber - 1 := RowAfter(row1, headers, us[1..])] == t[rowNumber - 1 := RowAfter(row1, headers, us[1..])];
    }
  }

  /** The value a key's column holds after the loop. */
  predicate Wrote(row: Row, headers: Row, key: string, value: string) {
    key in headers ==> ColumnOf(headers, key) < |row| && row[ColumnOf(headers, key)] == value
  }

  /** No key is named twice. */
  predicate DistinctKeys(us: seq<(string, string)>) {
    forall i, j :: 0 <= i < j < |us| ==> us[i].0 != us[j].0
  }

  /** The loop writes each named key's value at its column, and leaves the row's other
      cells as they were (a cell beyond the old end reads as empty); the keys must be
      distinct. */
  lemma {:induction false} RowAfterSpec(row: Row, headers: Row, us: seq<(string, string)>)
    requires DistinctKeys(us)
    decreases |us|
    ensures forall k :: 0 <= k < |us| ==> Wrote(RowAfter(row, headers, us), headers, us[k].0, us[k].1)
    ensures var r := RowAfter(row, headers, us);
            |r| >= |row| && forall j :: 0 <= j < |r| && !WritesColumn(headers, us, j) ==> r[j] == if j < |row| then row[j] else ""
  {
    if |us| > 0 {
      var row1 := KeyRow(row, headers, us[0]);
      var rest := us[1..];
      DistinctTail(headers, us);
      RowAfterSpec(row1, headers, rest);
      var r := RowAfter(row1, headers, rest);
      assert r == RowAfter(row, headers, us);
      if us[0].0 in headers {
        assert Wrote(r, headers, us[0].0, us[0].1);
      }
      forall k | 0 <= k < |us| ensures Wrote(r, headers, us[k].0, us[k].1) {
        if k > 0 { assert rest[k - 1] == us[k]; }
      }
      forall j | 0 <= j < |r| && !WritesColumn(headers, us, j)
        ensures r[j] == if j < |row| then row[j] else ""
      {
        if us[0].0 in headers { assert ColumnOf(headers, us[0].0) != j; }
      }
    }
  }

  /** After the first update the keys stay distinct, none of them writes the first key's
      column, and a column they write is one the whole list writes. */
  lemma DistinctTail(headers: Row, us: seq<(string, string)>)
    requires DistinctKeys(us) && |us| > 0
    ensures DistinctKeys(us[1..])
    ensures us[0].0 in headers ==> !WritesColumn(headers, us[1..], ColumnOf(headers, us[0].0))
    ensures forall j :: WritesColumn(headers, us[1..], j) ==> WritesColumn(headers, us, j)
  {
    var rest := us[1..];
    assert forall k :: 0 <= k < |rest| ==> rest[k] == us[k + 1];
  }

  /** A form with a missing field, an empty table, a header row without "id" or an id no
      row carries: nothing is written, with the matching message. */
  lemma RefusalsWriteNothing(t: Table, form: Form)
    ensures !Given(form.userId) || !Given(form.name) || !Given(form.email) || !Given(form.role) ==>
              UpdateUser(t, form) == (Missing, t)
    ensures Given(form.userId) && Given(form.name) && Given(form.email) && Given(form.role) ==>
              (|t| == 0 ==> UpdateUser(t, form) == (Unreadable, t))
              && (|t| > 0 && "id" !in t[0] ==> UpdateUser(t, form) == (Failed, t))
              && (|t| > 0 && "id" in t[0]
                  && (forall j :: 1 <= j < |t| ==> Sheet.Pad(t[j], |t[0]|)[Sheet.IndexOf(t[0], "id").value] != form.userId.value)
                  ==> UpdateUser(t, form) == (NotFound, t))
  {
    if |t| > 0 {
      assert forall j :: 0 <= j < |t[1..]| ==> t[1..][j] == t[j + 1];
    }
  }

  /** A successful edit targets the first row whose id cell matches, replaces it with the
      row the update loop builds from it, and leaves every other row as it was. */
  lemma EditTargetsFirstMatch(t: Table, form: Form)
    requires UpdateUser(t, form).0 == Updated
    ensures var r := UpdateUser(t, form).1;
            var headers := t[0];
            var idCol := Sheet.IndexOf(headers, "id").value;
            var n := FindRow(t[1..], idCol, |headers|, form.userId.value).value;
            |r| == |t| && 1 <= n - 1 < |t|
            && Sheet.Pad(t[n - 1], |headers|)[idCol] == form.userId.value
            && (forall i :: 1 <= i < n - 1 ==> Sheet.Pad(t[i], |headers|)[idCol] != form.userId.value)
            && (forall i :: 0 <= i < |t| && i != n - 1 ==> r[i] == t[i])
            && r[n - 1] == RowAfter(t[n - 1], headers, Updates(form.name.value, form.email.value, form.role.value, form.pin))
  {
    var headers := t[0];
    var idCol := Sheet.IndexOf(headers, "id").value;
    var n := FindRow(t[1..], idCol, |headers|, form.userId.value).value;
    var us := Updates(form.name.value, form.email.value, form.role.value, form.pin);
    UpdatedWrites(t, form);
    FirstMatch(t, idCol, |headers|, form.userId.value);
    WriteAllInRow(t, headers, n, us);
  }

  /** What a successful update is: the loop run on the row FindRow names. */
  lemma UpdatedWrites(t: Table, form: Form)
    requires UpdateUser(t, form).0 == Updated
    ensures Given(form.userId) && Given(form.name) && Given(form.email) && Given(form.role) && |t| > 0
    ensures Sheet.IndexOf(t[0], "id").Some?
    ensures var idCol := Sheet.IndexOf(t[0], "id").value;
            idCol < |t[0]| && FindRow(t[1..], idCol, |t[0]|, form.userId.value).Some?
    ensures var n := FindRow(t[1..], Sheet.IndexOf(t[0], "id").value, |t[0]|, form.userId.value).value;
            1 <= n <= |t|
            && UpdateUser(t, form).1 == WriteAll(t, t[0], n, Updates(form.name.value, form.email.value, form.role.value, form.pin))
  {
  }

  /** The row FindRow names, as an index into the whole table. */
  lemma FirstMatch(t: Table, idCol: nat, width: nat, userId: string)
    requires |t| > 0 && idCol < width && FindRow(t[1..], idCol, width, userId).Some?
    ensures var n := FindRow(t[1..], idCol, width, userId).value;
            1 <= n - 1 < |t| && Sheet.Pad(t[n - 1], width)[idCol] == userId
            && forall i :: 1 <= i < n - 1 ==> Sheet.Pad(t[i], width)[idCol] != userId
  {
    assert forall i :: 1 <= i < |t| ==> t[1..][i - 1] == t[i];
  }

  /** The edit's writes into its target row: name, e-mail and role each at its column, the
      PIN only when given, every other cell as it was. */
  lemma RowWrites(row: Row, headers: Row, name: string, email: string, role: string, pin: Option<string>)
    ensures var us := Updates(name, email, role, pin);
            var r := RowAfter(row, headers, us);
            Wrote(r, headers, "name", name) && Wrote(r, headers, "email", email) && Wrote(r, headers, "role", role)
            && (Given(pin) ==> Wrote(r, headers, "pin", pin.value))
            && forall j :: 0 <= j < |r| && !WritesColumn(headers, us, j) ==> r[j] == if j < |row| then row[j] else ""
  {
    var us := Updates(name, email, role, pin);
    RowAfterSpec(row, headers, us);
    var r := RowAfter(row, headers, us);
    assert Wrote(r, headers, us[0].0, us[0].1);
    assert Wrote(r, headers, us[1].0, us[1].1);
    assert Wrote(r, headers, us[2].0, us[2].1);
    if Given(pin) {
      assert Wrote(r, headers, us[3].0, us[3].1);
    }
  }

  /** Without a PIN in the form the PIN column is not written: no other field shares it. */
  lemma NoPinNoPinWrite(name: string, email: string, role: string, pin: Option<string>, headers: Row)
    requires !Given(pin) && "pin" in headers
    ensures !WritesColumn(headers, Updates(name, email, role, pin), ColumnOf(headers, "pin"))
  {
    var us := Updates(name, email, role, pin);
    forall k | 0 <= k < |us| && us[k].0 in headers ensures ColumnOf(headers, us[k].0) != ColumnOf(headers, "pin") {
      assert us[k].0 != "pin";
    }
  }
}
