/**
 * `csv.DictReader` over the rows `csv.reader` has already split a file into
 * (a blank line is the empty row `[]`).  The first row is the header,
 * `fieldnames`; every later non-blank row becomes a dict built as
 * `dict(zip(fieldnames, row))`, then cells past the header go under the
 * rest key `None` and header names past the row's end get `None`.
 */
module CsvReader {
  import opened Wrappers
  import opened Json

  /** One row as a dict: the string-keyed cells in insertion order, and the
      list stored under the key `None` when the row is longer than the header. */
  datatype DictRow = DictRow(cells: Fields, rest: Option<seq<string>>)

  /** `dict(zip(names, row))`: pairs up to the shorter of the two, a repeated
      name keeping its first position and its last value. */
  function Zip(names: seq<string>, row: seq<string>): Fields
    decreases |names|
  {
    if names == [] || row == [] then []
    else
      var n := if |names| < |row| then |names| else |row|;
      Put(Zip(names[..n - 1], row[..n - 1]), names[n - 1], Str(row[n - 1]))
  }

  /** `for key in names: d[key] = None`. */
  function Fill(d: Fields, names: seq<string>): Fields
    decreases |names|
  {
    if names == [] then d else Put(Fill(d, names[..|names| - 1]), names[|names| - 1], Null)
  }

  function MakeRow(fieldnames: seq<string>, row: seq<string>): DictRow
  {
    var d := Zip(fieldnames, row);
    if |fieldnames| < |row| then DictRow(d, Some(row[|fieldnames|..]))
    else if |fieldnames| > |row| then DictRow(Fill(d, fieldnames[|row|..]), None)
    else DictRow(d, None)
  }

  /** The dicts the reader yields for the rows after the header. */
  function Rows(fieldnames: seq<string>, rows: seq<seq<string>>): (r: seq<DictRow>)
    ensures |r| <= |rows|
    decreases |rows|
  {
    if rows == [] then []
    else
      var init := Rows(fieldnames, rows[..|rows| - 1]);
      var last := rows[|rows| - 1];
      if last == [] then init else init + [MakeRow(fieldnames, last)]
  }

  /** `reader.fieldnames` (`None` for an empty file) and the dicts read. */
  function Read(lines: seq<seq<string>>): (Option<seq<string>>, seq<DictRow>)
  {
    if lines == [] then (None, []) else (Some(lines[0]), Rows(lines[0], lines[1..]))
  }

  // ---------------------------------------------------------------------------

  lemma {:induction false} ZipKeysSound(names: seq<string>, row: seq<string>)
    ensures forall k :: k in Keys(Zip(names, row)) ==> k in names
    decreases |names|
  {
    if names != [] && row != [] {
      var n := if |names| < |row| then |names| else |row|;
      var pre := names[..n - 1];
      var z := Zip(pre, row[..n - 1]);
      ZipKeysSound(pre, row[..n - 1]);
      assert Zip(names, row) == Put(z, names[n - 1], Str(row[n - 1]));
      PutKeys(z, names[n - 1], Str(row[n - 1]));
      forall k | k in Keys(Zip(names, row)) ensures k in names {
        if k != names[n - 1] {
          assert k in Keys(z);
          var i :| 0 <= i < |pre| && pre[i] == k;
          assert names[i] == k;
        }
      }
    }
  }

  /** A name with a cell of its own reads a value in the zip. */
  lemma {:induction false} ZipHasName(names: seq<string>, row: seq<string>, i: nat)
    requires i < |names| && i < |row|
    ensures Get(Zip(names, row), names[i]).Some?
    decreases |names|
  {
    var n := if |names| < |row| then |names| else |row|;
    var pre := names[..n - 1];
    PutGet(Zip(pre, row[..n - 1]), names[n - 1], Str(row[n - 1]), names[i]);
    if i < n - 1 && names[i] != names[n - 1] {
      ZipHasName(pre, row[..n - 1], i);
      assert pre[i] == names[i];
    }
  }

  /** Every header name is a key of every row, whatever its length. */
  lemma {:induction false} HeaderNamesAreKeys(fieldnames: seq<string>, row: seq<string>)
    ensures forall k :: k in fieldnames ==> k in Keys(MakeRow(fieldnames, row).cells)
  {
    forall k | k in fieldnames ensures k in Keys(MakeRow(fieldnames, row).cells) {
      var i :| 0 <= i < |fieldnames| && fieldnames[i] == k;
      HeaderNameIsKey(fieldnames, row, i);
    }
  }

  lemma HeaderNameIsKey(fieldnames: seq<string>, row: seq<string>, i: nat)
    requires i < |fieldnames|
    ensures fieldnames[i] in Keys(MakeRow(fieldnames, row).cells)
  {
    var d := Zip(fieldnames, row);
    var k := fieldnames[i];
    if |fieldnames| > |row| {
      var post := fieldnames[|row|..];
      assert MakeRow(fieldnames, row).cells == Fill(d, post);
      FillGet(d, post, k);
      if i < |row| {
        ZipHasName(fieldnames, row, i);
      } else {
        assert post[i - |row|] == k;
      }
    } else {
      ZipHasName(fieldnames, row, i);
    }
  }

  /** A header name that occurs once reads the cell in its column, or `None`
      when the row is too short. */
  lemma {:induction false} ZipGet(names: seq<string>, row: seq<string>, i: nat)
    requires i < |names| && forall j :: 0 <= j < |names| && j != i ==> names[j] != names[i]
    ensures Get(Zip(names, row), names[i]) == if i < |row| then Some(Str(row[i])) else None
    decreases |names|
  {
    if names != [] && row != [] {
      var n := if |names| < |row| then |names| else |row|;
      var pre, rpre := names[..n - 1], row[..n - 1];
      var z := Zip(pre, rpre);
      assert Zip(names, row) == Put(z, names[n - 1], Str(row[n - 1]));
      PutGet(z, names[n - 1], Str(row[n - 1]), names[i]);
      if i < n - 1 {
        assert pre[i] == names[i];
        assert forall j :: 0 <= j < |pre| && j != i ==> pre[j] != pre[i];
        ZipGet(pre, rpre, i);
      } else if i >= n {
        ZipKeysSound(pre, rpre);
        assert names[i] !in pre;
        assert names[i] != names[n - 1];
      }
    }
  }

  lemma {:induction false} FillGet(d: Fields, names: seq<string>, k: string)
    ensures Get(Fill(d, names), k) == if k in names then Some(Null) else Get(d, k)
    decreases |names|
  {
    if names != [] {
      PutGet(Fill(d, names[..|names| - 1]), names[|names| - 1], Null, k);
      FillGet(d, names[..|names| - 1], k);
      assert k in names <==> k in names[..|names| - 1] || k == names[|names| - 1];
    }
  }

  /** `row[name]` for a header name that occurs once: the cell in its column,
      or `None` past the end of a short row. */
  lemma CellOfColumn(fieldnames: seq<string>, row: seq<string>, i: nat)
    requires i < |fieldnames| && forall j :: 0 <= j < |fieldnames| && j != i ==> fieldnames[j] != fieldnames[i]
    ensures Get(MakeRow(fieldnames, row).cells, fieldnames[i]) ==
      if i < |row| then Some(Str(row[i])) else Some(Null)
  {
    ZipGet(fieldnames, row, i);
    if |fieldnames| > |row| {
      var d := Zip(fieldnames, row);
      FillGet(d, fieldnames[|row|..], fieldnames[i]);
      if i < |row| {
        assert fieldnames[i] !in fieldnames[|row|..] by {
          forall j | 0 <= j < |fieldnames[|row|..]| ensures fieldnames[|row|..][j] != fieldnames[i] {
            assert fieldnames[|row|..][j] == fieldnames[|row| + j];
          }
        }
      } else {
        assert fieldnames[i] == fieldnames[|row|..][i - |row|];
      }
    }
  }

  /** Blank lines are skipped, one dict for every other row, in file order. */
  lemma {:induction false} RowsCount(fieldnames: seq<string>, rows: seq<seq<string>>)
    requires forall i :: 0 <= i < |rows| ==> rows[i] != []
    ensures |Rows(fieldnames, rows)| == |rows|
    ensures forall i :: 0 <= i < |rows| ==> Rows(fieldnames, rows)[i] == MakeRow(fieldnames, rows[i])
    decreases |rows|
  {
    if rows != [] {
      var init := rows[..|rows| - 1];
      assert forall i :: 0 <= i < |init| ==> init[i] == rows[i];
      RowsCount(fieldnames, init);
      var r := Rows(fieldnames, rows);
      assert r == Rows(fieldnames, init) + [MakeRow(fieldnames, rows[|rows| - 1])];
      forall i | 0 <= i < |rows| ensures r[i] == MakeRow(fieldnames, rows[i]) {
        if i < |init| {
          assert r[i] == Rows(fieldnames, init)[i];
        }
      }
    }
  }

  /** With no blank line, the i-th dict is built from the i-th row. */
  lemma RowsAt(fieldnames: seq<string>, rows: seq<seq<string>>, i: nat)
    requires forall j :: 0 <= j < |rows| ==> rows[j] != []
    requires i < |rows|
    ensures |Rows(fieldnames, rows)| == |rows| && Rows(fieldnames, rows)[i] == MakeRow(fieldnames, rows[i])
  {
    RowsCount(fieldnames, rows);
  }

  lemma {:induction false} RowsAppend(fieldnames: seq<string>, a: seq<seq<string>>, b: seq<seq<string>>)
    ensures Rows(fieldnames, a + b) == Rows(fieldnames, a) + Rows(fieldnames, b)
    decreases |b|
  {
    if b == [] {
      assert a + b == a;
    } else {
      assert (a + b)[..|a + b| - 1] == a + b[..|b| - 1];
      RowsAppend(fieldnames, a, b[..|b| - 1]);
    }
  }

  /** A row is read exactly when it is not blank. */
  lemma RowsBlank(fieldnames: seq<string>, row: seq<string>)
    ensures Rows(fieldnames, [row]) == if row == [] then [] else [MakeRow(fieldnames, row)]
  {
    assert [row][..0] == [];
  }
}
