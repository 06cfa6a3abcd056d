/**
 * `parse_input_csv` of src/lib/reverse_transform/parser.py: reads a mapping
 * template through `csv.DictReader`, drops the filter row, checks the header
 * and returns the `(path, input_files_field)` pairs of the rows whose field
 * column is filled in.
 */
module ReverseParser {
  import opened Wrappers
  import opened Json
  import opened CsvReader

  /** What can stop the parse: `next(reader)` on a file with no data row, the
      ValueError of the header check, and the KeyError of `row[k]` (which the
      header check rules out; see `NoKeyError`). */
  datatype ReadError =
    | StopIteration
    | MissingHeaders(fieldnames: seq<string>)
    | KeyError(key: string)

  /** Python truthiness of a cell as `DictReader` fills it: `None` and `""` are false. */
  predicate Falsy(v: Value) {
    v == Null || v == Str("")
  }

  /** `row[k]`. */
  function Cell(row: DictRow, k: string): (r: Result<Value, ReadError>)
    ensures r.Ok? <==> k in Keys(row.cells)
  {
    match Get(row.cells, k)
    case Some(v) => Ok(v)
    case None => Err(KeyError(k))
  }

  /** One iteration of the loop over the remaining rows: a row whose
      `input_files_field` is falsy contributes nothing, any other the pair
      `(row['path'], row['input_files_field'])`. */
  function SelectRow(row: DictRow): Result<seq<(Value, Value)>, ReadError>
  {
    var field :- Cell(row, "input_files_field");
    if Falsy(field) then Ok([])
    else
      var path :- Cell(row, "path");
      Ok([(path, field)])
  }

  /** The whole loop: the contributions of the rows in order, or the first KeyError. */
  function Select(rows: seq<DictRow>): Result<seq<(Value, Value)>, ReadError>
    decreases |rows|
  {
    if rows == [] then Ok([])
    else
      var init :- Select(rows[..|rows| - 1]);
      var last :- SelectRow(rows[|rows| - 1]);
      Ok(init + last)
  }

  predicate HasRequiredHeaders(fieldnames: seq<string>) {
    "path" in fieldnames && "input_files_field" in fieldnames
  }

  /** `parse_input_csv(input_file)` on the rows `csv.reader` splits the file into. */
  function ReverseMapping(lines: seq<seq<string>>): Result<seq<(Value, Value)>, ReadError>
  {
    var (fieldnames, rows) := Read(lines);
    if rows == [] then Err(StopIteration)
    else if !HasRequiredHeaders(fieldnames.value) then Err(MissingHeaders(fieldnames.value))
    else Select(rows[1..])
  }

  // ---------------------------------------------------------------------------

  /** Every header name is a key of every dict the reader yields. */
  lemma {:induction false} RowsHaveHeaderKeys(fieldnames: seq<string>, rows: seq<seq<string>>, k: string)
    requires k in fieldnames
    ensures forall j :: 0 <= j < |Rows(fieldnames, rows)| ==> k in Keys(Rows(fieldnames, rows)[j].cells)
    decreases |rows|
  {
    if rows != [] {
      RowsHaveHeaderKeys(fieldnames, rows[..|rows| - 1], k);
      var last := rows[|rows| - 1];
      if last != [] {
        HeaderNamesAreKeys(fieldnames, last);
      }
    }
  }

  /** Without a non-blank row after the header, `next(reader)` raises StopIteration. */
  lemma {:induction false} RowsEmpty(fieldnames: seq<string>, rows: seq<seq<string>>)
    ensures Rows(fieldnames, rows) == [] <==> forall i :: 0 <= i < |rows| ==> rows[i] == []
    decreases |rows|
  {
    if rows != [] {
      RowsEmpty(fieldnames, rows[..|rows| - 1]);
      assert forall i :: 0 <= i < |rows| - 1 ==> rows[..|rows| - 1][i] == rows[i];
    }
  }

  lemma StopIterationExactly(lines: seq<seq<string>>)
    ensures ReverseMapping(lines) == Err(StopIteration) <==>
      lines == [] || forall i :: 1 <= i < |lines| ==> lines[i] == []
  {
    if lines != [] {
      RowsEmpty(lines[0], lines[1..]);
      assert forall i :: 1 <= i < |lines| ==> lines[i] == lines[1..][i - 1];
      var rows := Rows(lines[0], lines[1..]);
      if rows != [] && HasRequiredHeaders(lines[0]) {
        SelectNotStop(rows[1..]);
      }
    }
  }

  lemma {:induction false} SelectNotStop(rows: seq<DictRow>)
    ensures Select(rows) != Err(StopIteration)
    decreases |rows|
  {
    if rows != [] {
      SelectNotStop(rows[..|rows| - 1]);
    }
  }

  /** With a data row present, the ValueError is raised exactly when one of the
      two required headers is missing. */
  lemma MissingHeadersExactly(lines: seq<seq<string>>)
    requires |lines| >= 1 && exists i :: 1 <= i < |lines| && lines[i] != []
    ensures ReverseMapping(lines).Err? && ReverseMapping(lines).error.MissingHeaders? <==>
      !HasRequiredHeaders(lines[0])
    ensures !HasRequiredHeaders(lines[0]) ==> ReverseMapping(lines) == Err(MissingHeaders(lines[0]))
  {
    RowsEmpty(lines[0], lines[1..]);
    var i :| 1 <= i < |lines| && lines[i] != [];
    assert lines[1..][i - 1] == lines[i];
    var rows := Rows(lines[0], lines[1..]);
    if HasRequiredHeaders(lines[0]) {
      SelectNoKeyError(lines[0], lines[1..]);
    }
  }

  /** Once both required headers are present, every row has both keys, so the
      selection never raises KeyError. */
  lemma {:induction false} SelectOk(rows: seq<DictRow>)
    requires forall j :: 0 <= j < |rows| ==> "path" in Keys(rows[j].cells) && "input_files_field" in Keys(rows[j].cells)
    ensures Select(rows).Ok?
    decreases |rows|
  {
    if rows != [] {
      SelectOk(rows[..|rows| - 1]);
    }
  }

  lemma SelectNoKeyError(fieldnames: seq<string>, lines: seq<seq<string>>)
    requires HasRequiredHeaders(fieldnames) && Rows(fieldnames, lines) != []
    ensures Select(Rows(fieldnames, lines)[1..]).Ok?
  {
    var rows := Rows(fieldnames, lines);
    RowsHaveHeaderKeys(fieldnames, lines, "path");
    RowsHaveHeaderKeys(fieldnames, lines, "input_files_field");
    forall j | 0 <= j < |rows[1..]|
      ensures "path" in Keys(rows[1..][j].cells) && "input_files_field" in Keys(rows[1..][j].cells)
    {
      assert rows[1..][j] == rows[j + 1];
    }
    SelectOk(rows[1..]);
  }

  lemma NoKeyError(lines: seq<seq<string>>)
    ensures ReverseMapping(lines).Err? ==> !ReverseMapping(lines).error.KeyError?
  {
    if lines != [] {
      var rows := Rows(lines[0], lines[1..]);
      if rows != [] && HasRequiredHeaders(lines[0]) {
        SelectNoKeyError(lines[0], lines[1..]);
      }
    }
  }

  /** The first row after the header is never looked at: replacing it by any
      other non-blank row changes nothing. */
  lemma FilterRowSkipped(header: seq<string>, f: seq<string>, g: seq<string>, rest: seq<seq<string>>)
    requires f != [] && g != []
    ensures ReverseMapping([header, f] + rest) == ReverseMapping([header, g] + rest)
  {
    FilterRowDropped(header, f, rest);
    FilterRowDropped(header, g, rest);
  }

  lemma FilterRowDropped(header: seq<string>, f: seq<string>, rest: seq<seq<string>>)
    requires f != []
    ensures Read([header, f] + rest).1 == [MakeRow(header, f)] + Rows(header, rest)
  {
    assert ([header, f] + rest)[1..] == [f] + rest;
    RowsAppend(header, [f], rest);
    RowsBlank(header, f);
  }

  /** Rows are selected one by one, in file order. */
  lemma {:induction false} SelectAppend(a: seq<DictRow>, b: seq<DictRow>)
    requires Select(a).Ok? && Select(b).Ok?
    ensures Select(a + b) == Ok(Select(a).value + Select(b).value)
    decreases |b|
  {
    if b == [] {
      assert a + b == a;
      assert Select(a).value + Select(b).value == Select(a).value;
    } else {
      var b' := b[..|b| - 1];
      var row := b[|b| - 1];
      var ab := a + b;
      assert ab[..|ab| - 1] == a + b';
      assert ab[|ab| - 1] == row;
      assert Select(b').Ok? && SelectRow(row).Ok?;
      SelectAppend(a, b');
      var x := SelectRow(row).value;
      calc {
        Select(ab);
        { SelectSnoc(ab); }
        Ok(Select(a + b').value + x);
        Ok(Select(a).value + Select(b').value + x);
        { assert Select(a).value + Select(b').value + x == Select(a).value + (Select(b').value + x); }
        Ok(Select(a).value + (Select(b').value + x));
        { SelectSnoc(b); }
        Ok(Select(a).value + Select(b).value);
      }
    }
  }

  /** One unfolding of `Select` on a non-empty list whose parts succeed. */
  lemma SelectSnoc(rows: seq<DictRow>)
    requires rows != [] && Select(rows[..|rows| - 1]).Ok? && SelectRow(rows[|rows| - 1]).Ok?
    ensures Select(rows) == Ok(Select(rows[..|rows| - 1]).value + SelectRow(rows[|rows| - 1]).value)
  {
  }

  /** What a single row contributes when it has both keys: nothing when its
      field is blank or missing, the pair of its two cells otherwise. */
  lemma SelectOne(row: DictRow)
    requires "path" in Keys(row.cells) && "input_files_field" in Keys(row.cells)
    ensures var field := Get(row.cells, "input_files_field").value;
      Select([row]) == if Falsy(field) then Ok([]) else Ok([(Get(row.cells, "path").value, field)])
  {
    assert [row][..0] == [];
    assert Select([row][..0]) == Ok([]);
    assert [] + SelectRow(row).value == SelectRow(row).value;
  }

  /** No pair in the output has a blank field, and there is at most one pair per row. */
  lemma {:induction false} SelectFields(rows: seq<DictRow>)
    requires Select(rows).Ok?
    ensures |Select(rows).value| <= |rows|
    ensures forall p :: p in Select(rows).value ==> !Falsy(p.1)
    decreases |rows|
  {
    if rows != [] {
      SelectFields(rows[..|rows| - 1]);
    }
  }

  // ---------------------------------------------------------------------------
  // The imperative function

  /** `parse_input_csv(input_file)`, with the file handed in as its rows. */
  method ParseInputCsv(lines: seq<seq<string>>) returns (r: Result<seq<(Value, Value)>, ReadError>)
    ensures r == ReverseMapping(lines)
  {
    var (fieldnames, reader) := Read(lines);
    if reader == [] {
      return Err(StopIteration);
    }
    var reqd := HasRequiredHeaders(fieldnames.value);
    if !reqd {
      return Err(MissingHeaders(fieldnames.value));
    }
    var rows := reader[1..];
    var output := [];
    var n := 0;
    while n < |rows|
      invariant 0 <= n <= |rows|
      invariant Select(rows[..n]) == Ok(output)
    {
      assert rows[..n + 1][..n] == rows[..n];
      var row := rows[n];
      var field := Cell(row, "input_files_field");
      if field.Err? {
        SelectPrefixErr(rows, n + 1);
        return Err(field.error);
      }
      if !Falsy(field.value) {
        var path := Cell(row, "path");
        if path.Err? {
          SelectPrefixErr(rows, n + 1);
          return Err(path.error);
        }
        output := output + [(path.value, field.value)];
      } else {
        assert output + [] == output;
      }
      n := n + 1;
    }
    assert rows[..n] == rows;
    r := Ok(output);
  }

  lemma {:induction false} SelectPrefixErr(rows: seq<DictRow>, n: nat)
    requires n <= |rows| && Select(rows[..n]).Err?
    ensures Select(rows) == Select(rows[..n])
    decreases |rows| - n
  {
    if n < |rows| {
      assert rows[..n + 1][..n] == rows[..n];
      SelectPrefixErr(rows, n + 1);
    } else {
      assert rows[..n] == rows;
    }
  }
}
