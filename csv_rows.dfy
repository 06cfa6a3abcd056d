/**
 * The row layout shared by both `reverseTransform` functions
 * (src/lib/reverse_transform/buildcsv.py and src/lib/buildcsv.py): a header
 * row of column names, then one row per object with one cell per
 * `(path, column)` pair.  The file is modelled as the sequence of rows handed to
 * `writer.writerow`, in order; a cell is the Python value passed for it.
 *
 * The two functions differ only in how one cell is computed (which lookup they
 * call and which exceptions they catch), so the layout takes the cell function
 * as a parameter.  `E` is the exception that escapes a cell and ends the write.
 */
module CsvRows {
  import opened Wrappers
  import opened Strings
  import opened Json

  type Row = seq<Value>

  /** How an extracted tuple becomes one cell: a single value is kept as it is,
      no value gives `""`, several give the `str` of each joined with `,`. */
  function FormatEntry(entry: seq<Value>): (cell: Value)
  {
    if |entry| == 1 then entry[0]
    else if entry == [] then Str("")
    else Str(Join(",", ShowAll(entry)))
  }

  function ShowAll(entry: seq<Value>): (r: seq<string>)
    ensures |r| == |entry| && forall i :: 0 <= i < |entry| ==> r[i] == Show(entry[i])
  {
    seq(|entry|, i requires 0 <= i < |entry| => Show(entry[i]))
  }

  /** A joined cell can be split back into the `str` of the values it came from,
      as long as none of them contains a comma. */
  lemma FormatEntrySplits(entry: seq<Value>)
    requires |entry| >= 2
    requires forall i :: 0 <= i < |entry| ==> ',' !in Show(entry[i])
    ensures FormatEntry(entry).Str?
    ensures Split(FormatEntry(entry).s, ',') == ShowAll(entry)
  {
    SplitJoin(ShowAll(entry), ',');
  }

  function Header(pairs: seq<(string, string)>): (h: Row)
    ensures |h| == |pairs| && forall i :: 0 <= i < |pairs| ==> h[i] == Str(pairs[i].1)
  {
    seq(|pairs|, i requires 0 <= i < |pairs| => Str(pairs[i].1))
  }

  /** The data row of one object: the cells of the pairs in order, or the
      exception of the first cell that raises one. */
  function RowOf<E>(cellOf: (Value, string) -> Result<Value, E>, obj: Value, pairs: seq<(string, string)>): Result<Row, E>
    decreases |pairs|
  {
    if pairs == [] then Ok([])
    else
      var init :- RowOf(cellOf, obj, pairs[..|pairs| - 1]);
      var cell :- cellOf(obj, pairs[|pairs| - 1].0);
      Ok(init + [cell])
  }

  /** The rows written: the header, then the row of every object until one of
      them raises (the exception is returned beside the rows written so far). */
  function Table<E>(cellOf: (Value, string) -> Result<Value, E>, objs: seq<Value>, pairs: seq<(string, string)>)
    : (seq<Row>, Option<E>)
    decreases |objs|
  {
    if objs == [] then ([Header(pairs)], None)
    else
      var (rows, failure) := Table(cellOf, objs[..|objs| - 1], pairs);
      if failure.Some? then (rows, failure)
      else match RowOf(cellOf, objs[|objs| - 1], pairs)
        case Ok(row) => (rows + [row], None)
        case Err(e) => (rows, Some(e))
  }

  // ---------------------------------------------------------------------------

  /** A row has one cell per pair, and each cell is computed on its own: a
      cell that is blanked does not affect its neighbours. */
  lemma {:induction false} RowOfCells<E>(cellOf: (Value, string) -> Result<Value, E>, obj: Value, pairs: seq<(string, string)>)
    ensures RowOf(cellOf, obj, pairs).Ok? <==> forall j :: 0 <= j < |pairs| ==> cellOf(obj, pairs[j].0).Ok?
    ensures RowOf(cellOf, obj, pairs).Ok? ==>
      |RowOf(cellOf, obj, pairs).value| == |pairs| &&
      forall j :: 0 <= j < |pairs| ==> RowOf(cellOf, obj, pairs).value[j] == cellOf(obj, pairs[j].0).value
    decreases |pairs|
  {
    if pairs != [] {
      var init := pairs[..|pairs| - 1];
      RowOfCells(cellOf, obj, init);
      assert forall j :: 0 <= j < |init| ==> init[j] == pairs[j];
    }
  }

  /** The header comes first; without an escaping exception there is exactly
      one row per object, in input order; with one, the rows of the objects
      before the one that raised. */
  lemma {:induction false} TableRows<E>(cellOf: (Value, string) -> Result<Value, E>, objs: seq<Value>, pairs: seq<(string, string)>)
    ensures var (rows, failure) := Table(cellOf, objs, pairs);
      && |rows| >= 1 && rows[0] == Header(pairs)
      && (failure.None? ==>
            |rows| == 1 + |objs| &&
            forall i :: 0 <= i < |objs| ==> RowOf(cellOf, objs[i], pairs) == Ok(rows[i + 1]))
      && (failure.Some? ==>
            exists k :: 0 <= k < |objs| && |rows| == 1 + k && RowOf(cellOf, objs[k], pairs) == Err(failure.value) &&
              forall i :: 0 <= i < k ==> RowOf(cellOf, objs[i], pairs) == Ok(rows[i + 1]))
    decreases |objs|
  {
    if objs != [] {
      var init := objs[..|objs| - 1];
      TableRows(cellOf, init, pairs);
      assert forall i :: 0 <= i < |init| ==> init[i] == objs[i];
    }
  }

  /** Once an object has raised, later objects are not looked at. */
  lemma {:induction false} TablePrefixFailure<E>(cellOf: (Value, string) -> Result<Value, E>, objs: seq<Value>, n: nat, pairs: seq<(string, string)>)
    requires n <= |objs| && Table(cellOf, objs[..n], pairs).1.Some?
    ensures Table(cellOf, objs, pairs) == Table(cellOf, objs[..n], pairs)
    decreases |objs| - n
  {
    if n < |objs| {
      assert objs[..n + 1][..n] == objs[..n];
      TablePrefixFailure(cellOf, objs, n + 1, pairs);
    } else {
      assert objs[..n] == objs;
    }
  }

  /** Once a cell has raised, later cells of the row are not looked at. */
  lemma {:induction false} RowPrefixFailure<E>(cellOf: (Value, string) -> Result<Value, E>, obj: Value, pairs: seq<(string, string)>, n: nat)
    requires n <= |pairs| && RowOf(cellOf, obj, pairs[..n]).Err?
    ensures RowOf(cellOf, obj, pairs) == RowOf(cellOf, obj, pairs[..n])
    decreases |pairs| - n
  {
    if n < |pairs| {
      assert pairs[..n + 1][..n] == pairs[..n];
      RowPrefixFailure(cellOf, obj, pairs, n + 1);
    } else {
      assert pairs[..n] == pairs;
    }
  }

  /** The header loop, `fields = [field[1] for field in pathsTuple]`. */
  method BuildHeader(pathsTuple: seq<(string, string)>) returns (fields: Row)
    ensures fields == Header(pathsTuple)
  {
    fields := [];
    var f := 0;
    while f < |pathsTuple|
      invariant 0 <= f <= |pathsTuple|
      invariant fields == Header(pathsTuple[..f])
    {
      fields := fields + [Str(pathsTuple[f].1)];
      f := f + 1;
    }
    assert pathsTuple[..f] == pathsTuple;
  }
}
