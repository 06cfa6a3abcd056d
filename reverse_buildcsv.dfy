/**
 * `reverseTransform` of src/lib/reverse_transform/buildcsv.py: the cells come
 * from `get_path_value`, and both KeyError and ValueError leave a cell blank.
 */
module ReverseBuildCsv {
  import opened Wrappers
  import opened Strings
  import opened Json
  import opened ReverseTransform
  import opened CsvRows

  /** The cell for one `(path, column)` pair. A KeyError or ValueError leaves the
      cell blank; the TypeError of indexing a non-dict escapes and aborts. */
  function CellOf(obj: Value, path: string): Result<Value, PathError>
  {
    match Extract(obj, path)
    case Ok(entry) => Ok(FormatEntry(entry))
    case Err(e) => if IsValueError(e) then Ok(Str("")) else Err(e)
  }

  /** The three ways a cell is filled, the blank cell of a caught error, and the
      only error that escapes. */
  lemma CellCases(obj: Value, path: string)
    ensures Extract(obj, path).Ok? && |Extract(obj, path).value| == 1 ==>
      CellOf(obj, path) == Ok(Extract(obj, path).value[0])
    ensures Extract(obj, path) == Ok([]) ==> CellOf(obj, path) == Ok(Str(""))
    ensures Extract(obj, path).Ok? && |Extract(obj, path).value| >= 2 ==>
      CellOf(obj, path) == Ok(Str(Join(",", ShowAll(Extract(obj, path).value))))
    ensures Extract(obj, path).Err? && IsValueError(Extract(obj, path).error) ==>
      CellOf(obj, path) == Ok(Str(""))
    ensures CellOf(obj, path).Err? <==> Extract(obj, path).Err? && Extract(obj, path).error.NotADict?
  {
  }

  /** `reverseTransform(dictList, pathsTuple, csvPath)`, with the file replaced by
      the rows written to it and the escaping TypeError returned beside them. */
  method ReverseTransformRows(dictList: seq<Value>, pathsTuple: seq<(string, string)>)
    returns (rows: seq<Row>, failure: Option<PathError>)
    ensures (rows, failure) == Table(CellOf, dictList, pathsTuple)
    ensures |rows| >= 1 && rows[0] == Header(pathsTuple)
    ensures failure.None? ==> |rows| == 1 + |dictList|
    ensures forall i :: 1 <= i < |rows| ==> |rows[i]| == |pathsTuple|
  {
    var fields := BuildHeader(pathsTuple);
    rows := [fields];
    var n := 0;
    while n < |dictList|
      invariant 0 <= n <= |dictList|
      invariant Table(CellOf, dictList[..n], pathsTuple) == (rows, None)
      invariant forall i :: 1 <= i < |rows| ==> |rows[i]| == |pathsTuple|
    {
      assert dictList[..n + 1][..n] == dictList[..n];
      var row := BuildRow(dictList[n], pathsTuple);
      if row.Err? {
        TablePrefixFailure(CellOf, dictList, n + 1, pathsTuple);
        TableRows(CellOf, dictList, pathsTuple);
        return rows, Some(row.error);
      }
      RowOfCells(CellOf, dictList[n], pathsTuple);
      rows := rows + [row.value];
      n := n + 1;
    }
    assert dictList[..n] == dictList;
    TableRows(CellOf, dictList, pathsTuple);
    failure := None;
  }

  /** The inner loop over `pathsTuple` that fills `dataFields` for one object. */
  method BuildRow(element: Value, pathsTuple: seq<(string, string)>) returns (r: Result<Row, PathError>)
    ensures r == RowOf(CellOf, element, pathsTuple)
  {
    var dataFields := [];
    var f := 0;
    while f < |pathsTuple|
      invariant 0 <= f <= |pathsTuple|
      invariant RowOf(CellOf, element, pathsTuple[..f]) == Ok(dataFields)
    {
      assert pathsTuple[..f + 1][..f] == pathsTuple[..f];
      var entry := GetPathValue(element, pathsTuple[f].0);
      var cell: Value;
      if entry.Ok? {
        cell := FormatEntry(entry.value);
      } else if IsValueError(entry.error) {
        cell := Str("");
      } else {
        RowPrefixFailure(CellOf, element, pathsTuple, f + 1);
        return Err(entry.error);
      }
      assert CellOf(element, pathsTuple[f].0) == Ok(cell);
      dataFields := dataFields + [cell];
      f := f + 1;
    }
    assert pathsTuple[..f] == pathsTuple;
    return Ok(dataFields);
  }
}
