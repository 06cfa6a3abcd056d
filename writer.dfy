/**
 * `write_mapping_template_csv` of src/lib/generate_mapping/writer.py, with the
 * file replaced by the rows handed to `writer.writerow`, in order.
 */
module Writer {
  import opened Wrappers
  import opened Strings
  import opened Json
  import opened CsvReader
  import Generator
  import ReverseParser
  import Parser

  /** The fixed header row. */
  const Header: seq<string> := ["path", "input_files_field", "split", "strip", "description", "required"]

  /** The six empty cells of the filter row. */
  const FilterRow: seq<string> := ["", "", "", "", "", ""]

  /** The row of one field, with `field` in the `input_files_field` column (the
      writer leaves it empty; the user fills it in later). */
  function DataRow(spec: Generator.FieldSpec, field: string): (row: seq<string>)
    ensures |row| == |Header|
  {
    [spec.path, field, "", "", spec.description, if spec.required then "true" else "false"]
  }

  /** The template with the `input_files_field` cells set to `fields`. */
  function FilledTemplate(specs: seq<Generator.FieldSpec>, fields: seq<string>): (t: seq<seq<string>>)
    requires |fields| == |specs|
    ensures |t| == 2 + |specs| && t[0] == Header && t[1] == FilterRow
    ensures forall i :: 0 <= i < |specs| ==> t[i + 2] == DataRow(specs[i], fields[i])
  {
    [Header, FilterRow] + seq(|specs|, i requires 0 <= i < |specs| => DataRow(specs[i], fields[i]))
  }

  function Blanks(n: nat): (b: seq<string>)
    ensures |b| == n && forall i :: 0 <= i < n ==> b[i] == ""
  {
    seq(n, i => "")
  }

  /** The rows the writer emits. */
  function Template(specs: seq<Generator.FieldSpec>): seq<seq<string>>
  {
    FilledTemplate(specs, Blanks(|specs|))
  }

  /** `write_mapping_template_csv(rows, out_file)`: the header, the empty filter
      row, then one row per field in input order. */
  method WriteMappingTemplateCsv(rows: seq<Generator.FieldSpec>) returns (out: seq<seq<string>>)
    ensures out == Template(rows)
    ensures |out| == 2 + |rows|
    ensures forall i :: 0 <= i < |rows| ==>
      out[i + 2][0] == rows[i].path && out[i + 2][1] == "" && out[i + 2][4] == rows[i].description &&
      out[i + 2][5] == (if rows[i].required then "true" else "false")
  {
    out := [Header];
    out := out + [seq(|Header|, i => "")];
    var n := 0;
    while n < |rows|
      invariant 0 <= n <= |rows|
      invariant |out| == 2 + n && out[0] == Header && out[1] == FilterRow
      invariant forall i :: 0 <= i < n ==> out[i + 2] == DataRow(rows[i], "")
    {
      var row := rows[n];
      var required := if row.required then "true" else "false";
      out := out + [[row.path, "", "", "", row.description, required]];
      n := n + 1;
    }
  }

  // ---------------------------------------------------------------------------
  // Reading a template back

  /** The pairs the reverse parser should return: the rows whose field was filled in. */
  function Pairs(specs: seq<Generator.FieldSpec>, fields: seq<string>): seq<(Value, Value)>
    requires |fields| == |specs|
    decreases |specs|
  {
    if specs == [] then []
    else
      var n := |specs| - 1;
      Pairs(specs[..n], fields[..n]) + (if fields[n] == "" then [] else [(Str(specs[n].path), Str(fields[n]))])
  }

  lemma HeaderDistinct(i: nat)
    requires i < |Header|
    ensures forall j :: 0 <= j < |Header| && j != i ==> Header[j] != Header[i]
  {
  }

  /** The dicts the reader yields for the data rows. */
  function DataDicts(specs: seq<Generator.FieldSpec>, fields: seq<string>): (d: seq<DictRow>)
    requires |fields| == |specs|
    ensures |d| == |specs|
  {
    seq(|specs|, i requires 0 <= i < |specs| => MakeRow(Header, DataRow(specs[i], fields[i])))
  }

  lemma DataDictCells(spec: Generator.FieldSpec, field: string)
    ensures Get(MakeRow(Header, DataRow(spec, field)).cells, "path") == Some(Str(spec.path))
    ensures Get(MakeRow(Header, DataRow(spec, field)).cells, "input_files_field") == Some(Str(field))
  {
    var row := DataRow(spec, field);
    assert Header[0] == "path" && Header[1] == "input_files_field";
    assert row[0] == spec.path && row[1] == field;
    DataCell(row, 0);
    DataCell(row, 1);
  }

  /** A six-cell row read under the header gives cell `i` under column `i`. */
  lemma DataCell(row: seq<string>, i: nat)
    requires |row| == |Header| && i < |Header|
    ensures Get(MakeRow(Header, row).cells, Header[i]) == Some(Str(row[i]))
  {
    HeaderDistinct(i);
    CellOfColumn(Header, row, i);
  }

  lemma {:induction false} SelectDataDicts(specs: seq<Generator.FieldSpec>, fields: seq<string>)
    requires |fields| == |specs|
    ensures ReverseParser.Select(DataDicts(specs, fields)) == Ok(Pairs(specs, fields))
    decreases |specs|
  {
    if specs != [] {
      var n := |specs| - 1;
      var d := DataDicts(specs, fields);
      var last := if fields[n] == "" then [] else [(Str(specs[n].path), Str(fields[n]))];
      assert d[..n] == DataDicts(specs[..n], fields[..n]);
      assert ReverseParser.Select(d[..n]) == Ok(Pairs(specs[..n], fields[..n])) by {
        SelectDataDicts(specs[..n], fields[..n]);
      }
      assert ReverseParser.SelectRow(d[n]) == Ok(last) by {
        DataDictCells(specs[n], fields[n]);
        SelectRowOf(d[n], specs[n].path, fields[n]);
      }
      assert Pairs(specs, fields) == Pairs(specs[..n], fields[..n]) + last;
      ReverseParser.SelectSnoc(d);
    }
  }

  lemma SelectRowOf(d: DictRow, path: string, field: string)
    requires Get(d.cells, "path") == Some(Str(path)) && Get(d.cells, "input_files_field") == Some(Str(field))
    ensures ReverseParser.SelectRow(d) == Ok(if field == "" then [] else [(Str(path), Str(field))])
  {
  }

  /** The reverse parser reads a filled-in template back as the `(path, field)`
      pairs of the rows whose field is filled in, in template order. */
  lemma FilledTemplateReadsBack(specs: seq<Generator.FieldSpec>, fields: seq<string>)
    requires |fields| == |specs|
    ensures ReverseParser.ReverseMapping(FilledTemplate(specs, fields)) == Ok(Pairs(specs, fields))
  {
    var t := FilledTemplate(specs, fields);
    assert Rows(Header, t[1..])[1..] == DataDicts(specs, fields) by {
      TemplateDicts(specs, fields);
    }
    assert ReverseParser.Select(DataDicts(specs, fields)) == Ok(Pairs(specs, fields)) by {
      SelectDataDicts(specs, fields);
    }
  }

  /** The reader yields the filter row's dict, then one dict per data row. */
  lemma TemplateDicts(specs: seq<Generator.FieldSpec>, fields: seq<string>)
    requires |fields| == |specs|
    ensures var t := FilledTemplate(specs, fields);
      |Rows(Header, t[1..])| == 1 + |specs| && Rows(Header, t[1..])[1..] == DataDicts(specs, fields)
  {
    var data := FilledTemplate(specs, fields)[1..];
    TemplateRowsNotBlank(specs, fields);
    RowsCount(Header, data);
    var rows := Rows(Header, data);
    var d := DataDicts(specs, fields);
    forall i | 0 <= i < |specs| ensures rows[1..][i] == d[i] {
      TemplateDataRow(specs, fields, i);
      assert rows[i + 1] == MakeRow(Header, data[i + 1]);
    }
    assert rows[1..] == d;
  }

  lemma TemplateRowsNotBlank(specs: seq<Generator.FieldSpec>, fields: seq<string>)
    requires |fields| == |specs|
    ensures var data := FilledTemplate(specs, fields)[1..];
      forall i :: 0 <= i < |data| ==> data[i] != []
  {
    var t := FilledTemplate(specs, fields);
    forall i | 0 <= i < |t| - 1 ensures t[1..][i] != [] {
      assert t[1..][i] == t[i + 1];
      if i > 0 {
        assert t[i + 1] == DataRow(specs[i - 1], fields[i - 1]);
      }
    }
  }

  lemma TemplateDataRow(specs: seq<Generator.FieldSpec>, fields: seq<string>, i: nat)
    requires |fields| == |specs| && i < |specs|
    ensures FilledTemplate(specs, fields)[1..][i + 1] == DataRow(specs[i], fields[i])
  {
    var t := FilledTemplate(specs, fields);
    assert t[1..][i + 1] == t[i + 2];
  }

  lemma {:induction false} PairsBlank(specs: seq<Generator.FieldSpec>)
    ensures Pairs(specs, Blanks(|specs|)) == []
    decreases |specs|
  {
    if specs != [] {
      var n := |specs| - 1;
      assert Blanks(|specs|)[..n] == Blanks(n);
      PairsBlank(specs[..n]);
    }
  }

  /** A template as written maps nothing: every field cell is empty. */
  lemma FreshTemplateReadsEmpty(specs: seq<Generator.FieldSpec>)
    ensures ReverseParser.ReverseMapping(Template(specs)) == Ok([])
  {
    FilledTemplateReadsBack(specs, Blanks(|specs|));
    PairsBlank(specs);
  }

  lemma {:induction false} BlankFieldRowsSkipped(rows: seq<seq<string>>, filename: string)
    requires forall i :: 0 <= i < |rows| ==> |rows[i]| >= 2 && rows[i][1] == ""
    ensures Parser.ApplyRows(rows, filename) == Ok([])
    decreases |rows|
  {
    if rows != [] {
      BlankFieldRowsSkipped(rows[..|rows| - 1], filename);
      assert Trim(rows[|rows| - 1][1]) == "";
    }
  }

  /** A template as written, read as a forward mapping file, gives an empty
      mapping and no filter. */
  lemma FreshTemplateMapsNothing(specs: seq<Generator.FieldSpec>, filename: string)
    ensures Parser.NestedMapping(Template(specs), filename) == Ok(([], None))
  {
    var t := Template(specs);
    TemplateRowsSkipped(specs, filename);
    FilterRowEmpty();
    Parser.NestedMappingParts(t, filename);
  }

  lemma TemplateRowsSkipped(specs: seq<Generator.FieldSpec>, filename: string)
    ensures Parser.ApplyRows(Template(specs)[2..], filename) == Ok([])
  {
    var fields := Blanks(|specs|);
    var rows := FilledTemplate(specs, fields)[2..];
    forall i | 0 <= i < |rows| ensures |rows[i]| >= 2 && rows[i][1] == "" {
      DataRowField(specs[i], fields[i]);
    }
    BlankFieldRowsSkipped(rows, filename);
  }

  lemma DataRowField(spec: Generator.FieldSpec, field: string)
    ensures |DataRow(spec, field)| >= 2 && DataRow(spec, field)[1] == field
  {
  }

  /** The written filter row sets no filter. */
  lemma FilterRowEmpty()
    ensures Parser.FilterOf(FilterRow) == None
  {
    assert Trim("") == "";
  }
}
