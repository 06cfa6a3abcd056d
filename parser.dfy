/**
 * The forward-mode readers of src/lib/parser.py, given the rows `csv.reader`
 * split each file into:
 *  - `parse_input_csv`: every data row of a table, tagged with the table's name
 *    (the file's base name without extension) and with trimmed header keys;
 *  - `parse_mapping`: the flat `output_field -> {"path": ...}` mapping;
 *  - `parse_nested_mapping`: the filter row and the nested mapping tree built
 *    from dotted output paths, where `name[]` marks a list holding one template.
 */
module Parser {
  import opened Wrappers
  import opened Strings
  import opened Json
  import opened CsvReader

  // ---------------------------------------------------------------------------
  // os.path.basename and os.path.splitext

  /** The part after the last `/`. */
  function Basename(p: string): (r: string)
    decreases |p|
  {
    if p == [] || p[|p| - 1] == '/' then []
    else Basename(p[..|p| - 1]) + [p[|p| - 1]]
  }

  /** The base name is the end of the path after its last `/`. */
  lemma {:induction false} BasenameSuffix(p: string)
    ensures '/' !in Basename(p)
    ensures |Basename(p)| <= |p| && Basename(p) == p[|p| - |Basename(p)|..]
    ensures |Basename(p)| < |p| ==> p[|p| - |Basename(p)| - 1] == '/'
    decreases |p|
  {
    if p != [] && p[|p| - 1] != '/' {
      var init := p[..|p| - 1];
      BasenameSuffix(init);
      var b := Basename(init);
      assert init[|init| - |b|..] + [p[|p| - 1]] == p[|p| - |b| - 1..];
    }
  }

  /** The index of the last `.`, if any. */
  function LastDot(b: string): (r: Option<nat>)
    ensures r.Some? ==> r.value < |b| && b[r.value] == '.' && '.' !in b[r.value + 1..]
    ensures r.None? ==> '.' !in b
    decreases |b|
  {
    if b == [] then None
    else if b[|b| - 1] == '.' then Some(|b| - 1)
    else
      var r := LastDot(b[..|b| - 1]);
      assert r.Some? ==> b[r.value + 1..] == b[..|b| - 1][r.value + 1..] + [b[|b| - 1]];
      assert r.None? ==> b == b[..|b| - 1] + [b[|b| - 1]];
      r
  }

  /** `os.path.splitext(b)[0]`: drop the extension after the last dot, unless
      everything before that dot is dots (a hidden file has no extension). */
  function Root(b: string): string
  {
    match LastDot(b)
    case Some(i) => if exists j :: 0 <= j < i && b[j] != '.' then b[..i] else b
    case None => b
  }

  /** The table name of an input file. */
  function Stem(path: string): string
  {
    Root(Basename(path))
  }

  lemma {:induction false} BasenameAfterSlash(dir: string, name: string)
    requires '/' !in name
    requires dir == "" || dir[|dir| - 1] == '/'
    ensures Basename(dir + name) == name
    decreases |name|
  {
    if name == [] {
      assert dir + name == dir;
    } else {
      var p := dir + name;
      var init, c := name[..|name| - 1], name[|name| - 1];
      assert Basename(dir + init) == init by {
        assert '/' !in init by {
          forall j | 0 <= j < |init| ensures init[j] != '/' {
            assert init[j] == name[j];
          }
        }
        BasenameAfterSlash(dir, init);
      }
      assert Basename(p) == Basename(dir + init) + [c] by {
        assert p[..|p| - 1] == dir + init;
        assert p[|p| - 1] == c && c in name;
      }
      assert init + [c] == name;
    }
  }

  /** A suffix without dots does not move the last dot. */
  lemma {:induction false} LastDotNoDotSuffix(b: string, t: string)
    requires '.' !in t
    ensures LastDot(b + t) == LastDot(b)
    decreases |t|
  {
    if t == [] {
      assert b + t == b;
    } else {
      var u := t[..|t| - 1];
      assert (b + t)[..|b + t| - 1] == b + u;
      assert (b + t)[|b + t| - 1] == t[|t| - 1];
      assert '.' !in u by {
        forall j | 0 <= j < |u| ensures u[j] != '.' {
          assert u[j] == t[j];
        }
      }
      LastDotNoDotSuffix(b, u);
    }
  }

  lemma {:induction false} LastDotOfExtension(name: string, ext: string)
    requires '.' !in ext
    ensures LastDot(name + "." + ext) == Some(|name|)
  {
    var d := name + ".";
    assert LastDot(d) == Some(|name|);
    LastDotNoDotSuffix(d, ext);
  }

  lemma RootAt(b: string, i: nat, j: nat)
    requires LastDot(b) == Some(i) && j < i && b[j] != '.'
    ensures Root(b) == b[..i]
  {
  }

  /** `<dir>/<name>.csv` is the table `name`, for any name without `/` that is
      not made of dots only. */
  lemma {:induction false} StemOfCsv(dir: string, name: string)
    requires '/' !in name
    requires exists j :: 0 <= j < |name| && name[j] != '.'
    requires dir == "" || dir[|dir| - 1] == '/'
    ensures Stem(dir + name + ".csv") == name
  {
    var b := name + ".csv";
    assert Basename(dir + name + ".csv") == b by {
      assert '/' !in b by {
        forall j | 0 <= j < |b| ensures b[j] != '/' {
          if j < |name| {
            assert b[j] == name[j];
          }
        }
      }
      assert dir + name + ".csv" == dir + b;
      BasenameAfterSlash(dir, b);
    }
    assert Root(b) == name by {
      assert b == name + "." + "csv";
      LastDotOfExtension(name, "csv");
      var j :| 0 <= j < |name| && name[j] != '.';
      assert b[j] == name[j];
      RootAt(b, |name|, j);
      assert b[..|name|] == name;
    }
  }

  // ---------------------------------------------------------------------------
  // parse_input_csv

  /** One entry `{table: normalized}` of the list; `rest` is the entry under the
      key `None`, if the row had more cells than the header. */
  datatype InputRow = InputRow(table: string, cells: Fields, rest: Option<seq<string>>)

  /** `{k.strip(): v for k, v in row.items()}`: keys that strip to the same
      string keep the first one's position and the last one's value. */
  function TrimKeys(fs: Fields): Fields
    decreases |fs|
  {
    if fs == [] then []
    else Put(TrimKeys(fs[..|fs| - 1]), Trim(fs[|fs| - 1].0), fs[|fs| - 1].1)
  }

  /** The loop `for row in reader: input.append({filename: normalized})`. */
  function Tag(table: string, rows: seq<DictRow>): seq<InputRow>
    decreases |rows|
  {
    if rows == [] then []
    else
      var last := rows[|rows| - 1];
      Tag(table, rows[..|rows| - 1]) + [InputRow(table, TrimKeys(last.cells), last.rest)]
  }

  function InputRows(inputFile: string, lines: seq<seq<string>>): seq<InputRow>
  {
    Tag(Stem(inputFile), Read(lines).1)
  }

  /** The original keys, stripped, in order. */
  function StrippedKeys(fs: Fields): (r: seq<string>)
    ensures |r| == |fs| && forall i :: 0 <= i < |fs| ==> r[i] == Trim(fs[i].0)
    decreases |fs|
  {
    if fs == [] then [] else StrippedKeys(fs[..|fs| - 1]) + [Trim(fs[|fs| - 1].0)]
  }

  /** The keys after normalisation are the stripped original keys. */
  lemma {:induction false} TrimKeysKeys(fs: Fields)
    ensures forall k :: k in Keys(TrimKeys(fs)) <==> k in StrippedKeys(fs)
    decreases |fs|
  {
    if fs != [] {
      TrimKeysKeys(fs[..|fs| - 1]);
      PutKeys(TrimKeys(fs[..|fs| - 1]), Trim(fs[|fs| - 1].0), fs[|fs| - 1].1);
    }
  }

  /** Every normalised key is stripped already. */
  lemma TrimKeysTrimmed(fs: Fields, k: string)
    requires k in Keys(TrimKeys(fs))
    ensures Trim(k) == k
  {
    TrimKeysKeys(fs);
    var i :| 0 <= i < |fs| && StrippedKeys(fs)[i] == k;
    TrimIdempotent(fs[i].0);
  }

  /** A key reads the value of the last original key that strips to it. */
  lemma {:induction false} TrimKeysLastWins(fs: Fields, i: nat)
    requires i < |fs|
    requires forall j :: i < j < |fs| ==> Trim(fs[j].0) != Trim(fs[i].0)
    ensures Get(TrimKeys(fs), Trim(fs[i].0)) == Some(fs[i].1)
    decreases |fs|
  {
    var init := fs[..|fs| - 1];
    PutGet(TrimKeys(init), Trim(fs[|fs| - 1].0), fs[|fs| - 1].1, Trim(fs[i].0));
    if i < |fs| - 1 {
      assert init[i] == fs[i];
      forall j | i < j < |init| ensures Trim(init[j].0) != Trim(init[i].0) {
        assert init[j] == fs[j];
      }
      TrimKeysLastWins(init, i);
    }
  }

  /** One entry per row read, in order, each tagged with the table name and
      holding that row with its keys stripped. */
  lemma {:induction false} TagRows(table: string, rows: seq<DictRow>)
    ensures |Tag(table, rows)| == |rows|
    ensures forall i :: 0 <= i < |rows| ==>
      Tag(table, rows)[i] == InputRow(table, TrimKeys(rows[i].cells), rows[i].rest)
    decreases |rows|
  {
    if rows != [] {
      TagRows(table, rows[..|rows| - 1]);
    }
  }

  /** `parse_input_csv(input_file, filename)`. The `filename` argument is
      overwritten before use, so it does not affect the result. */
  method ParseInputCsv(inputFile: string, filename: string, lines: seq<seq<string>>) returns (input: seq<InputRow>)
    ensures input == InputRows(inputFile, lines)
  {
    var rows := Read(lines).1;
    var table := Stem(inputFile);
    input := [];
    var i := 0;
    while i < |rows|
      invariant 0 <= i <= |rows|
      invariant input == Tag(table, rows[..i])
    {
      assert rows[..i + 1][..i] == rows[..i];
      var normalized := NormalizeKeys(rows[i].cells);
      input := input + [InputRow(table, normalized, rows[i].rest)];
      i := i + 1;
    }
    assert rows[..i] == rows;
  }

  /** The dict comprehension that strips the header keys of one row. */
  method NormalizeKeys(row: Fields) returns (normalized: Fields)
    ensures normalized == TrimKeys(row)
  {
    normalized := [];
    var i := 0;
    while i < |row|
      invariant 0 <= i <= |row|
      invariant normalized == TrimKeys(row[..i])
    {
      assert row[..i + 1][..i] == row[..i];
      normalized := Put(normalized, Trim(row[i].0), row[i].1);
      i := i + 1;
    }
    assert row[..i] == row;
  }

  // ---------------------------------------------------------------------------
  // parse_mapping

  datatype ParseError =
    | StopIteration    // `next(reader)` on an empty file
    | IndexError       // a row with fewer than two cells

  function PathOf(filename: string, field: string): Value
  {
    Obj([("path", Str(filename + "." + field))])
  }

  /** The loop `for row in reader: mapping[row[1]] = {"path": filename + "." + row[0]}`. */
  function MappingOf(rows: seq<seq<string>>, filename: string): Result<Fields, ParseError>
    decreases |rows|
  {
    if rows == [] then Ok([])
    else
      var m :- MappingOf(rows[..|rows| - 1], filename);
      var row := rows[|rows| - 1];
      if |row| < 2 then Err(IndexError) else Ok(Put(m, row[1], PathOf(filename, row[0])))
  }

  /** `parse_mapping(mapping_file, filename)`: the header row is skipped. */
  function Mapping(lines: seq<seq<string>>, filename: string): Result<Fields, ParseError>
  {
    if lines == [] then Err(StopIteration) else MappingOf(lines[1..], filename)
  }

  /** The mapping is read iff every row after the header has two cells. */
  lemma {:induction false} MappingOfOk(rows: seq<seq<string>>, filename: string)
    ensures MappingOf(rows, filename).Ok? <==> forall i :: 0 <= i < |rows| ==> |rows[i]| >= 2
    decreases |rows|
  {
    if rows != [] {
      var init := rows[..|rows| - 1];
      MappingOfOk(init, filename);
      assert forall i :: 0 <= i < |init| ==> init[i] == rows[i];
    }
  }

  /** The output fields named in column 2, in order. */
  function OutputFields(rows: seq<seq<string>>): seq<string>
    decreases |rows|
  {
    if rows == [] then []
    else
      var last := rows[|rows| - 1];
      OutputFields(rows[..|rows| - 1]) + (if |last| >= 2 then [last[1]] else [])
  }

  /** The mapping's keys are the output fields named in column 2. */
  lemma {:induction false} MappingOfKeys(rows: seq<seq<string>>, filename: string)
    requires MappingOf(rows, filename).Ok?
    ensures forall k :: k in Keys(MappingOf(rows, filename).value) <==> k in OutputFields(rows)
    decreases |rows|
  {
    if rows != [] {
      MappingOfKeys(rows[..|rows| - 1], filename);
      var row := rows[|rows| - 1];
      PutKeys(MappingOf(rows[..|rows| - 1], filename).value, row[1], PathOf(filename, row[0]));
    }
  }

  /** An output field maps to the path of the last row that names it. */
  lemma {:induction false} MappingOfLastWins(rows: seq<seq<string>>, filename: string, i: nat)
    requires forall j :: 0 <= j < |rows| ==> |rows[j]| >= 2
    requires i < |rows| && forall j :: i < j < |rows| ==> rows[j][1] != rows[i][1]
    ensures MappingOf(rows, filename).Ok? && Get(MappingOf(rows, filename).value, rows[i][1]) == Some(PathOf(filename, rows[i][0]))
    decreases |rows|
  {
    var init := rows[..|rows| - 1];
    MappingOfOk(rows, filename);
    MappingOfOk(init, filename);
    var last := rows[|rows| - 1];
    PutGet(MappingOf(init, filename).value, last[1], PathOf(filename, last[0]), rows[i][1]);
    if i < |rows| - 1 {
      assert init[i] == rows[i];
      assert forall j :: 0 <= j < |init| ==> init[j] == rows[j];
      MappingOfLastWins(init, filename, i);
    }
  }

  /** `parse_mapping(mapping_file, filename)`. */
  method ParseMapping(lines: seq<seq<string>>, filename: string) returns (r: Result<Fields, ParseError>)
    ensures r == Mapping(lines, filename)
  {
    if lines == [] {
      return Err(StopIteration);
    }
    var rows := lines[1..];
    var mapping := [];
    var i := 0;
    while i < |rows|
      invariant 0 <= i <= |rows|
      invariant MappingOf(rows[..i], filename) == Ok(mapping)
    {
      assert rows[..i + 1][..i] == rows[..i];
      var row := rows[i];
      if |row| < 2 {
        MappingOfPrefixErr(rows, filename, i + 1);
        return Err(IndexError);
      }
      mapping := Put(mapping, row[1], PathOf(filename, row[0]));
      i := i + 1;
    }
    assert rows[..i] == rows;
    r := Ok(mapping);
  }

  lemma {:induction false} MappingOfPrefixErr(rows: seq<seq<string>>, filename: string, n: nat)
    requires n <= |rows| && MappingOf(rows[..n], filename).Err?
    ensures MappingOf(rows, filename) == MappingOf(rows[..n], filename)
    decreases |rows| - n
  {
    if n < |rows| {
      assert rows[..n + 1][..n] == rows[..n];
      MappingOfPrefixErr(rows, filename, n + 1);
    } else {
      assert rows[..n] == rows;
    }
  }

  // ---------------------------------------------------------------------------
  // parse_nested_mapping

  /** The TypeError, AttributeError, KeyError or IndexError raised when a path
      descends into something that is not a dict (a leaf's `path` string, or a
      list where a dict was expected). */
  datatype Crash = Crash

  /** `part[:-2]` and whether the part ends in `[]`. */
  function Segment(part: string): (string, bool)
  {
    if EndsWith(part, "[]") then (DropLast(part, 2), true) else (part, false)
  }

  /** Writes `leaf` at `parts` below `level`, as the loop over
      `enumerate(parts)` does through its `current_level` variable. Anything
      but a dict as the current level makes the next subscript, `in` test or
      `setdefault` raise. */
  function InsertAt(level: Value, parts: seq<string>, leaf: Value): (r: Result<Value, Crash>)
    requires parts != []
    ensures r.Ok? ==> level.Obj? && r.value.Obj?
    decreases |parts|, 0
  {
    if !level.Obj? then Err(Crash)
    else
      var (key, isList) := Segment(parts[0]);
      var c :- NewChild(Get(level.fields, key), isList, parts[1..], leaf);
      Ok(if c.Some? then Obj(Put(level.fields, key, c.value)) else level)
  }

  /** What one part does to the entry `prev` under its key (`None` when the
      entry is left as it is):
       - a `name[]` part makes the entry `[{}]` if it is absent and descends
         into its first element; if the `[]` part is the last one, that
         element is only evaluated;
       - the last plain part stores the leaf;
       - any other plain part reuses the entry (`setdefault(key, {})`). */
  function NewChild(prev: Option<Value>, isList: bool, rest: seq<string>, leaf: Value): Result<Option<Value>, Crash>
    decreases |rest|, 2
  {
    if isList then
      match prev
      case None =>
        var sub :- Descend(Obj([]), rest, leaf);
        Ok(Some(Arr([sub])))
      case Some(v) =>
        if v.Arr? && |v.items| > 0 then
          var sub :- Descend(v.items[0], rest, leaf);
          Ok(Some(Arr([sub] + v.items[1..])))
        else if rest == [] && v.Str? && |v.s| > 0 then Ok(None)
        else Err(Crash)
    else if rest == [] then Ok(Some(leaf))
    else
      var sub :- InsertAt(match prev case Some(v) => v case None => Obj([]), rest, leaf);
      Ok(Some(sub))
  }

  /** Continue below an element reached through a `[]` part; when the `[]` part
      was the last one, nothing more is written. */
  function Descend(x: Value, rest: seq<string>, leaf: Value): (r: Result<Value, Crash>)
    ensures r.Ok? && rest != [] ==> r.value.Obj?
    decreases |rest|, 1
  {
    if rest == [] then Ok(x) else InsertAt(x, rest, leaf)
  }

  /** One mapping row: rows with fewer than two cells and rows whose stripped
      path or field is empty are skipped; extra columns are ignored. */
  function ApplyRow(mapping: Fields, row: seq<string>, filename: string): Result<Fields, Crash>
  {
    if |row| < 2 then Ok(mapping)
    else
      var path := Trim(row[0]);
      var inputField := Trim(row[1]);
      if path == "" || inputField == "" then Ok(mapping)
      else
        var r :- InsertAt(Obj(mapping), Split(path, '.'), PathOf(filename, inputField));
        Ok(r.fields)
  }

  function ApplyRows(rows: seq<seq<string>>, filename: string): Result<Fields, Crash>
    decreases |rows|
  {
    if rows == [] then Ok([])
    else
      var m :- ApplyRows(rows[..|rows| - 1], filename);
      ApplyRow(m, rows[|rows| - 1], filename)
  }

  /** The filter row `(column, value)`, kept only if both stripped cells are non-empty. */
  function FilterOf(row: seq<string>): Option<(string, string)>
  {
    if |row| >= 2 && Trim(row[0]) != "" && Trim(row[1]) != "" then Some((Trim(row[0]), Trim(row[1])))
    else None
  }

  /** `parse_nested_mapping(mapping_file, filename)`: row 1 is the header, row 2
      the optional filter, rows 3 and later the mapping rows. */
  function NestedMapping(lines: seq<seq<string>>, filename: string): Result<(Fields, Option<(string, string)>), Crash>
  {
    if lines == [] then Ok(([], None))
    else if |lines| == 1 then Ok(([], None))
    else
      var m :- ApplyRows(lines[2..], filename);
      Ok((m, FilterOf(lines[1])))
  }

  // ---------------------------------------------------------------------------
  // What the tree holds

  /** Follows `parts` down a tree: a plain part is a dict lookup, a `name[]`
      part a dict lookup followed by the list's first element. */
  function At(v: Value, parts: seq<string>): Option<Value>
    decreases |parts|, 1
  {
    if parts == [] then Some(v)
    else if !v.Obj? then None
    else
      var (key, isList) := Segment(parts[0]);
      match Get(v.fields, key)
      case None => None
      case Some(c) => AtChild(c, isList, parts[1..])
  }

  function AtChild(c: Value, isList: bool, rest: seq<string>): Option<Value>
    decreases |rest|, 2
  {
    if !isList then At(c, rest)
    else if c.Arr? && |c.items| > 0 then At(c.items[0], rest)
    else None
  }

  predicate LastPlain(parts: seq<string>) {
    |parts| > 0 && !EndsWith(parts[|parts| - 1], "[]")
  }

  function KeyOf(part: string): string {
    Segment(part).0
  }

  lemma LastPlainRest(parts: seq<string>)
    requires LastPlain(parts) && |parts| > 1
    ensures LastPlain(parts[1..])
  {
    assert parts[1..][|parts| - 2] == parts[|parts| - 1];
  }

  /** The leaf is found at its path afterwards, so a later row with the same
      path overwrites an earlier one. */
  lemma {:induction false} InsertAtFound(level: Value, parts: seq<string>, leaf: Value)
    requires LastPlain(parts) && InsertAt(level, parts, leaf).Ok?
    ensures At(InsertAt(level, parts, leaf).value, parts) == Some(leaf)
    decreases |parts|, 0
  {
    var (key, isList) := Segment(parts[0]);
    var rest := parts[1..];
    if rest != [] {
      LastPlainRest(parts);
    }
    var prev := Get(level.fields, key);
    var c := NewChild(prev, isList, rest, leaf).value;
    NewChildFound(prev, isList, rest, leaf);
    PutGet(level.fields, key, c.value, key);
  }

  lemma {:induction false} NewChildFound(prev: Option<Value>, isList: bool, rest: seq<string>, leaf: Value)
    requires rest == [] ==> !isList
    requires rest != [] ==> LastPlain(rest)
    requires NewChild(prev, isList, rest, leaf).Ok?
    ensures NewChild(prev, isList, rest, leaf).value.Some?
    ensures AtChild(NewChild(prev, isList, rest, leaf).value.value, isList, rest) == Some(leaf)
    decreases |rest|, 2
  {
    if isList {
      match prev
      case None =>
        InsertAtFound(Obj([]), rest, leaf);
      case Some(v) =>
        InsertAtFound(v.items[0], rest, leaf);
    } else if rest != [] {
      InsertAtFound(match prev case Some(v) => v case None => Obj([]), rest, leaf);
    }
  }

  /** A path that leaves `parts` at a different key is untouched: rows whose
      paths share only a prefix keep both their leaves. */
  lemma {:induction false} InsertAtOther(level: Value, parts: seq<string>, leaf: Value, q: seq<string>, i: nat)
    requires i < |q| && i < |parts| && q[..i] == parts[..i] && KeyOf(q[i]) != KeyOf(parts[i])
    requires InsertAt(level, parts, leaf).Ok?
    ensures At(InsertAt(level, parts, leaf).value, q) == At(level, q)
    decreases |parts|, 0
  {
    var (key, isList) := Segment(parts[0]);
    var rest := parts[1..];
    var prev := Get(level.fields, key);
    var c := NewChild(prev, isList, rest, leaf).value;
    var (qkey, qList) := Segment(q[0]);
    if c.Some? {
      PutGet(level.fields, key, c.value, qkey);
      if i > 0 {
        assert q[0] == parts[0];
        assert q[1..][..i - 1] == rest[..i - 1];
        assert q[1..][i - 1] == q[i] && rest[i - 1] == parts[i];
        NewChildOther(prev, isList, rest, leaf, q[1..], i - 1);
      }
    }
  }

  /** Below the entry a part rewrites, the other paths read as before (an entry
      that was absent reads nothing below it, before or after). */
  lemma {:induction false} NewChildOther(prev: Option<Value>, isList: bool, rest: seq<string>, leaf: Value, q: seq<string>, i: nat)
    requires i < |q| && i < |rest| && q[..i] == rest[..i] && KeyOf(q[i]) != KeyOf(rest[i])
    requires NewChild(prev, isList, rest, leaf).Ok? && NewChild(prev, isList, rest, leaf).value.Some?
    ensures AtChild(NewChild(prev, isList, rest, leaf).value.value, isList, q) ==
      match prev case Some(v) => AtChild(v, isList, q) case None => None
    decreases |rest|, 2
  {
    if isList {
      match prev
      case None =>
        InsertAtOther(Obj([]), rest, leaf, q, i);
      case Some(v) =>
        InsertAtOther(v.items[0], rest, leaf, q, i);
    } else {
      InsertAtOther(match prev case Some(v) => v case None => Obj([]), rest, leaf, q, i);
    }
  }

  // ---------------------------------------------------------------------------
  // Every list holds one template

  /** Every list in the tree has exactly one element. */
  predicate Singletons(v: Value)
    decreases v
  {
    match v
    case Arr(xs) => |xs| == 1 && Singletons(xs[0])
    case Obj(fs) => forall i :: 0 <= i < |fs| ==> Singletons(fs[i].1)
    case _ => true
  }

  lemma PutSingletons(fs: Fields, k: string, v: Value)
    requires Singletons(Obj(fs)) && Singletons(v)
    ensures Singletons(Obj(Put(fs, k, v)))
  {
    PutElements(fs, k, v);
    var r := Put(fs, k, v);
    forall i | 0 <= i < |r| ensures Singletons(r[i].1) {
      if r[i] != (k, v) {
        var j :| 0 <= j < |fs| && fs[j] == r[i];
      }
    }
  }

  lemma GetSingletons(fs: Fields, k: string)
    requires Singletons(Obj(fs)) && Get(fs, k).Some?
    ensures Singletons(Get(fs, k).value)
  {
    var j :| 0 <= j < |fs| && fs[j] == (k, Get(fs, k).value);
  }

  /** Writing a leaf keeps every list a one-element list. */
  lemma {:induction false} InsertAtSingletons(level: Value, parts: seq<string>, leaf: Value)
    requires parts != [] && Singletons(level) && Singletons(leaf) && InsertAt(level, parts, leaf).Ok?
    ensures Singletons(InsertAt(level, parts, leaf).value)
    decreases |parts|, 0
  {
    var (key, isList) := Segment(parts[0]);
    var prev := Get(level.fields, key);
    if prev.Some? {
      GetSingletons(level.fields, key);
    }
    NewChildSingletons(prev, isList, parts[1..], leaf);
    var c := NewChild(prev, isList, parts[1..], leaf).value;
    if c.Some? {
      PutSingletons(level.fields, key, c.value);
    }
  }

  lemma {:induction false} NewChildSingletons(prev: Option<Value>, isList: bool, rest: seq<string>, leaf: Value)
    requires prev.Some? ==> Singletons(prev.value)
    requires Singletons(leaf) && NewChild(prev, isList, rest, leaf).Ok?
    ensures var c := NewChild(prev, isList, rest, leaf).value; c.Some? ==> Singletons(c.value)
    decreases |rest|, 2
  {
    if isList {
      match prev
      case None =>
        if rest != [] {
          InsertAtSingletons(Obj([]), rest, leaf);
        }
      case Some(v) =>
        if v.Arr? && |v.items| > 0 {
          if rest != [] {
            InsertAtSingletons(v.items[0], rest, leaf);
          }
          assert v.items[1..] == [];
        }
    } else if rest != [] {
      InsertAtSingletons(match prev case Some(v) => v case None => Obj([]), rest, leaf);
    }
  }

  // ---------------------------------------------------------------------------
  // Rows

  /** A row is skipped when it has fewer than two cells or a blank path or field. */
  lemma ApplyRowSkips(mapping: Fields, row: seq<string>, filename: string)
    requires |row| < 2 || Trim(row[0]) == "" || Trim(row[1]) == ""
    ensures ApplyRow(mapping, row, filename) == Ok(mapping)
  {
  }

  /** Columns after the second are ignored. */
  lemma ApplyRowTwoColumns(mapping: Fields, row: seq<string>, filename: string)
    requires |row| >= 2
    ensures ApplyRow(mapping, row, filename) == ApplyRow(mapping, row[..2], filename)
  {
  }

  /** A kept row whose path ends in a plain part stores
      `{"path": filename + "." + field}` at that path. */
  lemma ApplyRowFound(mapping: Fields, row: seq<string>, filename: string)
    requires |row| >= 2 && Trim(row[0]) != "" && Trim(row[1]) != ""
    requires LastPlain(Split(Trim(row[0]), '.')) && ApplyRow(mapping, row, filename).Ok?
    ensures At(Obj(ApplyRow(mapping, row, filename).value), Split(Trim(row[0]), '.')) ==
      Some(PathOf(filename, Trim(row[1])))
  {
    InsertAtFound(Obj(mapping), Split(Trim(row[0]), '.'), PathOf(filename, Trim(row[1])));
  }

  /** Top-level keys keep their order; new ones are appended. */
  lemma ApplyRowKeys(mapping: Fields, row: seq<string>, filename: string)
    requires ApplyRow(mapping, row, filename).Ok?
    ensures var ks := Keys(ApplyRow(mapping, row, filename).value);
      |Keys(mapping)| <= |ks| && ks[..|Keys(mapping)|] == Keys(mapping)
  {
    if |row| >= 2 && Trim(row[0]) != "" && Trim(row[1]) != "" {
      var parts := Split(Trim(row[0]), '.');
      var (key, isList) := Segment(parts[0]);
      var c := NewChild(Get(mapping, key), isList, parts[1..], PathOf(filename, Trim(row[1]))).value;
      if c.Some? {
        PutKeys(mapping, key, c.value);
        assert Keys(Put(mapping, key, c.value))[..|Keys(mapping)|] == Keys(mapping);
      }
    }
  }

  /** The whole mapping keeps one template per list. */
  lemma {:induction false} ApplyRowsSingletons(rows: seq<seq<string>>, filename: string)
    requires ApplyRows(rows, filename).Ok?
    ensures Singletons(Obj(ApplyRows(rows, filename).value))
    decreases |rows|
  {
    if rows != [] {
      var m := ApplyRows(rows[..|rows| - 1], filename).value;
      ApplyRowsSingletons(rows[..|rows| - 1], filename);
      var row := rows[|rows| - 1];
      if |row| >= 2 && Trim(row[0]) != "" && Trim(row[1]) != "" {
        InsertAtSingletons(Obj(m), Split(Trim(row[0]), '.'), PathOf(filename, Trim(row[1])));
      }
    }
  }

  /** Past the header, the mapping comes from rows 3 on and the filter from row 2. */
  lemma NestedMappingParts(lines: seq<seq<string>>, filename: string)
    requires |lines| >= 2 && ApplyRows(lines[2..], filename).Ok?
    ensures NestedMapping(lines, filename) == Ok((ApplyRows(lines[2..], filename).value, FilterOf(lines[1])))
  {
  }

  /** A file without a header row gives an empty mapping and no filter. */
  lemma NoHeader(filename: string)
    ensures NestedMapping([], filename) == Ok(([], None))
  {
  }

  /** The filter is stored stripped. */
  lemma FilterTrimmed(row: seq<string>)
    requires FilterOf(row).Some?
    ensures Trim(FilterOf(row).value.0) == FilterOf(row).value.0 && FilterOf(row).value.0 != ""
    ensures Trim(FilterOf(row).value.1) == FilterOf(row).value.1 && FilterOf(row).value.1 != ""
  {
    TrimIdempotent(row[0]);
    TrimIdempotent(row[1]);
  }

  // ---------------------------------------------------------------------------
  // The imperative function

  /** `parse_nested_mapping(mapping_file, filename)`. */
  method ParseNestedMapping(lines: seq<seq<string>>, filename: string)
    returns (r: Result<(Fields, Option<(string, string)>), Crash>)
    ensures r == NestedMapping(lines, filename)
  {
    if |lines| < 2 {
      return Ok(([], None));
    }
    var filterRow := lines[1];
    var filterSpec: Option<(string, string)> := None;
    if |filterRow| >= 2 {
      var filterColumn := Trim(filterRow[0]);
      var filterValue := Trim(filterRow[1]);
      if filterColumn != "" && filterValue != "" {
        filterSpec := Some((filterColumn, filterValue));
      }
    }
    assert filterSpec == FilterOf(filterRow);
    var mapping := InsertRows(lines[2..], filename);
    if mapping.Err? {
      return Err(mapping.error);
    }
    r := Ok((mapping.value, filterSpec));
  }

  /** The loop over the mapping rows, each read as its value rebuilt. */
  method InsertRows(rows: seq<seq<string>>, filename: string) returns (r: Result<Fields, Crash>)
    ensures r == ApplyRows(rows, filename)
  {
    var mapping := [];
    var n := 0;
    while n < |rows|
      invariant 0 <= n <= |rows|
      invariant ApplyRows(rows[..n], filename) == Ok(mapping)
    {
      assert rows[..n + 1][..n] == rows[..n];
      var row := rows[n];
      n := n + 1;
      if |row| < 2 {
        continue;
      }
      var path := Trim(row[0]);
      var inputField := Trim(row[1]);
      if path == "" || inputField == "" {
        continue;
      }
      var tree := InsertAt(Obj(mapping), Split(path, '.'), PathOf(filename, inputField));
      if tree.Err? {
        ApplyRowsPrefixErr(rows, filename, n);
        return Err(tree.error);
      }
      mapping := tree.value.fields;
    }
    assert rows[..n] == rows;
    r := Ok(mapping);
  }

  lemma {:induction false} ApplyRowsPrefixErr(rows: seq<seq<string>>, filename: string, n: nat)
    requires n <= |rows| && ApplyRows(rows[..n], filename).Err?
    ensures ApplyRows(rows, filename) == ApplyRows(rows[..n], filename)
    decreases |rows| - n
  {
    if n < |rows| {
      assert rows[..n + 1][..n] == rows[..n];
      ApplyRowsPrefixErr(rows, filename, n + 1);
    } else {
      assert rows[..n] == rows;
    }
  }
}
