/**
 * `build_collections` of src/lib/collections.py: pairs every mapping file
 * `<input>_<type>_mapping.csv` of a directory with the input file
 * `<input>.csv` and maps each input row through the nested mapping.
 *
 * The directory is a map from file names to the rows a CSV reader gives for
 * them, the names `glob("*_mapping.csv")` yields are a parameter (in the order
 * they come), and `nested_map`, whose source is not part of this model, is a
 * function parameter.
 */
module Collections {
  import opened Wrappers
  import opened Strings
  import opened Json
  import Parser
  import CsvReader

  // ---------------------------------------------------------------------------
  // re.match(r"(.+)_([A-Za-z0-9]+)_mapping\.csv", name)

  predicate IsAlnum(c: char) {
    ('A' <= c <= 'Z') || ('a' <= c <= 'z') || ('0' <= c <= '9')
  }

  /** The end of the run of ASCII letters and digits that starts at `i`. */
  function AlnumRun(s: string, i: nat): (j: nat)
    requires i <= |s|
    ensures i <= j <= |s|
    ensures forall t :: i <= t < j ==> IsAlnum(s[t])
    ensures j < |s| ==> !IsAlnum(s[j])
    decreases |s| - i
  {
    if i < |s| && IsAlnum(s[i]) then AlnumRun(s, i + 1) else i
  }

  const Suffix := "_mapping.csv"

  /** The pattern matches with group 1 ending at `k`: `.+` (no newline) up to
      `k`, an underscore, a non-empty run of letters and digits, then
      `_mapping.csv`. `re.match` anchors at the start only. */
  predicate MatchesAt(s: string, k: nat) {
    && 1 <= k < |s| && s[k] == '_' && '\n' !in s[..k]
    && AlnumRun(s, k + 1) > k + 1
    && StartsWith(s[AlnumRun(s, k + 1)..], Suffix)
  }

  /** Greedy `.+` tries the longest group 1 first: the last `k` below `n`
      where the pattern matches. */
  function LastMatch(s: string, n: nat): (r: Option<nat>)
    requires n <= |s|
    ensures r.Some? ==> r.value < n && MatchesAt(s, r.value)
    ensures r.Some? ==> forall k: nat :: r.value < k < n ==> !MatchesAt(s, k)
    ensures r.None? ==> forall k: nat :: k < n ==> !MatchesAt(s, k)
  {
    if n == 0 then None
    else if MatchesAt(s, n - 1) then Some(n - 1)
    else LastMatch(s, n - 1)
  }

  /** `match.groups()`: `(input_name, object_type)`, or `None` when the name
      does not match. */
  function MappingName(name: string): Option<(string, string)>
  {
    match LastMatch(name, |name|)
    case None => None
    case Some(k) => Some((name[..k], name[k + 1..AlnumRun(name, k + 1)]))
  }

  /** A name matches exactly when some split fits the pattern; the groups then
      spell out the start of the name, with a non-empty input name without
      newlines and an object type of letters and digits, and no later split
      fits (group 1 is as long as it can be). */
  lemma MappingNameSpec(name: string)
    ensures MappingName(name).Some? <==> exists k :: MatchesAt(name, k)
    ensures MappingName(name).Some? ==>
      var (input, objectType) := MappingName(name).value;
      && input != "" && '\n' !in input
      && objectType != "" && (forall t :: 0 <= t < |objectType| ==> IsAlnum(objectType[t]))
      && StartsWith(name, input + "_" + objectType + Suffix)
      && forall k :: |input| < k ==> !MatchesAt(name, k)
  {
    if MappingName(name).Some? {
      var k := LastMatch(name, |name|).value;
      MatchPrefix(name, k);
    } else {
      forall k | true ensures !MatchesAt(name, k) {
      }
    }
  }

  /** A split that fits the pattern spells out the start of the name. */
  lemma MatchPrefix(name: string, k: nat)
    requires MatchesAt(name, k)
    ensures var objectType := name[k + 1..AlnumRun(name, k + 1)];
      && (forall t :: 0 <= t < |objectType| ==> IsAlnum(objectType[t]))
      && StartsWith(name, name[..k] + "_" + objectType + Suffix)
  {
    var m := AlnumRun(name, k + 1);
    var objectType := name[k + 1..m];
    var p := name[..k] + "_" + objectType + Suffix;
    assert name[m..][..|Suffix|] == Suffix;
    assert name[..|p|] == p by {
      assert name[..|p|] == name[..k] + [name[k]] + name[k + 1..m] + name[m..][..|Suffix|];
    }
    forall t | 0 <= t < |objectType| ensures IsAlnum(objectType[t]) {
      assert objectType[t] == name[k + 1 + t];
    }
  }

  /** The file name `<input>_<type>_mapping.csv` gives back `input` and `type`
      whenever `input` is a non-empty name without newlines and `type` a
      non-empty run of letters and digits. */
  lemma MappingNameOf(input: string, objectType: string)
    requires input != "" && '\n' !in input
    requires objectType != "" && forall t :: 0 <= t < |objectType| ==> IsAlnum(objectType[t])
    ensures MappingName(input + "_" + objectType + Suffix) == Some((input, objectType))
  {
    var s := input + "_" + objectType + Suffix;
    var k := |input|;
    var m := k + 1 + |objectType|;
    assert s[..k] == input && s[k] == '_';
    assert s[k + 1..m] == objectType;
    assert AlnumRun(s, k + 1) == m by {
      AlnumRunTo(s, k + 1, m);
      assert s[m] == '_';
    }
    assert s[m..] == Suffix;
    assert MatchesAt(s, k);
    forall j | k < j < |s| ensures !MatchesAt(s, j) {
      if j < m {
        assert s[j] == objectType[j - k - 1];
      } else if j > m {
        assert s[j] == Suffix[j - m];
      } else if 1 <= j && AlnumRun(s, j + 1) > j + 1 {
        assert |s[AlnumRun(s, j + 1)..]| < |Suffix|;
      }
    }
    LastMatchIs(s, |s|, k);
  }

  /** The run reaches `m` when every character before it is a letter or digit. */
  lemma {:induction false} AlnumRunTo(s: string, i: nat, m: nat)
    requires i <= m < |s| && !IsAlnum(s[m])
    requires forall t :: i <= t < m ==> IsAlnum(s[t])
    ensures AlnumRun(s, i) == m
    decreases m - i
  {
    if i < m {
      AlnumRunTo(s, i + 1, m);
    }
  }

  lemma LastMatchIs(s: string, n: nat, k: nat)
    requires k < n <= |s| && MatchesAt(s, k)
    requires forall j :: k < j < n ==> !MatchesAt(s, j)
    ensures LastMatch(s, n) == Some(k)
  {
    var r := LastMatch(s, n);
    assert r.Some?;
    assert !(r.value < k);
    assert !(k < r.value);
  }

  /** The example of the naming rule: the object type is the last run before
      `_mapping.csv`, and the underscores before it stay in the input name. */
  lemma ServiceAtLocationExample()
    ensures MappingName("x_service_at_location_mapping.csv") == Some(("x_service_at", "location"))
  {
    assert "x_service_at_location_mapping.csv" == "x_service_at" + "_" + "location" + Suffix;
    MappingNameOf("x_service_at", "location");
  }

  // ---------------------------------------------------------------------------
  // build_collections

  /** A data directory: its path as `str(Path(data_directory))` gives it, and
      the rows a CSV reader gives for each of its files. */
  datatype Directory = Directory(path: string, files: map<string, seq<seq<string>>>)

  type NestedMapping = (Fields, Option<(string, string)>)

  /** `data_directory / f"{input_name}.csv"`. */
  function InputPath(dir: Directory, inputName: string): string
  {
    dir.path + "/" + inputName + ".csv"
  }

  /** `[nested_map(row, mapping) for row in input_rows]`. */
  function MapAll(rows: seq<Parser.InputRow>, mapping: NestedMapping,
                  nestedMap: (Parser.InputRow, NestedMapping) -> Value): (objects: seq<Value>)
    ensures |objects| == |rows| && forall i :: 0 <= i < |rows| ==> objects[i] == nestedMap(rows[i], mapping)
  {
    seq(|rows|, i requires 0 <= i < |rows| => nestedMap(rows[i], mapping))
  }

  /** What one mapping file contributes: nothing when its name does not match
      or its input file is missing, otherwise one `(object_type, objects)`
      entry; a mapping file that crashes the nested parser raises. */
  function Contribution(dir: Directory, mappingFile: string,
                        nestedMap: (Parser.InputRow, NestedMapping) -> Value)
    : Result<seq<(string, seq<Value>)>, Parser.Crash>
    requires mappingFile in dir.files
  {
    match MappingName(mappingFile)
    case None => Ok([])
    case Some((inputName, objectType)) =>
      if inputName + ".csv" !in dir.files then Ok([])
      else
        var inputRows := Parser.InputRows(InputPath(dir, inputName), dir.files[inputName + ".csv"]);
        var mapping :- Parser.NestedMapping(dir.files[mappingFile], inputName);
        Ok([(objectType, MapAll(inputRows, mapping, nestedMap))])
  }

  /** `build_collections(data_directory)` over the mapping files in the order
      the glob yields them. */
  function Collections(dir: Directory, mappingFiles: seq<string>,
                       nestedMap: (Parser.InputRow, NestedMapping) -> Value)
    : Result<seq<(string, seq<Value>)>, Parser.Crash>
    requires forall f :: f in mappingFiles ==> f in dir.files
    decreases |mappingFiles|
  {
    if mappingFiles == [] then Ok([])
    else
      var results :- Collections(dir, mappingFiles[..|mappingFiles| - 1], nestedMap);
      var more :- Contribution(dir, mappingFiles[|mappingFiles| - 1], nestedMap);
      Ok(results + more)
  }

  /** A mapping file whose name does not fit the pattern is skipped. */
  lemma SkipsUnmatched(dir: Directory, mappingFile: string, nestedMap: (Parser.InputRow, NestedMapping) -> Value)
    requires mappingFile in dir.files && MappingName(mappingFile).None?
    ensures Contribution(dir, mappingFile, nestedMap) == Ok([])
  {
  }

  /** A mapping file without its input file is skipped. */
  lemma SkipsMissingInput(dir: Directory, input: string, objectType: string,
                          nestedMap: (Parser.InputRow, NestedMapping) -> Value)
    requires input != "" && '\n' !in input
    requires objectType != "" && forall t :: 0 <= t < |objectType| ==> IsAlnum(objectType[t])
    requires input + "_" + objectType + Suffix in dir.files && input + ".csv" !in dir.files
    ensures Contribution(dir, input + "_" + objectType + Suffix, nestedMap) == Ok([])
  {
    MappingNameOf(input, objectType);
  }

  /** A mapping file with its input file gives one entry named by its object
      type, with one object per input row in row order, each the nested map of
      that row. */
  lemma PairedFile(dir: Directory, input: string, objectType: string,
                   nestedMap: (Parser.InputRow, NestedMapping) -> Value)
    requires input != "" && '\n' !in input
    requires objectType != "" && forall t :: 0 <= t < |objectType| ==> IsAlnum(objectType[t])
    requires input + "_" + objectType + Suffix in dir.files && input + ".csv" in dir.files
    requires Parser.NestedMapping(dir.files[input + "_" + objectType + Suffix], input).Ok?
    ensures var rows := Parser.InputRows(InputPath(dir, input), dir.files[input + ".csv"]);
      var mapping := Parser.NestedMapping(dir.files[input + "_" + objectType + Suffix], input).value;
      && Contribution(dir, input + "_" + objectType + Suffix, nestedMap).Ok?
      && |Contribution(dir, input + "_" + objectType + Suffix, nestedMap).value| == 1
      && Contribution(dir, input + "_" + objectType + Suffix, nestedMap).value[0].0 == objectType
      && |Contribution(dir, input + "_" + objectType + Suffix, nestedMap).value[0].1| == |rows|
      && forall i :: 0 <= i < |rows| ==>
           Contribution(dir, input + "_" + objectType + Suffix, nestedMap).value[0].1[i] == nestedMap(rows[i], mapping)
  {
    MappingNameOf(input, objectType);
  }

  /** The rows handed to `nested_map` are tagged with the input name, so the
      mapping's own `input_name` prefix names their table. */
  lemma InputRowsTagged(dir: Directory, input: string)
    requires input + ".csv" in dir.files
    requires '/' !in input && exists j :: 0 <= j < |input| && input[j] != '.'
    ensures var rows := Parser.InputRows(InputPath(dir, input), dir.files[input + ".csv"]);
      forall i :: 0 <= i < |rows| ==> rows[i].table == input
  {
    assert InputPath(dir, input) == (dir.path + "/") + input + ".csv";
    Parser.StemOfCsv(dir.path + "/", input);
    Parser.TagRows(input, CsvReader.Read(dir.files[input + ".csv"]).1);
  }

  /** The entries follow the mapping files: the entries for the files up to
      some point come first, and every entry is named by an object type. */
  lemma {:induction false} CollectionsShape(dir: Directory, mappingFiles: seq<string>,
                                            nestedMap: (Parser.InputRow, NestedMapping) -> Value)
    requires forall f :: f in mappingFiles ==> f in dir.files
    requires Collections(dir, mappingFiles, nestedMap).Ok?
    ensures |Collections(dir, mappingFiles, nestedMap).value| <= |mappingFiles|
    ensures forall i :: 0 <= i < |Collections(dir, mappingFiles, nestedMap).value| ==>
      var objectType := Collections(dir, mappingFiles, nestedMap).value[i].0;
      objectType != "" && forall t :: 0 <= t < |objectType| ==> IsAlnum(objectType[t])
    decreases |mappingFiles|
  {
    if mappingFiles != [] {
      var init := mappingFiles[..|mappingFiles| - 1];
      var last := mappingFiles[|mappingFiles| - 1];
      CollectionsShape(dir, init, nestedMap);
      MappingNameSpec(last);
      var results := Collections(dir, init, nestedMap).value;
      var more := Contribution(dir, last, nestedMap).value;
      assert Collections(dir, mappingFiles, nestedMap).value == results + more;
    }
  }

  /** `build_collections(data_directory)`. */
  method BuildCollections(dir: Directory, mappingFiles: seq<string>,
                          nestedMap: (Parser.InputRow, NestedMapping) -> Value)
    returns (r: Result<seq<(string, seq<Value>)>, Parser.Crash>)
    requires forall f :: f in mappingFiles ==> f in dir.files
    ensures r == Collections(dir, mappingFiles, nestedMap)
  {
    var results := [];
    var n := 0;
    while n < |mappingFiles|
      invariant 0 <= n <= |mappingFiles|
      invariant Collections(dir, mappingFiles[..n], nestedMap) == Ok(results)
    {
      assert mappingFiles[..n + 1][..n] == mappingFiles[..n];
      var more := ProcessMappingFile(dir, mappingFiles[n], nestedMap);
      if more.Err? {
        CollectionsPrefixErr(dir, mappingFiles, n + 1, nestedMap);
        return Err(more.error);
      }
      results := results + more.value;
      n := n + 1;
    }
    assert mappingFiles[..n] == mappingFiles;
    return Ok(results);
  }

  /** The body of the loop over the mapping files, for one of them. */
  method ProcessMappingFile(dir: Directory, mappingFile: string,
                            nestedMap: (Parser.InputRow, NestedMapping) -> Value)
    returns (r: Result<seq<(string, seq<Value>)>, Parser.Crash>)
    requires mappingFile in dir.files
    ensures r == Contribution(dir, mappingFile, nestedMap)
  {
    var groups := MappingName(mappingFile);
    if groups.None? {
      return Ok([]);
    }
    var (inputName, objectType) := groups.value;
    if inputName + ".csv" !in dir.files {
      return Ok([]);
    }
    var inputRows := Parser.ParseInputCsv(InputPath(dir, inputName), inputName, dir.files[inputName + ".csv"]);
    var mapping := Parser.ParseNestedMapping(dir.files[mappingFile], inputName);
    if mapping.Err? {
      return Err(mapping.error);
    }
    var objects := MapRows(inputRows, mapping.value, nestedMap);
    return Ok([(objectType, objects)]);
  }

  /** The inner loop `for row in input_rows: objects.append(nested_map(row, mapping))`. */
  method MapRows(inputRows: seq<Parser.InputRow>, mapping: NestedMapping,
                 nestedMap: (Parser.InputRow, NestedMapping) -> Value) returns (objects: seq<Value>)
    ensures objects == MapAll(inputRows, mapping, nestedMap)
  {
    objects := [];
    var i := 0;
    while i < |inputRows|
      invariant 0 <= i <= |inputRows|
      invariant objects == MapAll(inputRows[..i], mapping, nestedMap)
    {
      objects := objects + [nestedMap(inputRows[i], mapping)];
      i := i + 1;
    }
    assert inputRows[..i] == inputRows;
  }

  /** A mapping file that raises ends the call: later files are not read. */
  lemma {:induction false} CollectionsPrefixErr(dir: Directory, mappingFiles: seq<string>, n: nat,
                                                nestedMap: (Parser.InputRow, NestedMapping) -> Value)
    requires forall f :: f in mappingFiles ==> f in dir.files
    requires n <= |mappingFiles| && Collections(dir, mappingFiles[..n], nestedMap).Err?
    ensures Collections(dir, mappingFiles, nestedMap) == Collections(dir, mappingFiles[..n], nestedMap)
    decreases |mappingFiles| - n
  {
    if n < |mappingFiles| {
      assert mappingFiles[..n + 1][..n] == mappingFiles[..n];
      CollectionsPrefixErr(dir, mappingFiles, n + 1, nestedMap);
    } else {
      assert mappingFiles[..n] == mappingFiles;
    }
  }
}
