# hsds-transformer core, modelled in Dafny

hsds-transformer converts flat CSV exports into nested HSDS (Human Services
Data Specification) JSON objects, and back. This project models the sequential
helpers around that pipeline:

- the reverse path extractor `get_path_value` and the two `reverseTransform`
  row builders (the current one and the legacy one in `src/lib/buildcsv.py`);
- parent-edge inference from `*_id` fields;
- the static relation table `HSDS_RELATIONS`;
- the forward and reverse mapping-file parsers;
- the mapping-template generator (the schema flattener and the CSV writer);
- the relation generator (singularising names, schema traversal, manual
  overrides, sorted output and the rendered dict literal);
- the transformer log, and the file-name pairing rule of `build_collections`.

JSON values are a datatype with ordered dicts (`Json.Value`), because Python
dict order decides the output order. CSV content is the list of rows that
`csv.reader` yields, handed in already read (`CsvReader` models
`csv.DictReader` over such rows). Each imperative Python function is a Dafny
method with loops. Each method is proved equal to a recursive specification
function, and that function's properties are proved as lemmas. Python
exceptions that escape a function are explicit `Err` outcomes.

Module per source file:

| module | source |
|---|---|
| `ReverseTransform` | src/lib/reverse_transform/reverse_transform.py |
| `CsvRows`, `ReverseBuildCsv` | src/lib/reverse_transform/buildcsv.py |
| `BuildCsv` | src/lib/buildcsv.py |
| `Relationships` | src/lib/relationships.py |
| `Relations` | src/lib/relations.py |
| `CsvReader`, `Parser` | src/lib/parser.py |
| `ReverseParser` | src/lib/reverse_transform/parser.py |
| `Generator` | src/lib/generate_mapping/generator.py |
| `Writer` | src/lib/generate_mapping/writer.py |
| `GenerateRelations` | src/lib/maintenance/generate_relations.py |
| `Logger` | src/lib/logger.py |
| `Collections` | src/lib/collections.py |
| `Wrappers`, `Strings`, `Json` | Python built-ins: `Option`/`Result`, `str` methods, dict and `str()`/`repr()` |

## Model

| member | source | states |
|---|---|---|
| ReverseTransform.ParseSegment | src/lib/reverse_transform/reverse_transform.py:50-52 | a segment is a list branch point exactly when it ends in `[]`, and the key is the segment without those two characters |
| ReverseTransform.LookupAllOk | src/lib/reverse_transform/reverse_transform.py:53-57 | the key lookup over the working set succeeds iff every element is a dict holding the key, and then gives one value per element in order |
| ReverseTransform.LookupAllErr | src/lib/reverse_transform/reverse_transform.py:53-57 | on failure, the error is the one raised by the first element that lacks the key, and all elements before it had it |
| ReverseTransform.LookupAllPrefixErr | src/lib/reverse_transform/reverse_transform.py:53-57 | once one element fails, the later elements do not change the outcome (all-or-nothing, no partial result) |
| ReverseTransform.LookupAllAppend | src/lib/reverse_transform/reverse_transform.py:53-55 | looking up over `xs + ys` succeeds iff it succeeds on both, and the result is the two results concatenated |
| ReverseTransform.FlattenOk | src/lib/reverse_transform/reverse_transform.py:58-68 | a `[]` segment succeeds iff every looked-up value is a list; otherwise the distinct "expected a list" ValueError; the new working set is the lists concatenated in order |
| ReverseTransform.ConcatSnoc | src/lib/reverse_transform/reverse_transform.py:61-63 | `temp2 += t` for one more list appends exactly that list's items |
| ReverseTransform.ConcatLength | src/lib/reverse_transform/reverse_transform.py:60-63 | the new working set's length is the sum of the lists' lengths |
| ReverseTransform.ConcatAppend | src/lib/reverse_transform/reverse_transform.py:61-63 | concatenation distributes over splitting the working set |
| ReverseTransform.WalkAppend | src/lib/reverse_transform/reverse_transform.py:47-69 | segments are handled once each, in order: evaluating `a + b` is evaluating `a`, then `b` on its result, stopping at the first error |
| ReverseTransform.WalkEmpty | src/lib/reverse_transform/reverse_transform.py:53-71 | once the working set is empty, no later segment can fail and the result is the empty tuple |
| ReverseTransform.WalkPlainLength | src/lib/reverse_transform/reverse_transform.py:45-56 | without `[]` segments each step maps element by element, so a successful walk keeps the working set's length |
| ReverseTransform.NoBranchSingleton | src/lib/reverse_transform/reverse_transform.py:43-71 | a path with no `[]` segment returns a 1-tuple when it succeeds |
| ReverseTransform.StepAppend | src/lib/reverse_transform/reverse_transform.py:47-69 | one segment on `xs + ys` succeeds iff it does on both parts, and gives the two results in order |
| ReverseTransform.WalkBranches | src/lib/reverse_transform/reverse_transform.py:47-71 | branches are evaluated independently and the results keep left-to-right branch order |
| ReverseTransform.GetPathValue | src/lib/reverse_transform/reverse_transform.py:26-71 | the loop that replaces `curr` once per segment computes exactly `Extract(root, path)` |
| ReverseTransform.LookupEach | src/lib/reverse_transform/reverse_transform.py:53-57 | the loop `for c in curr: temp.append(c[p])` computes the all-or-nothing lookup |
| ReverseTransform.ConcatLists | src/lib/reverse_transform/reverse_transform.py:58-68 | the loop `temp2 += t` with its list assertion computes the flattening or its ValueError |
| CsvRows.FormatEntrySplits | src/lib/reverse_transform/buildcsv.py:19-22 | a cell joined from two or more values splits back on `,` into the `str` of those values, when none of them contains a comma |
| CsvRows.Header | src/lib/reverse_transform/buildcsv.py:11-12 | the header row is the second component of each `(path, column)` pair, in order |
| CsvRows.RowOfCells | src/lib/reverse_transform/buildcsv.py:14-24 | a row is built iff every cell is; then it has one cell per pair, each computed on its own from its pair's path |
| CsvRows.TableRows | src/lib/reverse_transform/buildcsv.py:11-26 | the header comes first; without an escaping exception there is exactly one row per object, in input order, so 1 + n rows |
| CsvRows.TablePrefixFailure | src/lib/reverse_transform/buildcsv.py:14-26 | once an object raises, later objects are not written |
| CsvRows.RowPrefixFailure | src/lib/reverse_transform/buildcsv.py:16-24 | once a cell raises, later cells of that row are not computed |
| CsvRows.BuildHeader | src/lib/reverse_transform/buildcsv.py:11 | the header comprehension computes `Header(pathsTuple)` |
| ReverseBuildCsv.CellCases | src/lib/reverse_transform/buildcsv.py:17-24 | one value is kept unchanged; none gives `""`; two or more give their `str`s joined by `,`; a ValueError blanks the cell; only the TypeError of subscripting a non-dict escapes |
| ReverseBuildCsv.ReverseTransformRows | src/lib/reverse_transform/buildcsv.py:5-26 | the rows written are the header then one row per object, each with one cell per pair, or the rows up to the TypeError that aborts the write |
| ReverseBuildCsv.BuildRow | src/lib/reverse_transform/buildcsv.py:15-24 | the inner loop over `pathsTuple` computes the row of one object, with KeyError or ValueError blanking only that cell |
| BuildCsv.NestedValueShape | src/lib/buildcsv.py:7-10 | the lookup succeeds iff there is a trail of values from the data where each dot segment, one ending in `[]` included, is a key of the dict before it |
| BuildCsv.NestedValueOfTrail | src/lib/buildcsv.py:7-14 | at the end of such a trail, a list gives the tuple of its elements and any other value a 1-tuple holding it |
| BuildCsv.NestedValueStops | src/lib/buildcsv.py:9-10 | the first segment not found raises KeyError when the value reached is a dict, TypeError otherwise |
| BuildCsv.FollowMatchesWalk | src/lib/buildcsv.py:7-10 | on a path without `[]` segments, the legacy key-by-key lookup and `get_path_value` succeed together and agree on the value |
| BuildCsv.LegacyAgreesOnScalars | src/lib/buildcsv.py:28-36 | where the final value is not a list, the legacy cell equals the current builder's cell |
| BuildCsv.AliceAgeCell | src/lib/testbuildcsv.py:3-15 | the first dict's `user.age` cell, through the legacy cell function, is `30,35` |
| BuildCsv.AdminCell | src/lib/testbuildcsv.py:3-15 | the third dict's `admin` cell is `John,Bob,Foo` |
| BuildCsv.AdminNameCell | src/lib/testbuildcsv.py:3-15 | the third dict has no `user`, so its `user.name` cell is blank and the row goes on |
| BuildCsv.MissingKeyBlanks | src/lib/buildcsv.py:29-36 | a key missing anywhere on the path gives an empty cell rather than aborting the row |
| BuildCsv.GetNestedValue | src/lib/buildcsv.py:4-14 | the loop `value = value[key]` computes `NestedValue(data, path)` |
| BuildCsv.ReverseTransformRows | src/lib/buildcsv.py:16-38 | the header is the column names in order, then one row per dict with one cell per pair, unless a TypeError aborts the write |
| BuildCsv.BuildRow | src/lib/buildcsv.py:27-36 | the inner loop computes one dict's row, a KeyError blanking only its cell |
| Relationships.IsValidId | src/lib/relationships.py:1-14 | a valid id is not `None` and its `str` is not empty |
| Relationships.ValidIdVisible | src/lib/relationships.py:8-12 | the `str` of a valid id has a character that is not whitespace |
| Relationships.NullIsInvalid | src/lib/relationships.py:5-6 | `None` is never a valid id |
| Relationships.BlankIsInvalid | src/lib/relationships.py:8-12 | a value whose `str(...).strip()` is empty is invalid |
| Relationships.NumIdsValid | src/lib/relationships.py:8-14 | every integer is a valid id |
| Relationships.NotPlaceholder | src/lib/relationships.py:11-14 | a non-blank string whose trimmed lower-case form does not start with `n` is valid |
| Relationships.IdCaseInsensitive | src/lib/relationships.py:11 | validity does not depend on letter case: `s` and `lower(s)` are valid together |
| Relationships.PlaceholderInvalid | src/lib/relationships.py:8-12 | `null`, `none`, `n/a` and `na`, after trimming and in any case, are invalid |
| Relationships.CapitalisedPlaceholderInvalid | src/lib/relationships.py:11-12 | `"None"`, `" NULL "` and `"N/A"` are invalid |
| Relationships.PaddedPlaceholderInvalid | src/lib/relationships.py:8-12 | a placeholder with a space of padding at each end is still rejected |
| Relationships.PaddedNumberValid | src/lib/relationships.py:8-14 | `" 42 "` is valid |
| Relationships.IdKeyNeverEndsInSuffix | src/lib/relationships.py:29 | `id` does not end in `_id`, so the `key != 'id'` test never decides anything |
| Relationships.ParentEdgesAppend | src/lib/relationships.py:27-37 | edges come out in key-iteration order: those of a dict's first part, then those of the rest |
| Relationships.ParentEdgesLength | src/lib/relationships.py:27-37 | there is at most one edge per key |
| Relationships.ParentEdgesSound | src/lib/relationships.py:27-35 | every edge `(parent, id)` comes from a field `parent + "_id"` with a valid value whose `str` is `id` (not trimmed) |
| Relationships.ParentEdgesComplete | src/lib/relationships.py:29-35 | every field ending in `_id` with a valid value gives the edge `(key[:-3], str(value))` |
| Relationships.IdentifyParentRelationships | src/lib/relationships.py:17-37 | the loop appending to `relationships` computes `ParentEdges(objDict)` |
| Relations.Relations | src/lib/relations.py:24-169 | `HSDS_RELATIONS` is the list of `(key, parents)` items in the order written, one per entity |
| Relations.FromNameName | src/lib/relations.py:24-169 | each key names exactly one entity |
| Relations.NameInjective | src/lib/relations.py:24-169 | two entities with the same key are the same entity |
| Relations.OrderComplete | src/lib/relations.py:24-169 | every entity is a key of the table |
| Relations.OrderDistinct | src/lib/relations.py:24-169 | no entity is listed twice |
| Relations.RelationsKeysUnique | src/lib/relations.py:24-169 | no key is written twice in the literal |
| Relations.ParentsOfTable | src/lib/relations.py:24-169 | looking up an item's key gives that item's parents |
| Relations.ParentsAreKeys | src/lib/relations.py:24-169 | every parent named is itself a key of the table |
| Relations.ParentsOfName | src/lib/relations.py:24-169 | `HSDS_RELATIONS[name]` lists the names of the entity's parents |
| Relations.ServiceIsRoot | src/lib/relations.py:30 | `service` has no parents |
| Relations.OrganizationBelowService | src/lib/relations.py:26-28 | `organization`'s only parent is `service` |
| Relations.UnitBelowServiceCapacity | src/lib/relations.py:104-110 | `unit`'s only parent is `service_capacity`, whose only parent is `service` |
| Relations.TaxonomyIsRoot | src/lib/relations.py:165 | `taxonomy` has no parents |
| Relations.TaxonomyTermBelowAttribute | src/lib/relations.py:167-169 | `taxonomy_term`'s only parent is `attribute`, so it does not reference `taxonomy` |
| Relations.RankDecreases | src/lib/relations.py:24-169 | every edge goes to an entity of smaller rank |
| Relations.ChainRank | src/lib/relations.py:24-169 | along a chain of parent edges the rank strictly falls |
| Relations.Acyclic | src/lib/relations.py:1-2 | no chain of parent edges returns to its start: the table is the DAG its docstring claims |
| Relations.NoSelfEdge | src/lib/relations.py:24-169 | no entity lists itself |
| CsvReader.HeaderNamesAreKeys | src/lib/reverse_transform/parser.py:26 | every header name is a key of every dict `csv.DictReader` yields, whatever the row's length |
| CsvReader.CellOfColumn | src/lib/reverse_transform/parser.py:26 | `row[name]` for a header name that occurs once is the cell in its column, or `None` for a short row |
| CsvReader.RowsCount | src/lib/parser.py:10 | without blank lines, one dict per row after the header, in file order |
| CsvReader.RowsAt | src/lib/parser.py:10 | without blank lines, the i-th dict is built from the i-th row |
| CsvReader.RowsAppend | src/lib/parser.py:10 | the dicts of `a + b` are those of `a` then those of `b` |
| CsvReader.RowsBlank | src/lib/parser.py:10 | a row is read exactly when it is not blank |
| Parser.RootAt | src/lib/parser.py:12 | `os.path.splitext(b)[0]` drops the part from the last dot, when that dot is not a leading one |
| Parser.BasenameSuffix | src/lib/parser.py:12 | `os.path.basename` gives the part of the path after its last `/`: a suffix with no `/`, preceded by `/` when shorter than the path |
| Parser.StemOfCsv | src/lib/parser.py:12 | `<dir>/<name>.csv` gives the table name `name`, for any `name` without `/` that is not all dots |
| Parser.TrimKeysKeys | src/lib/parser.py:17 | the normalised keys are exactly the stripped original keys |
| Parser.TrimKeysTrimmed | src/lib/parser.py:17 | every normalised key is already stripped |
| Parser.TrimKeysLastWins | src/lib/parser.py:17 | a normalised key reads the value of the last original key that strips to it |
| Parser.TagRows | src/lib/parser.py:15-18 | one entry per row read, in order, each tagged with the table name and holding the row with stripped keys |
| Parser.ParseInputCsv | src/lib/parser.py:4-20 | the loop computes the tagged rows, the table name recomputed from the path and the `filename` argument ignored |
| Parser.NormalizeKeys | src/lib/parser.py:17 | the dict comprehension computes `TrimKeys(row)` |
| Parser.MappingOfOk | src/lib/parser.py:30-34 | `parse_mapping` succeeds iff every row after the header has at least two cells (otherwise IndexError) |
| Parser.MappingOfKeys | src/lib/parser.py:33-34 | the mapping's keys are exactly the output fields named in column 2 |
| Parser.MappingOfLastWins | src/lib/parser.py:33-34 | an output field maps to `{"path": filename + "." + row[0]}` of the last row that names it |
| Parser.ParseMapping | src/lib/parser.py:22-36 | the loop after `next(reader)` computes `Mapping(lines, filename)` |
| Parser.MappingOfPrefixErr | src/lib/parser.py:33-34 | once a row raises, later rows do not change the outcome |
| Parser.InsertAtFound | src/lib/parser.py:95-97 | after a row is applied, its leaf is found at its path, so a later row with the same path overwrites an earlier one |
| Parser.NewChildFound | src/lib/parser.py:89-97 | the entry a part creates or reuses leads to the leaf along the rest of the path |
| Parser.InsertAtOther | src/lib/parser.py:98-99 | a path that leaves the inserted path at a different key reads as before, so rows sharing a prefix share a subtree |
| Parser.NewChildOther | src/lib/parser.py:89-99 | below an entry a part rewrites, the other paths read as before |
| Parser.InsertAtSingletons | src/lib/parser.py:89-93 | writing a leaf keeps every list a one-element list |
| Parser.NewChildSingletons | src/lib/parser.py:89-93 | a `name[]` part creates `[{}]` only when the key is absent, and keeps one template per list |
| Parser.ApplyRowSkips | src/lib/parser.py:74-81 | rows with fewer than two cells, or a blank stripped path or field, are skipped |
| Parser.ApplyRowTwoColumns | src/lib/parser.py:77-78 | columns after the second are ignored |
| Parser.ApplyRowFound | src/lib/parser.py:95-97 | a kept row whose path ends in a plain part stores `{"path": filename + "." + field}` at that path |
| Parser.ApplyRowKeys | src/lib/parser.py:83-99 | top-level keys keep their order, and a new key is appended |
| Parser.ApplyRowsSingletons | src/lib/parser.py:89-93 | the whole mapping holds exactly one template per list |
| Parser.NestedMappingParts | src/lib/parser.py:54-73 | past the header, the mapping comes from rows 3 on and the filter from row 2 |
| Parser.NoHeader | src/lib/parser.py:55-58 | a file with no header row gives an empty mapping and no filter |
| Parser.FilterTrimmed | src/lib/parser.py:66-70 | a filter is produced only with two non-blank cells, and its column and value are stored stripped |
| Parser.ParseNestedMapping | src/lib/parser.py:38-101 | the method computes `NestedMapping(lines, filename)`, including the crash of a path that runs into a non-dict |
| Parser.InsertRows | src/lib/parser.py:73-99 | the loop over mapping rows computes `ApplyRows(rows, filename)` |
| Parser.ApplyRowsPrefixErr | src/lib/parser.py:73-99 | once a row crashes, later rows do not change the outcome |
| ReverseParser.RowsEmpty | src/lib/reverse_transform/parser.py:28-29 | the reader yields no dict exactly when every row after the header is blank |
| ReverseParser.StopIterationExactly | src/lib/reverse_transform/parser.py:28-29 | `next(reader)` raises StopIteration exactly when there is no non-blank row after the header |
| ReverseParser.MissingHeadersExactly | src/lib/reverse_transform/parser.py:31-34 | with a data row present, the ValueError is raised exactly when `path` or `input_files_field` is not a header |
| ReverseParser.SelectOk | src/lib/reverse_transform/parser.py:38-41 | when every row has both keys, the selection loop succeeds |
| ReverseParser.SelectNoKeyError | src/lib/reverse_transform/parser.py:38-41 | once both required headers are present, no row raises KeyError |
| ReverseParser.NoKeyError | src/lib/reverse_transform/parser.py:31-41 | whatever the file, `parse_input_csv` never raises KeyError |
| ReverseParser.FilterRowSkipped | src/lib/reverse_transform/parser.py:20-29 | the first data row is never looked at: replacing it does not change the result |
| ReverseParser.FilterRowDropped | src/lib/reverse_transform/parser.py:28-29 | the reader yields the filter row's dict, then one per later non-blank row |
| ReverseParser.SelectAppend | src/lib/reverse_transform/parser.py:38-41 | rows are selected one by one, in file order |
| ReverseParser.SelectOne | src/lib/reverse_transform/parser.py:38-41 | a row adds nothing when its field is blank, otherwise exactly `(path, field)` |
| ReverseParser.SelectFields | src/lib/reverse_transform/parser.py:38-41 | no pair in the output has a blank field, and there is at most one pair per row |
| ReverseParser.ParseInputCsv | src/lib/reverse_transform/parser.py:3-43 | the method computes `ReverseMapping(lines)`: StopIteration, the missing-header ValueError, or the selected pairs |
| ReverseParser.SelectPrefixErr | src/lib/reverse_transform/parser.py:38-41 | once a row raises, later rows do not change the outcome |
| Generator.IncludedIffNotSkipped | src/lib/generate_mapping/generator.py:135-148 | the recursion test `should_skip` is the exact negation of `_should_include_field` on the parts |
| Generator.MetadataExcluded | src/lib/generate_mapping/generator.py:26-28 | any path with a `metadata[]` part is left out |
| Generator.AttributesRule | src/lib/generate_mapping/generator.py:31-39 | at the first `attributes[]` part, a path is kept iff nothing or exactly `value` follows |
| Generator.PlainIncluded | src/lib/generate_mapping/generator.py:41 | a path with neither special part is always kept |
| Generator.ShouldIncludeField | src/lib/generate_mapping/generator.py:16-41 | the two early-return loops compute `Included(path)` |
| Generator.ShouldSkip | src/lib/generate_mapping/generator.py:135-146 | the `should_skip` loop computes `Skipped` of the path's parts |
| Generator.ReplaceNewlines | src/lib/generate_mapping/generator.py:66 | CR and LF become spaces and nothing else changes |
| Generator.NormalizeDescShape | src/lib/generate_mapping/generator.py:61-67 | a description is single-spaced with no line breaks and no outer whitespace, keeps exactly the words of the string with CR and LF made spaces, and normalising it again changes nothing |
| Generator.UnderJoin | src/lib/generate_mapping/generator.py:69-74 | a joined path lies below its prefix, with no leading dot at the top |
| Generator.StrItemsMembers | src/lib/generate_mapping/generator.py:83-85 | a name is collected iff it occurs as a string item |
| Generator.RequiredOfMembers | src/lib/generate_mapping/generator.py:81-85 | one entry contributes exactly the strings of a list or the keys of a dict; a missing key, a string, a number, a bool or `None` contributes nothing |
| Generator.RequiredListed | src/lib/generate_mapping/generator.py:76-86 | for any node, a name is required iff its `required` or its `tabular_required` entry lists it, whichever are present |
| Generator.MergedRequiredMembers | src/lib/generate_mapping/generator.py:178-181 | a name is in `merged_required` iff some dict entry of the `allOf` requires it |
| Generator.WalkGrows | src/lib/generate_mapping/generator.py:88-200 | `walk` keeps the earlier rows, adds only included paths below its prefix with normalised descriptions, and keeps paths pairwise distinct |
| Generator.PropsGrows | src/lib/generate_mapping/generator.py:103-165 | the same for the loop over a node's properties |
| Generator.PropGrows | src/lib/generate_mapping/generator.py:104-165 | the same for one property: a row only on its first encounter |
| Generator.CompsGrows | src/lib/generate_mapping/generator.py:170-195 | the same for the loop over the composition keywords |
| Generator.EntriesGrows | src/lib/generate_mapping/generator.py:179-195 | the same for the entries of one composition list |
| Generator.FlattenRows | src/lib/generate_mapping/generator.py:44-203 | `flatten_schema` raises TypeError iff the schema is not a dict; otherwise its paths are distinct and included, and its descriptions normalised (what it lists is `Generator.FlattenListed`) |
| Generator.NotRequiredBelow | src/lib/generate_mapping/generator.py:117-118 | below an ancestor that is not required, no field is required (the other half of the rule is `Generator.PropListed`) |
| Generator.PropListed | src/lib/generate_mapping/generator.py:106-128 | a dict property whose path passes the filter always ends up listed; on its first encounter the row appended is its path, its normalised description, and required iff the ancestors are and the node's required set has its name |
| Generator.PropsSplit | src/lib/generate_mapping/generator.py:103 | the loop over `props.items()` is the loop over the first k properties followed by the loop over the rest |
| Generator.PropsListed | src/lib/generate_mapping/generator.py:103-165 | property k of the loop is listed; when no earlier row has its path, its row comes right after the rows made before reaching it, with the description and required flag of `PropListed` |
| Generator.WalkListed | src/lib/generate_mapping/generator.py:88-200 | `walk` on a dict with a `properties` dict lists each of its included dict properties, and the later composition and `items` walks keep that row in place |
| Generator.FlattenListed | src/lib/generate_mapping/generator.py:44-203 | every included top-level dict property is in the output; on its first encounter its row has its normalised description and is required iff the schema's `required` or `tabular_required` lists its name |
| Generator.PathsBelowPrefix | src/lib/generate_mapping/generator.py:69-74 | every path added below a non-empty prefix starts with that prefix and a dot |
| Generator.IterRequiredOf | src/lib/generate_mapping/generator.py:76-86 | the two loops compute `IterRequired(node)` |
| Generator.CollectStrings | src/lib/generate_mapping/generator.py:81-85 | the inner loop collects the string items of a non-string iterable |
| Generator.MergeRequired | src/lib/generate_mapping/generator.py:178-181 | the loop computes `MergedRequired(entries)` |
| Generator.Flattener.constructor | src/lib/generate_mapping/generator.py:58-59 | `rows` and `seen` start empty |
| Generator.Flattener.Walk | src/lib/generate_mapping/generator.py:88-200 | `walk` appends exactly `WalkRows` to `rows` and keeps `seen` the set of their paths |
| Generator.Flattener.WalkProperties | src/lib/generate_mapping/generator.py:103-165 | the loop over `props.items()` appends exactly `PropsRows` |
| Generator.Flattener.VisitProperty | src/lib/generate_mapping/generator.py:104-165 | one property appends exactly `PropRows` |
| Generator.Flattener.WalkCompositions | src/lib/generate_mapping/generator.py:170-195 | the composition loop appends exactly `CompsRows` |
| Generator.Flattener.WalkEntries | src/lib/generate_mapping/generator.py:182-195 | the loop over one composition list appends exactly `EntriesRows` |
| Generator.FlattenSchema | src/lib/generate_mapping/generator.py:44-203 | the method computes `Flatten(schema)` |
| Writer.DataRow | src/lib/generate_mapping/writer.py:27-29 | a field's row has the six columns of the header |
| Writer.FilledTemplate | src/lib/generate_mapping/writer.py:24-29 | the header, the filter row, then one row per field in order |
| Writer.WriteMappingTemplateCsv | src/lib/generate_mapping/writer.py:19-29 | 2 + n rows: the fixed header, six empty cells, then `[path, "", "", "", description, "true"/"false"]` per field in order |
| Writer.HeaderDistinct | src/lib/generate_mapping/writer.py:9-16 | the header names are distinct |
| Writer.DataDictCells | src/lib/generate_mapping/writer.py:27-29 | read back with the header, a field's row has its path under `path` and its field under `input_files_field` |
| Writer.SelectDataDicts | src/lib/generate_mapping/writer.py:27-29 | the reverse parser's selection over the data rows gives the pairs whose field is filled in |
| Writer.FilledTemplateReadsBack | src/lib/generate_mapping/writer.py:19-29 | a template with the field column filled in reads back through the reverse parser as the `(path, field)` pairs of the filled rows |
| Writer.TemplateDicts | src/lib/generate_mapping/writer.py:24-29 | the reader yields the filter row's dict, then one dict per data row |
| Writer.FreshTemplateReadsEmpty | src/lib/generate_mapping/writer.py:19-29 | a template as written maps nothing through the reverse parser |
| Writer.FreshTemplateMapsNothing | src/lib/generate_mapping/writer.py:19-29 | a template as written, read as a forward mapping file, gives an empty mapping and no filter |
| Writer.FilterRowEmpty | src/lib/generate_mapping/writer.py:25 | the written filter row sets no filter |
| GenerateRelations.Singularize | src/lib/maintenance/generate_relations.py:6-25 | outside the fixed names the result is never longer than the name, and the name is unchanged iff it does not end in `s` or is `status` |
| GenerateRelations.SingularizePlural | src/lib/maintenance/generate_relations.py:22-23 | a trailing `s` is dropped, except for `status`, `ies` endings and the fixed names |
| GenerateRelations.SingularizeIes | src/lib/maintenance/generate_relations.py:20-21 | a trailing `ies` becomes `y` |
| GenerateRelations.SpecialEntityFixed | src/lib/maintenance/generate_relations.py:8-18 | the entity a fixed name maps to is itself left unchanged |
| GenerateRelations.Child | src/lib/maintenance/generate_relations.py:38-47 | the schema a property leads into is no larger than the property's schema |
| GenerateRelations.AddEdgeExtends | src/lib/maintenance/generate_relations.py:43-44 | adding an edge loses nothing, and a non-empty parent becomes a parent of the child |
| GenerateRelations.TraverseExtends | src/lib/maintenance/generate_relations.py:28-51 | the traversal only adds: no key or parent is lost, and every added parent is non-empty |
| GenerateRelations.TraversePropsExtends | src/lib/maintenance/generate_relations.py:34-51 | the same for the loop over `properties.items()` |
| GenerateRelations.VisitPropExtends | src/lib/maintenance/generate_relations.py:35-51 | the same for one property |
| GenerateRelations.TraverseAddsOnly | src/lib/maintenance/generate_relations.py:28-51 | edges come only from object-like properties: every added edge goes from the singular name of an object or array-of-objects property reachable from the node, to the parent or another such name |
| GenerateRelations.TraverseNoObjects | src/lib/maintenance/generate_relations.py:28-51 | a schema with no object-like property anywhere leaves the table unchanged |
| GenerateRelations.PropertyEdge | src/lib/maintenance/generate_relations.py:39-51 | an object property, or an array of objects, under a non-empty parent adds the edge from its singular name to that parent |
| GenerateRelations.TraverseCases | src/lib/maintenance/generate_relations.py:30-34 | a non-dict node and a dict without `properties` add nothing; a non-dict `properties` raises AttributeError |
| GenerateRelations.TraverseSchema | src/lib/maintenance/generate_relations.py:28-51 | the recursion computes `Traverse(node, parentName, relations)` |
| GenerateRelations.VisitProperty | src/lib/maintenance/generate_relations.py:35-51 | one loop iteration computes `VisitProp` |
| GenerateRelations.OverridesShape | src/lib/maintenance/generate_relations.py:62-90 | the keys include `organization`, `attribute`, `metadata`, `taxonomy_term` and `service`; `service` has no parents; no key is its own parent; `attribute` is a parent of `taxonomy_term` and not the reverse |
| GenerateRelations.OverridesPolymorphic | src/lib/maintenance/generate_relations.py:68-74 | every entity seen, less the excluded ones and itself, is a parent of `attribute` and of `metadata` |
| GenerateRelations.OverridesKeep | src/lib/maintenance/generate_relations.py:79-90 | no traversed edge is lost except `service`'s, self edges and `attribute`→`taxonomy_term` |
| GenerateRelations.OverridesOnly | src/lib/maintenance/generate_relations.py:62-90 | no parent is added beyond the traversal's and the overrides' |
| GenerateRelations.RemoveSelfLoops | src/lib/maintenance/generate_relations.py:85-87 | the loop removes every key from its own parents and changes nothing else |
| GenerateRelations.SortedUnique | src/lib/maintenance/generate_relations.py:101 | a sorted listing is determined by its elements, so `sorted(list(s))` does not depend on set order |
| GenerateRelations.NoRepeats | src/lib/maintenance/generate_relations.py:101 | a listing of a set has no repeats |
| GenerateRelations.SortedList | src/lib/maintenance/generate_relations.py:101 | `sorted(list(s))` is the sorted listing of `s` |
| GenerateRelations.Lookup | src/lib/maintenance/generate_relations.py:93-105 | `final_dict[k]` is missing iff `k` is not a key, and is otherwise the parents of an entry `k` |
| GenerateRelations.CoreRank | src/lib/maintenance/generate_relations.py:97 | a key's rank is its position in `core_keys`, or beyond them |
| GenerateRelations.EntriesShape | src/lib/maintenance/generate_relations.py:99-105 | each loop adds exactly the keys it keeps, each with its parents sorted |
| GenerateRelations.EntriesOrdered | src/lib/maintenance/generate_relations.py:99-105 | a loop's entries come in the order of the keys it walks |
| GenerateRelations.FinalDictShape | src/lib/maintenance/generate_relations.py:93-107 | every key once with its parents sorted; core keys first in `core_keys` order, then the rest alphabetically |
| GenerateRelations.CombineLists | src/lib/maintenance/generate_relations.py:97-105 | the two loops together list the whole table, each key once |
| GenerateRelations.CombineOrder | src/lib/maintenance/generate_relations.py:97-105 | the two loops together put the core keys first, then the rest in sorted order |
| GenerateRelations.RelationsDictFacts | src/lib/maintenance/generate_relations.py:54-107 | the result has `organization`, `service` with no parents, no entity listing itself, `attribute` among `taxonomy_term`'s parents and `taxonomy_term` not among `attribute`'s |
| GenerateRelations.GenerateRelationsDict | src/lib/maintenance/generate_relations.py:54-107 | the method computes `RelationsDict(schema)` |
| GenerateRelations.ApplyOverrides | src/lib/maintenance/generate_relations.py:61-90 | the override statements compute `Overrides(traversed)` |
| GenerateRelations.BuildFinalDict | src/lib/maintenance/generate_relations.py:93-105 | the two loops compute `FinalDict(relations)` |
| GenerateRelations.AddEntries | src/lib/maintenance/generate_relations.py:99-105 | one loop appends exactly `Entries(relations, ks, core)` |
| GenerateRelations.PiecesJoin | src/lib/maintenance/generate_relations.py:116-126 | a loop writing `sep` after each item but the last and `last` after the last writes the joined items, then `last` |
| GenerateRelations.PiecesTerminated | src/lib/maintenance/generate_relations.py:116-126 | so the whole loop writes `Join(sep, xs)` then `last`, and nothing for no items |
| GenerateRelations.DictContentShape | src/lib/maintenance/generate_relations.py:113-127 | the literal starts `HSDS_RELATIONS = {\n` and ends `}\n`; the empty dict gives just those two |
| GenerateRelations.RelationsContent | src/lib/maintenance/generate_relations.py:113-127 | the nested `+=` loops compute `DictContent(relations)`: entries separated by `,\n\n`, parents by `,\n` |
| GenerateRelations.AppendEntry | src/lib/maintenance/generate_relations.py:115-122 | one outer iteration appends the key line, the quoted parents and the closing bracket |
| Logger.TransformerLog.constructor | src/lib/logger.py:9-10 | a fresh log has no entries and `get_log` returns `""` |
| Logger.TransformerLog.Log | src/lib/logger.py:12-14 | `log(m)` appends exactly `m` to the entries; the rendered log gains `\n` + `m` |
| Logger.TransformerLog.Section | src/lib/logger.py:16-19 | `section(t)` appends `""` then `=== t ===` |
| Logger.TransformerLog.Clear | src/lib/logger.py:25-27 | `clear` leaves no entries and an empty rendered log |
| Logger.RenderSnoc | src/lib/logger.py:21-23 | appending an entry appends it to the joined text, after `\n` unless the log was empty |
| Logger.RenderSection | src/lib/logger.py:16-23 | a section after some entries puts two newlines before its header in the joined text, one when the log was empty |
| Logger.RenderLines | src/lib/logger.py:21-23 | the joined text splits on `\n` back into the entries when none holds a newline |
| Logger.RenderLength | src/lib/logger.py:21-23 | the joined text is the entries plus one newline between each two |
| Collections.AlnumRun | src/lib/collections.py:18 | the maximal run of ASCII letters and digits from a position |
| Collections.LastMatch | src/lib/collections.py:18 | greedy `.+`: the last split position where the pattern matches |
| Collections.MappingNameSpec | src/lib/collections.py:18-24 | a name matches iff some split fits; the input name is then non-empty with no newline, the type a non-empty alphanumeric run, the name starts `input_type_mapping.csv`, and no longer input name fits |
| Collections.MappingNameOf | src/lib/collections.py:18-24 | `<input>_<type>_mapping.csv` gives back `(input, type)` for any non-empty input without newlines and any non-empty alphanumeric type |
| Collections.ServiceAtLocationExample | src/lib/collections.py:18-24 | `x_service_at_location_mapping.csv` gives `("x_service_at", "location")` |
| Collections.MapAll | src/lib/collections.py:37-41 | one object per input row, in row order, each the nested map of its row |
| Collections.SkipsUnmatched | src/lib/collections.py:21-22 | a mapping file whose name does not match adds nothing |
| Collections.SkipsMissingInput | src/lib/collections.py:25-29 | a mapping file without its `<input>.csv` adds nothing |
| Collections.PairedFile | src/lib/collections.py:25-43 | a mapping file with its input file adds one `(object_type, objects)` entry, one object per input row in order |
| Collections.InputRowsTagged | src/lib/collections.py:25-32 | the input rows are tagged with the input name |
| Collections.CollectionsShape | src/lib/collections.py:17-45 | at most one entry per mapping file, each named by a non-empty alphanumeric object type |
| Collections.BuildCollections | src/lib/collections.py:6-45 | the loop over the mapping files computes `Collections(dir, mappingFiles, nestedMap)` |
| Collections.ProcessMappingFile | src/lib/collections.py:18-43 | one iteration computes that file's contribution |
| Collections.MapRows | src/lib/collections.py:37-41 | the inner loop computes `MapAll(inputRows, mapping, nestedMap)` |
| Collections.CollectionsPrefixErr | src/lib/collections.py:35 | once a mapping file crashes the nested parser, later files are not read |

## Left out

- File and directory I/O: CSV and JSON files are handed in as their rows or values, and the writers return rows or strings.
- `csv.reader` quoting and line splitting: a row's cells are taken as given. The writer's round-trip lemmas assume reading back yields the rows written.
- `glob("*_mapping.csv")` order: the mapping files are a parameter, in whatever order the glob yields them. `Path.exists()` is membership in the directory's file map.
- `nested_map` (imported from src/lib/mapper.py) is not part of this model. `build_collections` takes it as a function parameter.
- The rest of src/lib/mapper.py (glom, pydantic, float and date transforms), the CLI wrappers and the FastAPI app are not part of this model.
- `ingest_json_directory`: directory listing and JSON file reading.
- `write_relations_file` after `dict_content`: the `ast`-based docstring recovery and the file write (src/lib/maintenance/generate_relations.py:129-145).
- The module-level `transformer_log` instance (src/lib/logger.py:31). Only the class is modelled.
- Floating-point numbers: `Json.Value` has integers only.
- `Json.Repr`: strings are always single-quoted and never escaped, unlike Python's `repr`.
- `Strings.Lower`: lower-cases ASCII letters only.
- Set iteration order: `list(s)` is any listing of `s` (ghost). Every use of it is sorted, which makes the result independent of that order (`GenerateRelations.SortedUnique`).
- The `relations` defaultdict is threaded through the traversal as a map value, not mutated by reference. `relations[k]` creating an empty entry is modelled only where the source reads it that way.
- Parser.InsertAt: the in-place updates through `current_level` are modelled by rebuilding the tree value at each step. Aliasing between `current_level` and `mapping` is not modelled.
- CsvReader.MakeRow: the surplus cells that `csv.DictReader` stores under the key `None` are a separate `rest` field of the row, not a dict key.
- Parser.ParseInputCsv: the `filename` parameter is accepted and ignored, as in the source, which recomputes the table name from the path.
- Generator.WalkRows: the shallow copy `merged_entry` with its merged `required` list and no `tabular_required` is modelled as the override `req` of the required set, not as a copied dict.
- Generator.ShouldSkip: modelled, but `Generator.IncludedIffNotSkipped` shows the test never fires after the path filter.
- A JSON Schema is a `Json.Value`. Non-string dict keys cannot occur, so the `isinstance(prop_name, str)` guard is always true.
- GenerateRelations.DictContent: keys and parents are quoted as they are, with no escaping.
