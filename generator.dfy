/**
 * src/lib/generate_mapping/generator.py: `_should_include_field` and
 * `flatten_schema`, which walks a JSON Schema depth first and lists one
 * `FieldSpec` per property path, with its normalised description and whether
 * it is required along the whole ancestor chain.
 */
module Generator {
  import opened Wrappers
  import opened Strings
  import opened Json

  /** One row of the mapping template. */
  datatype FieldSpec = FieldSpec(path: string, description: string, required: bool)

  // ---------------------------------------------------------------------------
  // _should_include_field

  /** The first position of `x` in `parts`, or `|parts|` when it is absent. */
  function FirstIndexOf(parts: seq<string>, x: string): (i: nat)
    ensures i <= |parts|
    ensures forall j :: 0 <= j < i ==> parts[j] != x
    ensures i < |parts| ==> parts[i] == x
  {
    if parts == [] then 0
    else if parts[0] == x then 0
    else 1 + FirstIndexOf(parts[1..], x)
  }

  /** Nothing under `metadata[]`; under the first `attributes[]`, only the list
      itself and its `value`. */
  predicate IncludedParts(parts: seq<string>) {
    if "metadata[]" in parts then false
    else
      var i := FirstIndexOf(parts, "attributes[]");
      i == |parts| || parts[i + 1..] == [] || parts[i + 1..] == ["value"]
  }

  predicate Included(path: string) {
    IncludedParts(Split(path, '.'))
  }

  /** The test `walk` makes again before recursing: some part is `metadata[]`,
      or some `attributes[]` part is followed by anything but nothing or `value`. */
  predicate Skipped(parts: seq<string>) {
    exists i :: 0 <= i < |parts| &&
      (parts[i] == "metadata[]" || (parts[i] == "attributes[]" && parts[i + 1..] != [] && parts[i + 1..] != ["value"]))
  }

  /** The rule looks only at the first `attributes[]`, but a path it lets through
      has no later one, so it holds for every `attributes[]` part. Hence the
      second test in `walk` never skips a path the first one kept. */
  lemma IncludedIffNotSkipped(parts: seq<string>)
    ensures IncludedParts(parts) <==> !Skipped(parts)
  {
    var i := FirstIndexOf(parts, "attributes[]");
    if IncludedParts(parts) {
      forall j | 0 <= j < |parts|
        ensures !(parts[j] == "metadata[]" || (parts[j] == "attributes[]" && parts[j + 1..] != [] && parts[j + 1..] != ["value"]))
      {
        if i < |parts| && i < j {
          assert parts[j] == parts[i + 1..][j - i - 1];
        }
      }
    } else if "metadata[]" in parts {
      var j :| 0 <= j < |parts| && parts[j] == "metadata[]";
    } else {
      assert parts[i] == "attributes[]";
    }
  }

  /** Any path with a `metadata[]` part is left out. */
  lemma MetadataExcluded(path: string)
    requires "metadata[]" in Split(path, '.')
    ensures !Included(path)
  {
  }

  /** A path through `attributes[]` is kept exactly when it stops there or at its `value`. */
  lemma AttributesRule(path: string, i: nat)
    requires i < |Split(path, '.')| && Split(path, '.')[i] == "attributes[]"
    requires forall j :: 0 <= j < i ==> Split(path, '.')[j] != "attributes[]"
    requires "metadata[]" !in Split(path, '.')
    ensures Included(path) <==> Split(path, '.')[i + 1..] == [] || Split(path, '.')[i + 1..] == ["value"]
  {
    FirstIndexOfIs(Split(path, '.'), "attributes[]", i);
  }

  /** A path without either special part is always kept. */
  lemma PlainIncluded(path: string)
    requires "metadata[]" !in Split(path, '.') && "attributes[]" !in Split(path, '.')
    ensures Included(path)
  {
  }

  /** `_should_include_field(path)`, with its two early-return loops. */
  method ShouldIncludeField(path: string) returns (b: bool)
    ensures b == Included(path)
  {
    var parts := Split(path, '.');
    var i := 0;
    while i < |parts|
      invariant 0 <= i <= |parts|
      invariant "metadata[]" !in parts[..i]
    {
      if parts[i] == "metadata[]" {
        return false;
      }
      assert parts[..i + 1] == parts[..i] + [parts[i]];
      i := i + 1;
    }
    assert parts[..i] == parts;
    i := 0;
    while i < |parts|
      invariant 0 <= i <= |parts|
      invariant forall j :: 0 <= j < i ==> parts[j] != "attributes[]"
    {
      if parts[i] == "attributes[]" {
        assert FirstIndexOf(parts, "attributes[]") == i by {
          FirstIndexOfIs(parts, "attributes[]", i);
        }
        var after := parts[i + 1..];
        if after == [] || after == ["value"] {
          return true;
        }
        return false;
      }
      i := i + 1;
    }
    FirstIndexOfIs(parts, "attributes[]", |parts|);
    return true;
  }

  lemma {:induction false} FirstIndexOfIs(parts: seq<string>, x: string, i: nat)
    requires i <= |parts| && (forall j :: 0 <= j < i ==> parts[j] != x) && (i < |parts| ==> parts[i] == x)
    ensures FirstIndexOf(parts, x) == i
  {
    if parts != [] && i > 0 {
      FirstIndexOfIs(parts[1..], x, i - 1);
    }
  }

  /** The `should_skip` loop of `walk`. */
  method ShouldSkip(path: string) returns (b: bool)
    ensures b == Skipped(Split(path, '.'))
  {
    var parts := Split(path, '.');
    var i := 0;
    while i < |parts|
      invariant 0 <= i <= |parts|
      invariant forall j :: 0 <= j < i ==>
        !(parts[j] == "metadata[]" || (parts[j] == "attributes[]" && parts[j + 1..] != [] && parts[j + 1..] != ["value"]))
    {
      if parts[i] == "attributes[]" {
        var after := parts[i + 1..];
        if after != [] && after != ["value"] {
          return true;
        }
      }
      if parts[i] == "metadata[]" {
        return true;
      }
      i := i + 1;
    }
    return false;
  }

  // ---------------------------------------------------------------------------
  // normalize_desc and join

  /** `value.replace("\r", " ").replace("\n", " ")`. */
  function ReplaceNewlines(s: string): (r: string)
    ensures |r| == |s|
    ensures forall i :: 0 <= i < |s| ==> r[i] == if s[i] == '\r' || s[i] == '\n' then ' ' else s[i]
  {
    seq(|s|, i requires 0 <= i < |s| => if s[i] == '\r' || s[i] == '\n' then ' ' else s[i])
  }

  /** `normalize_desc(value)`: `""` for anything but a string; otherwise the
      words of the text joined by single spaces. */
  function NormalizeDesc(v: Option<Value>): string
  {
    match v
    case Some(Str(s)) => Trim(Join(" ", Words(ReplaceNewlines(s))))
    case _ => ""
  }

  /** A normalised description has no line breaks, no whitespace at either end
      and no run of two spaces, and keeps the words of the text with its line
      breaks made spaces; normalising it again changes nothing. */
  lemma NormalizeDescShape(v: Option<Value>)
    ensures SingleSpaced(NormalizeDesc(v))
    ensures '\r' !in NormalizeDesc(v) && '\n' !in NormalizeDesc(v)
    ensures v.Some? && v.value.Str? ==> Words(NormalizeDesc(v)) == Words(ReplaceNewlines(v.value.s))
    ensures NormalizeDesc(Some(Str(NormalizeDesc(v)))) == NormalizeDesc(v)
  {
    if v.Some? && v.value.Str? {
      var ws := Words(ReplaceNewlines(v.value.s));
      var j := Join(" ", ws);
      JoinWordsSingleSpaced(ws);
      TrimSingleSpaced(j);
      assert NormalizeDesc(v) == j;
      assert ReplaceNewlines(j) == j;
      WordsJoin(ws);
    }
  }

  lemma TrimSingleSpaced(s: string)
    requires SingleSpaced(s)
    ensures Trim(s) == s
  {
    assert TrimLeft(s) == s;
    if s != "" {
      assert !IsSpace(s[|s| - 1]);
    }
  }

  /** `join(prefix, part)`: no leading dot at the top level. */
  function JoinPath(prefix: string, part: string): string
  {
    if prefix == "" then part else prefix + "." + part
  }

  /** `path` lies below `prefix` (anything lies below the empty prefix). */
  predicate Under(path: string, prefix: string) {
    prefix == "" || StartsWith(path, prefix + ".")
  }

  lemma UnderJoin(prefix: string, part: string)
    ensures Under(JoinPath(prefix, part), prefix)
  {
    if prefix != "" {
      assert (prefix + "." + part)[..|prefix + "."|] == prefix + ".";
    }
  }

  lemma UnderTrans(path: string, mid: string, prefix: string)
    requires mid != "" && Under(path, mid) && Under(mid, prefix)
    ensures Under(path, prefix)
  {
    if prefix != "" {
      assert path[..|prefix + "."|] == mid[..|prefix + "."|];
    }
  }

  // ---------------------------------------------------------------------------
  // iter_required

  /** The string items of a list, as `for item in items: if isinstance(item, str)` collects them. */
  function StrItems(xs: seq<Value>): set<string>
    decreases |xs|
  {
    if xs == [] then {}
    else StrItems(xs[..|xs| - 1]) + (if xs[|xs| - 1].Str? then {xs[|xs| - 1].s} else {})
  }

  /** The keys of a dict, which is what iterating over it yields. */
  function KeySet(fs: Fields): set<string>
    decreases |fs|
  {
    if fs == [] then {} else KeySet(fs[..|fs| - 1]) + {fs[|fs| - 1].0}
  }

  /** What one `required`-like entry contributes: the string items of a list,
      or the keys of a dict; nothing for a string, a number, a bool or `None`. */
  function RequiredOf(items: Option<Value>): set<string>
  {
    match items
    case Some(Arr(xs)) => StrItems(xs)
    case Some(Obj(fs)) => KeySet(fs)
    case _ => {}
  }

  /** `iter_required(node)`. */
  function IterRequired(node: Fields): set<string>
  {
    RequiredOf(Get(node, "required")) + RequiredOf(Get(node, "tabular_required"))
  }

  lemma {:induction false} StrItemsMembers(xs: seq<Value>, x: string)
    ensures x in StrItems(xs) <==> Str(x) in xs
    decreases |xs|
  {
    if xs != [] {
      StrItemsMembers(xs[..|xs| - 1], x);
      assert xs == xs[..|xs| - 1] + [xs[|xs| - 1]];
    }
  }

  lemma {:induction false} KeySetMembers(fs: Fields, k: string)
    ensures k in KeySet(fs) <==> k in Keys(fs)
    decreases |fs|
  {
    if fs != [] {
      KeySetMembers(fs[..|fs| - 1], k);
      var init := fs[..|fs| - 1];
      assert Keys(fs) == Keys(init) + [fs[|fs| - 1].0];
    }
  }

  /** `name` is listed by one `required`-like entry: the entry is present and
      is a list holding the string `name`, or a dict with the key `name`. */
  predicate Listed(items: Option<Value>, name: string) {
    items.Some? &&
      ((items.value.Arr? && Str(name) in items.value.items) ||
       (items.value.Obj? && name in Keys(items.value.fields)))
  }

  /** One entry contributes exactly the names it lists; a missing key, a
      string, a number, a bool or `None` contributes nothing. */
  lemma RequiredOfMembers(items: Option<Value>, name: string)
    ensures name in RequiredOf(items) <==> Listed(items, name)
  {
    if items.Some? && items.value.Arr? {
      StrItemsMembers(items.value.items, name);
    } else if items.Some? && items.value.Obj? {
      KeySetMembers(items.value.fields, name);
    }
  }

  /** A name is required in a node exactly when its `required` or its
      `tabular_required` entry lists it, whichever of the two are present. */
  lemma RequiredListed(node: Fields, name: string)
    ensures name in IterRequired(node) <==>
      Listed(Get(node, "required"), name) || Listed(Get(node, "tabular_required"), name)
  {
    RequiredOfMembers(Get(node, "required"), name);
    RequiredOfMembers(Get(node, "tabular_required"), name);
  }

  /** The union `merged_required` of the `required` sets of the dict entries of an `allOf`. */
  function MergedRequired(entries: seq<Value>): set<string>
    decreases |entries|
  {
    if entries == [] then {}
    else
      var last := entries[|entries| - 1];
      MergedRequired(entries[..|entries| - 1]) + (if last.Obj? then IterRequired(last.fields) else {})
  }

  predicate RequiresName(entry: Value, name: string) {
    entry.Obj? && name in IterRequired(entry.fields)
  }

  /** A name is in the merged set exactly when one of the dict entries requires it. */
  lemma {:induction false} MergedRequiredMembers(entries: seq<Value>, name: string)
    ensures name in MergedRequired(entries) <==> exists j :: 0 <= j < |entries| && RequiresName(entries[j], name)
    decreases |entries|
  {
    if entries != [] {
      var init := entries[..|entries| - 1];
      var last := entries[|entries| - 1];
      MergedRequiredMembers(init, name);
      var added := if last.Obj? then IterRequired(last.fields) else {};
      assert name in MergedRequired(entries) <==> name in MergedRequired(init) || name in added;
      assert name in added <==> RequiresName(last, name);
      if name in MergedRequired(init) {
        var j :| 0 <= j < |init| && RequiresName(init[j], name);
        assert entries[j] == init[j];
      } else if RequiresName(last, name) {
        assert entries[|entries| - 1] == last;
      } else {
        forall j | 0 <= j < |entries| ensures !RequiresName(entries[j], name) {
          if j < |init| {
            assert init[j] == entries[j];
            assert !RequiresName(init[j], name);
          } else {
            assert entries[j] == last;
          }
        }
      }
    }
  }

  // ---------------------------------------------------------------------------
  // walk, as functions that thread the rows list through the recursion

  /** A size that the walk's recursion decreases. */
  function Size(v: Value): nat
  {
    match v
    case Arr(xs) => 1 + SizeSeq(xs)
    case Obj(fs) => 1 + SizeFields(fs)
    case _ => 1
  }

  function SizeSeq(xs: seq<Value>): nat
  {
    if xs == [] then 0 else 1 + Size(xs[0]) + SizeSeq(xs[1..])
  }

  function SizeFields(fs: Fields): nat
  {
    if fs == [] then 0 else SizePair(fs[0]) + SizeFields(fs[1..])
  }

  function SizePair(p: (string, Value)): nat
  {
    1 + Size(p.1)
  }

  lemma {:induction false} GetSmaller(fs: Fields, k: string)
    requires Get(fs, k).Some?
    ensures Size(Get(fs, k).value) < SizeFields(fs)
  {
    if fs[0].0 != k {
      GetSmaller(fs[1..], k);
    }
  }

  predicate IsObj(v: Option<Value>) {
    v.Some? && v.value.Obj?
  }

  predicate IsArr(v: Option<Value>) {
    v.Some? && v.value.Arr?
  }

  function Paths(rows: seq<FieldSpec>): set<string>
  {
    set i | 0 <= i < |rows| :: rows[i].path
  }

  /** The composition keywords, in the order `walk` visits them. */
  const Compositions: seq<string> := ["allOf", "oneOf", "anyOf"]

  /** `walk(node, prefix, ancestors_required)` applied to `rows`. `req` is the
      required set of the shallow copy made for an `allOf` entry, whose
      `required` list is the merged one and which has no `tabular_required`. */
  function WalkRows(node: Value, req: Option<set<string>>, prefix: string, anc: bool, rows: seq<FieldSpec>): seq<FieldSpec>
    decreases Size(node), 4
  {
    if !node.Obj? then rows
    else
      var fs := node.fields;
      var properties := Get(fs, "properties");
      var rows1 :=
        if Get(fs, "type") == Some(Str("object")) || IsObj(properties) then
          var requiredSet := if req.Some? then req.value else IterRequired(fs);
          if IsObj(properties) then
            GetSmaller(fs, "properties");
            PropsRows(properties.value.fields, requiredSet, prefix, anc, rows)
          else PropsRows([], requiredSet, prefix, anc, rows)
        else rows;
      var rows2 := CompsRows(node, Compositions, prefix, anc, rows1);
      var items := Get(fs, "items");
      if Get(fs, "type") == Some(Str("array")) && IsObj(items) then
        GetSmaller(fs, "items");
        WalkRows(items.value, None, prefix, anc, rows2)
      else rows2
  }

  /** The loop over `props.items()`. */
  function PropsRows(props: Fields, requiredSet: set<string>, prefix: string, anc: bool, rows: seq<FieldSpec>): seq<FieldSpec>
    decreases SizeFields(props), 0
  {
    if props == [] then rows
    else
      assert SizeFields(props) == 1 + Size(props[0].1) + SizeFields(props[1..]);
      PropsRows(props[1..], requiredSet, prefix, anc, PropRows(props[0].0, props[0].1, requiredSet, prefix, anc, rows))
  }

  /** `part`: a property of type `array` gets the suffix `[]`. */
  function Part(name: string, propSchema: Fields): string
  {
    if Get(propSchema, "type") == Some(Str("array")) then name + "[]" else name
  }

  /** The body of that loop for one property. */
  function PropRows(name: string, propSchema: Value, requiredSet: set<string>, prefix: string, anc: bool, rows: seq<FieldSpec>)
    : seq<FieldSpec>
    decreases Size(propSchema), 5
  {
    if !propSchema.Obj? then rows
    else
      var ps := propSchema.fields;
      var propPath := JoinPath(prefix, Part(name, ps));
      if !Included(propPath) then rows
      else
        var effective := anc && name in requiredSet;
        if propPath in Paths(rows) then rows
        else
          var rows1 := rows + [FieldSpec(propPath, NormalizeDesc(Get(ps, "description")), effective)];
          match Descent(propSchema, propPath)
          case None => rows1
          case Some(child) => WalkRows(child, None, propPath, effective, rows1)
  }

  /** The node `walk` recurses into after listing a property on its first
      encounter: none when the path is skipped; the `items` dict of an array;
      the property itself when it is an object, has a `properties` dict or a
      composition list. */
  function Descent(propSchema: Value, propPath: string): (r: Option<Value>)
    requires propSchema.Obj?
    ensures r.Some? ==> Size(r.value) <= Size(propSchema)
  {
    var ps := propSchema.fields;
    if Skipped(Split(propPath, '.')) then None
    else if Get(ps, "type") == Some(Str("array")) then
      var items := Get(ps, "items");
      if IsObj(items) then
        GetSmaller(ps, "items");
        Some(items.value)
      else None
    else if Get(ps, "type") == Some(Str("object")) || IsObj(Get(ps, "properties")) then Some(propSchema)
    else if IsArr(Get(ps, "allOf")) || IsArr(Get(ps, "oneOf")) || IsArr(Get(ps, "anyOf")) then Some(propSchema)
    else None
  }

  /** The loop over the composition keywords. */
  function CompsRows(node: Value, keys: seq<string>, prefix: string, anc: bool, rows: seq<FieldSpec>): seq<FieldSpec>
    requires node.Obj?
    decreases Size(node), 3, |keys|
  {
    if keys == [] then rows
    else
      var value := Get(node.fields, keys[0]);
      var rows1 :=
        if IsArr(value) then
          GetSmaller(node.fields, keys[0]);
          var entries := value.value.items;
          var req := if keys[0] == "allOf" then Some(MergedRequired(entries)) else None;
          EntriesRows(entries, req, prefix, anc, rows)
        else rows;
      CompsRows(node, keys[1..], prefix, anc, rows1)
  }

  /** The loop over the entries of one composition list. */
  function EntriesRows(entries: seq<Value>, req: Option<set<string>>, prefix: string, anc: bool, rows: seq<FieldSpec>)
    : seq<FieldSpec>
    decreases SizeSeq(entries), 0
  {
    if entries == [] then rows
    else
      var rows1 := if entries[0].Obj? then WalkRows(entries[0], req, prefix, anc, rows) else rows;
      EntriesRows(entries[1..], req, prefix, anc, rows1)
  }

  /** Why `flatten_schema` refuses a schema. */
  datatype SchemaError = TypeError

  /** `flatten_schema(schema)`. */
  function Flatten(schema: Value): Result<seq<FieldSpec>, SchemaError>
  {
    if !schema.Obj? then Err(TypeError) else Ok(WalkRows(schema, None, "", true, []))
  }

  // ---------------------------------------------------------------------------
  // What the walk keeps true

  /** A row `walk` may add below `prefix`: its path passes the filter and lies
      under the prefix, its description is normalised, and it is not required
      unless every ancestor is. */
  predicate RowOk(r: FieldSpec, prefix: string, anc: bool) {
    Included(r.path) && SingleSpaced(r.description) && Under(r.path, prefix) && (anc || !r.required)
  }

  /** `rows` extends `rows0` (whose rows are left as they were) by rows that are `RowOk`. */
  predicate Grows(rows0: seq<FieldSpec>, rows: seq<FieldSpec>, prefix: string, anc: bool) {
    |rows0| <= |rows| && rows[..|rows0|] == rows0 &&
    forall i :: |rows0| <= i < |rows| ==> RowOk(rows[i], prefix, anc)
  }

  predicate UniquePaths(rows: seq<FieldSpec>) {
    forall i, j :: 0 <= i < j < |rows| ==> rows[i].path != rows[j].path
  }

  lemma GrowsRefl(rows: seq<FieldSpec>, prefix: string, anc: bool)
    ensures Grows(rows, rows, prefix, anc)
  {
  }

  lemma GrowsTrans(a: seq<FieldSpec>, b: seq<FieldSpec>, c: seq<FieldSpec>, prefix: string, anc: bool)
    requires Grows(a, b, prefix, anc) && Grows(b, c, prefix, anc)
    ensures Grows(a, c, prefix, anc)
  {
    assert c[..|a|] == c[..|b|][..|a|];
  }

  /** Rows added below a child path are rows added below its parent. */
  lemma GrowsBelow(a: seq<FieldSpec>, b: seq<FieldSpec>, mid: string, inner: bool, prefix: string, anc: bool)
    requires Grows(a, b, mid, inner) && Under(mid, prefix) && (mid == "" ==> prefix == "") && (inner ==> anc)
    ensures Grows(a, b, prefix, anc)
  {
    forall i | |a| <= i < |b| ensures RowOk(b[i], prefix, anc) {
      if mid != "" {
        UnderTrans(b[i].path, mid, prefix);
      }
    }
  }

  lemma AppendRow(rows: seq<FieldSpec>, r: FieldSpec, prefix: string, anc: bool)
    requires RowOk(r, prefix, anc)
    ensures Grows(rows, rows + [r], prefix, anc)
    ensures UniquePaths(rows) && r.path !in Paths(rows) ==> UniquePaths(rows + [r])
  {
    assert (rows + [r])[..|rows|] == rows;
    if UniquePaths(rows) && r.path !in Paths(rows) {
      var s := rows + [r];
      forall i, j | 0 <= i < j < |s| ensures s[i].path != s[j].path {
        if j == |rows| {
          assert s[i].path == rows[i].path;
        }
      }
    }
  }

  lemma {:induction false} WalkGrows(node: Value, req: Option<set<string>>, prefix: string, anc: bool, rows: seq<FieldSpec>)
    ensures Grows(rows, WalkRows(node, req, prefix, anc, rows), prefix, anc)
    ensures UniquePaths(rows) ==> UniquePaths(WalkRows(node, req, prefix, anc, rows))
    decreases Size(node), 4
  {
    if !node.Obj? {
      GrowsRefl(rows, prefix, anc);
    } else {
      var fs := node.fields;
      var properties := Get(fs, "properties");
      var rows1 :=
        if Get(fs, "type") == Some(Str("object")) || IsObj(properties) then
          var requiredSet := if req.Some? then req.value else IterRequired(fs);
          if IsObj(properties) then
            GetSmaller(fs, "properties");
            PropsRows(properties.value.fields, requiredSet, prefix, anc, rows)
          else PropsRows([], requiredSet, prefix, anc, rows)
        else rows;
      if Get(fs, "type") == Some(Str("object")) || IsObj(properties) {
        var requiredSet := if req.Some? then req.value else IterRequired(fs);
        if IsObj(properties) {
          GetSmaller(fs, "properties");
          PropsGrows(properties.value.fields, requiredSet, prefix, anc, rows);
        } else {
          PropsGrows([], requiredSet, prefix, anc, rows);
        }
      } else {
        GrowsRefl(rows, prefix, anc);
      }
      var rows2 := CompsRows(node, Compositions, prefix, anc, rows1);
      CompsGrows(node, Compositions, prefix, anc, rows1);
      GrowsTrans(rows, rows1, rows2, prefix, anc);
      var items := Get(fs, "items");
      if Get(fs, "type") == Some(Str("array")) && IsObj(items) {
        GetSmaller(fs, "items");
        WalkGrows(items.value, None, prefix, anc, rows2);
        GrowsTrans(rows, rows2, WalkRows(items.value, None, prefix, anc, rows2), prefix, anc);
      }
    }
  }

  lemma {:induction false} PropsGrows(props: Fields, requiredSet: set<string>, prefix: string, anc: bool, rows: seq<FieldSpec>)
    ensures Grows(rows, PropsRows(props, requiredSet, prefix, anc, rows), prefix, anc)
    ensures UniquePaths(rows) ==> UniquePaths(PropsRows(props, requiredSet, prefix, anc, rows))
    decreases SizeFields(props), 0
  {
    if props == [] {
      GrowsRefl(rows, prefix, anc);
    } else {
      assert SizeFields(props) == 1 + Size(props[0].1) + SizeFields(props[1..]);
      var rows1 := PropRows(props[0].0, props[0].1, requiredSet, prefix, anc, rows);
      PropGrows(props[0].0, props[0].1, requiredSet, prefix, anc, rows);
      PropsGrows(props[1..], requiredSet, prefix, anc, rows1);
      GrowsTrans(rows, rows1, PropsRows(props[1..], requiredSet, prefix, anc, rows1), prefix, anc);
    }
  }

  lemma {:induction false} PropGrows(name: string, propSchema: Value, requiredSet: set<string>, prefix: string, anc: bool, rows: seq<FieldSpec>)
    ensures Grows(rows, PropRows(name, propSchema, requiredSet, prefix, anc, rows), prefix, anc)
    ensures UniquePaths(rows) ==> UniquePaths(PropRows(name, propSchema, requiredSet, prefix, anc, rows))
    decreases Size(propSchema), 5
  {
    var r := PropRows(name, propSchema, requiredSet, prefix, anc, rows);
    if !propSchema.Obj? {
      GrowsRefl(rows, prefix, anc);
    } else {
      var ps := propSchema.fields;
      var propPath := JoinPath(prefix, Part(name, ps));
      var effective := anc && name in requiredSet;
      if !Included(propPath) || propPath in Paths(rows) {
        GrowsRefl(rows, prefix, anc);
      } else {
        var row := FieldSpec(propPath, NormalizeDesc(Get(ps, "description")), effective);
        var rows1 := rows + [row];
        NormalizeDescShape(Get(ps, "description"));
        UnderJoin(prefix, Part(name, ps));
        AppendRow(rows, row, prefix, anc);
        match Descent(propSchema, propPath)
        case None =>
        case Some(child) =>
          WalkGrows(child, None, propPath, effective, rows1);
          GrowsBelow(rows1, r, propPath, effective, prefix, anc);
          GrowsTrans(rows, rows1, r, prefix, anc);
      }
    }
  }

  lemma {:induction false} CompsGrows(node: Value, keys: seq<string>, prefix: string, anc: bool, rows: seq<FieldSpec>)
    requires node.Obj?
    ensures Grows(rows, CompsRows(node, keys, prefix, anc, rows), prefix, anc)
    ensures UniquePaths(rows) ==> UniquePaths(CompsRows(node, keys, prefix, anc, rows))
    decreases Size(node), 3, |keys|
  {
    if keys == [] {
      GrowsRefl(rows, prefix, anc);
    } else {
      var value := Get(node.fields, keys[0]);
      var rows1 := rows;
      if IsArr(value) {
        GetSmaller(node.fields, keys[0]);
        var entries := value.value.items;
        var req := if keys[0] == "allOf" then Some(MergedRequired(entries)) else None;
        rows1 := EntriesRows(entries, req, prefix, anc, rows);
        EntriesGrows(entries, req, prefix, anc, rows);
      } else {
        GrowsRefl(rows, prefix, anc);
      }
      CompsGrows(node, keys[1..], prefix, anc, rows1);
      GrowsTrans(rows, rows1, CompsRows(node, keys[1..], prefix, anc, rows1), prefix, anc);
    }
  }

  lemma {:induction false} EntriesGrows(entries: seq<Value>, req: Option<set<string>>, prefix: string, anc: bool, rows: seq<FieldSpec>)
    ensures Grows(rows, EntriesRows(entries, req, prefix, anc, rows), prefix, anc)
    ensures UniquePaths(rows) ==> UniquePaths(EntriesRows(entries, req, prefix, anc, rows))
    decreases SizeSeq(entries), 0
  {
    if entries == [] {
      GrowsRefl(rows, prefix, anc);
    } else {
      var rows1 := rows;
      if entries[0].Obj? {
        rows1 := WalkRows(entries[0], req, prefix, anc, rows);
        WalkGrows(entries[0], req, prefix, anc, rows);
      } else {
        GrowsRefl(rows, prefix, anc);
      }
      EntriesGrows(entries[1..], req, prefix, anc, rows1);
      GrowsTrans(rows, rows1, EntriesRows(entries[1..], req, prefix, anc, rows1), prefix, anc);
    }
  }

  /** `flatten_schema` refuses a non-dict; otherwise every path it lists is
      distinct and passes `_should_include_field`, and every description is
      normalised. */
  lemma FlattenRows(schema: Value)
    ensures Flatten(schema).Err? <==> !schema.Obj?
    ensures Flatten(schema).Ok? ==> var rows := Flatten(schema).value;
      UniquePaths(rows) &&
      forall i :: 0 <= i < |rows| ==> Included(rows[i].path) && SingleSpaced(rows[i].description)
  {
    if schema.Obj? {
      WalkGrows(schema, None, "", true, []);
    }
  }

  /** Below an ancestor that is not required, nothing is required. */
  lemma NotRequiredBelow(node: Value, req: Option<set<string>>, prefix: string, rows: seq<FieldSpec>)
    ensures var r := WalkRows(node, req, prefix, false, rows);
      |rows| <= |r| && forall i :: |rows| <= i < |r| ==> !r[i].required
  {
    WalkGrows(node, req, prefix, false, rows);
  }

  /** Every path added below `prefix` starts with `prefix` and a dot. */
  lemma PathsBelowPrefix(node: Value, req: Option<set<string>>, prefix: string, anc: bool, rows: seq<FieldSpec>)
    requires prefix != ""
    ensures var r := WalkRows(node, req, prefix, anc, rows);
      |rows| <= |r| && forall i :: |rows| <= i < |r| ==> StartsWith(r[i].path, prefix + ".")
  {
    WalkGrows(node, req, prefix, anc, rows);
  }

  // ---------------------------------------------------------------------------
  // What the walk lists

  /** Rows kept as a prefix keep their paths. */
  lemma PrefixPaths(a: seq<FieldSpec>, b: seq<FieldSpec>)
    requires |a| <= |b| && b[..|a|] == a
    ensures Paths(a) <= Paths(b)
  {
    forall p | p in Paths(a) ensures p in Paths(b) {
      var i :| 0 <= i < |a| && a[i].path == p;
      assert b[i] == a[i];
    }
  }

  /** A dict property whose path passes the filter is listed; on its first
      encounter the row appended is its path, its normalised description, and
      required iff every ancestor is and the node requires its name. */
  lemma PropListed(name: string, propSchema: Value, requiredSet: set<string>, prefix: string, anc: bool, rows: seq<FieldSpec>)
    requires propSchema.Obj? && Included(JoinPath(prefix, Part(name, propSchema.fields)))
    ensures JoinPath(prefix, Part(name, propSchema.fields)) in Paths(PropRows(name, propSchema, requiredSet, prefix, anc, rows))
    ensures var p := JoinPath(prefix, Part(name, propSchema.fields));
      var r := PropRows(name, propSchema, requiredSet, prefix, anc, rows);
      p !in Paths(rows) ==>
        |rows| < |r| &&
        r[|rows|] == FieldSpec(p, NormalizeDesc(Get(propSchema.fields, "description")), anc && name in requiredSet)
  {
    var p := JoinPath(prefix, Part(name, propSchema.fields));
    var r := PropRows(name, propSchema, requiredSet, prefix, anc, rows);
    PropGrows(name, propSchema, requiredSet, prefix, anc, rows);
    if p in Paths(rows) {
      PrefixPaths(rows, r);
    } else {
      var effective := anc && name in requiredSet;
      var row := FieldSpec(p, NormalizeDesc(Get(propSchema.fields, "description")), effective);
      var rows1 := rows + [row];
      assert r == match Descent(propSchema, p)
        case None => rows1
        case Some(child) => WalkRows(child, None, p, effective, rows1);
      if Descent(propSchema, p).Some? {
        WalkGrows(Descent(propSchema, p).value, None, p, effective, rows1);
        assert r[|rows|] == r[..|rows1|][|rows|];
      }
      assert r[|rows|] == row;
      assert r[|rows|].path == p;
    }
  }

  /** The properties loop is the loop over the first `k` properties followed
      by the loop over the rest. */
  lemma {:induction false} PropsSplit(props: Fields, k: nat, requiredSet: set<string>, prefix: string, anc: bool, rows: seq<FieldSpec>)
    requires k <= |props|
    ensures PropsRows(props, requiredSet, prefix, anc, rows) ==
      PropsRows(props[k..], requiredSet, prefix, anc, PropsRows(props[..k], requiredSet, prefix, anc, rows))
    decreases k
  {
    if k == 0 {
      assert props[..0] == [] && props[0..] == props;
    } else {
      var rows1 := PropRows(props[0].0, props[0].1, requiredSet, prefix, anc, rows);
      PropsSplit(props[1..], k - 1, requiredSet, prefix, anc, rows1);
      assert props[1..][k - 1..] == props[k..];
      assert props[..k][1..] == props[1..][..k - 1];
      assert props[..k][0] == props[0];
    }
  }

  /** Property `k` of the loop is listed; when no row before it has its path,
      its row sits right after the rows the loop made before reaching it. */
  lemma PropsListed(props: Fields, k: nat, requiredSet: set<string>, prefix: string, anc: bool, rows: seq<FieldSpec>)
    requires k < |props| && props[k].1.Obj?
    requires Included(JoinPath(prefix, Part(props[k].0, props[k].1.fields)))
    ensures var p := JoinPath(prefix, Part(props[k].0, props[k].1.fields));
      var before := PropsRows(props[..k], requiredSet, prefix, anc, rows);
      var r := PropsRows(props, requiredSet, prefix, anc, rows);
      p in Paths(r) &&
      (p !in Paths(before) ==>
         |before| < |r| &&
         r[|before|] == FieldSpec(p, NormalizeDesc(Get(props[k].1.fields, "description")), anc && props[k].0 in requiredSet))
  {
    var before := PropsRows(props[..k], requiredSet, prefix, anc, rows);
    PropsSplit(props, k, requiredSet, prefix, anc, rows);
    var rest := props[k..];
    assert rest[0] == props[k] && rest[1..] == props[k + 1..];
    assert SizeFields(rest) == 1 + Size(rest[0].1) + SizeFields(rest[1..]);
    var mid := PropRows(props[k].0, props[k].1, requiredSet, prefix, anc, before);
    assert PropsRows(rest, requiredSet, prefix, anc, before) == PropsRows(props[k + 1..], requiredSet, prefix, anc, mid);
    var r := PropsRows(props[k + 1..], requiredSet, prefix, anc, mid);
    PropListed(props[k].0, props[k].1, requiredSet, prefix, anc, before);
    PropsGrows(props[k + 1..], requiredSet, prefix, anc, mid);
    PrefixPaths(mid, r);
    if JoinPath(prefix, Part(props[k].0, props[k].1.fields)) !in Paths(before) {
      assert r[|before|] == r[..|mid|][|before|];
    }
  }

  /** `walk` on a dict with a `properties` dict lists each of its dict
      properties whose path passes the filter, with the row described by
      `PropListed` on its first encounter. */
  lemma WalkListed(node: Value, req: Option<set<string>>, prefix: string, anc: bool, rows: seq<FieldSpec>, k: nat)
    requires node.Obj? && IsObj(Get(node.fields, "properties"))
    requires var props := Get(node.fields, "properties").value.fields;
      k < |props| && props[k].1.Obj? && Included(JoinPath(prefix, Part(props[k].0, props[k].1.fields)))
    ensures var props := Get(node.fields, "properties").value.fields;
      var requiredSet := if req.Some? then req.value else IterRequired(node.fields);
      var p := JoinPath(prefix, Part(props[k].0, props[k].1.fields));
      var before := PropsRows(props[..k], requiredSet, prefix, anc, rows);
      var r := WalkRows(node, req, prefix, anc, rows);
      p in Paths(r) &&
      (p !in Paths(before) ==>
         |before| < |r| &&
         r[|before|] == FieldSpec(p, NormalizeDesc(Get(props[k].1.fields, "description")), anc && props[k].0 in requiredSet))
  {
    var fs := node.fields;
    var props := Get(fs, "properties").value.fields;
    var requiredSet := if req.Some? then req.value else IterRequired(fs);
    var before := PropsRows(props[..k], requiredSet, prefix, anc, rows);
    GetSmaller(fs, "properties");
    var rows1 := PropsRows(props, requiredSet, prefix, anc, rows);
    PropsListed(props, k, requiredSet, prefix, anc, rows);
    var rows2 := CompsRows(node, Compositions, prefix, anc, rows1);
    CompsGrows(node, Compositions, prefix, anc, rows1);
    var items := Get(fs, "items");
    var r := WalkRows(node, req, prefix, anc, rows);
    assert r == if Get(fs, "type") == Some(Str("array")) && IsObj(items) then WalkRows(items.value, None, prefix, anc, rows2) else rows2;
    if Get(fs, "type") == Some(Str("array")) && IsObj(items) {
      GetSmaller(fs, "items");
      WalkGrows(items.value, None, prefix, anc, rows2);
      GrowsTrans(rows1, rows2, r, prefix, anc);
    }
    assert Grows(rows1, r, prefix, anc);
    PrefixPaths(rows1, r);
    if JoinPath(prefix, Part(props[k].0, props[k].1.fields)) !in Paths(before) {
      assert r[|before|] == r[..|rows1|][|before|];
    }
  }

  /** `flatten_schema` lists every top-level dict property whose path passes
      the filter; on its first encounter its row has its normalised
      description and is required iff the schema's `required` or
      `tabular_required` lists its name. */
  lemma FlattenListed(schema: Value, k: nat)
    requires schema.Obj? && IsObj(Get(schema.fields, "properties"))
    requires var props := Get(schema.fields, "properties").value.fields;
      k < |props| && props[k].1.Obj? && Included(Part(props[k].0, props[k].1.fields))
    ensures var props := Get(schema.fields, "properties").value.fields;
      var name := props[k].0;
      var p := Part(name, props[k].1.fields);
      var before := PropsRows(props[..k], IterRequired(schema.fields), "", true, []);
      var r := Flatten(schema).value;
      Flatten(schema).Ok? && p in Paths(r) &&
      (p !in Paths(before) ==>
         |before| < |r| &&
         r[|before|] == FieldSpec(p, NormalizeDesc(Get(props[k].1.fields, "description")),
           Listed(Get(schema.fields, "required"), name) || Listed(Get(schema.fields, "tabular_required"), name)))
  {
    var props := Get(schema.fields, "properties").value.fields;
    assert JoinPath("", Part(props[k].0, props[k].1.fields)) == Part(props[k].0, props[k].1.fields);
    WalkListed(schema, None, "", true, [], k);
    RequiredListed(schema.fields, props[k].0);
  }

  // ---------------------------------------------------------------------------
  // The imperative walk

  lemma {:induction false} FieldSmaller(fs: Fields, i: nat)
    requires i < |fs|
    ensures Size(fs[i].1) < SizeFields(fs)
  {
    if i > 0 {
      FieldSmaller(fs[1..], i - 1);
    }
  }

  lemma {:induction false} ItemSmaller(xs: seq<Value>, j: nat)
    requires j < |xs|
    ensures Size(xs[j]) < SizeSeq(xs)
  {
    if j > 0 {
      ItemSmaller(xs[1..], j - 1);
    }
  }

  lemma PathsAppend(rows: seq<FieldSpec>, r: FieldSpec)
    ensures Paths(rows + [r]) == Paths(rows) + {r.path}
  {
    var s := rows + [r];
    forall p | p in Paths(s) ensures p in Paths(rows) + {r.path} {
      var i :| 0 <= i < |s| && s[i].path == p;
      if i < |rows| {
        assert s[i] == rows[i];
      }
    }
    forall p | p in Paths(rows) ensures p in Paths(s) {
      var i :| 0 <= i < |rows| && rows[i].path == p;
      assert s[i] == rows[i];
    }
    assert s[|rows|] == r;
  }

  /** `iter_required(node)`, with its two loops. */
  method IterRequiredOf(node: Fields) returns (required: set<string>)
    ensures required == IterRequired(node)
  {
    required := {};
    var keys := ["required", "tabular_required"];
    var k := 0;
    while k < |keys|
      invariant 0 <= k <= |keys|
      invariant required == if k == 0 then {} else if k == 1 then RequiredOf(Get(node, "required")) else IterRequired(node)
    {
      var items := Get(node, keys[k]);
      var found := CollectStrings(items);
      required := required + found;
      k := k + 1;
    }
  }

  /** The inner loop `for item in items`. */
  method CollectStrings(items: Option<Value>) returns (found: set<string>)
    ensures found == RequiredOf(items)
  {
    found := {};
    match items {
      case Some(Arr(xs)) =>
        var i := 0;
        while i < |xs|
          invariant 0 <= i <= |xs|
          invariant found == StrItems(xs[..i])
        {
          assert xs[..i + 1][..i] == xs[..i];
          if xs[i].Str? {
            found := found + {xs[i].s};
          }
          i := i + 1;
        }
        assert xs[..i] == xs;
      case Some(Obj(fs)) =>
        var i := 0;
        while i < |fs|
          invariant 0 <= i <= |fs|
          invariant found == KeySet(fs[..i])
        {
          assert fs[..i + 1][..i] == fs[..i];
          found := found + {fs[i].0};
          i := i + 1;
        }
        assert fs[..i] == fs;
      case _ =>
    }
  }

  /** The `merged_required` loop over the entries of an `allOf`. */
  method MergeRequired(entries: seq<Value>) returns (merged: set<string>)
    ensures merged == MergedRequired(entries)
  {
    merged := {};
    var j := 0;
    while j < |entries|
      invariant 0 <= j <= |entries|
      invariant merged == MergedRequired(entries[..j])
    {
      assert entries[..j + 1][..j] == entries[..j];
      if entries[j].Obj? {
        var r := IterRequiredOf(entries[j].fields);
        merged := merged + r;
      }
      j := j + 1;
    }
    assert entries[..j] == entries;
  }

  /** The state `flatten_schema` shares with its inner `walk`: the rows listed
      so far and the set `seen` of their paths. */
  class Flattener {
    var rows: seq<FieldSpec>
    var seen: set<string>

    constructor ()
      ensures rows == [] && seen == {}
    {
      rows := [];
      seen := {};
    }

    predicate Valid()
      reads this
    {
      seen == Paths(rows)
    }

    /** `walk(node, prefix, ancestors_required)`. */
    method Walk(node: Value, req: Option<set<string>>, prefix: string, anc: bool)
      requires Valid()
      modifies this
      ensures Valid() && rows == WalkRows(node, req, prefix, anc, old(rows))
      decreases Size(node), 4
    {
      if !node.Obj? {
        return;
      }
      var fs := node.fields;
      var nodeType := Get(fs, "type");
      var properties := Get(fs, "properties");
      if nodeType == Some(Str("object")) || IsObj(properties) {
        var requiredSet;
        if req.Some? {
          requiredSet := req.value;
        } else {
          requiredSet := IterRequiredOf(fs);
        }
        if IsObj(properties) {
          GetSmaller(fs, "properties");
          WalkProperties(properties.value.fields, requiredSet, prefix, anc);
        }
      }
      WalkCompositions(node, prefix, anc);
      if nodeType == Some(Str("array")) {
        var items := Get(fs, "items");
        if IsObj(items) {
          GetSmaller(fs, "items");
          Walk(items.value, None, prefix, anc);
        }
      }
    }

    /** The loop `for prop_name, prop_schema in props.items()`. */
    method WalkProperties(props: Fields, requiredSet: set<string>, prefix: string, anc: bool)
      requires Valid()
      modifies this
      ensures Valid() && rows == PropsRows(props, requiredSet, prefix, anc, old(rows))
      decreases SizeFields(props), 0
    {
      var i := 0;
      while i < |props|
        invariant 0 <= i <= |props| && Valid()
        invariant PropsRows(props[i..], requiredSet, prefix, anc, rows) == PropsRows(props, requiredSet, prefix, anc, old(rows))
      {
        assert props[i..][0] == props[i] && props[i..][1..] == props[i + 1..];
        FieldSmaller(props, i);
        VisitProperty(props[i].0, props[i].1, requiredSet, prefix, anc);
        i := i + 1;
      }
    }

    /** The body of that loop for one property. */
    method VisitProperty(propName: string, propSchema: Value, requiredSet: set<string>, prefix: string, anc: bool)
      requires Valid()
      modifies this
      ensures Valid() && rows == PropRows(propName, propSchema, requiredSet, prefix, anc, old(rows))
      decreases Size(propSchema), 5
    {
      if !propSchema.Obj? {
        return;
      }
      var ps := propSchema.fields;
      var isArray := Get(ps, "type") == Some(Str("array"));
      var part := if isArray then propName + "[]" else propName;
      var propPath := JoinPath(prefix, part);
      var keep := ShouldIncludeField(propPath);
      if !keep {
        return;
      }
      var requiredHere := propName in requiredSet;
      var effectiveRequired := anc && requiredHere;
      if propPath !in seen {
        var row := FieldSpec(propPath, NormalizeDesc(Get(ps, "description")), effectiveRequired);
        PathsAppend(rows, row);
        seen := seen + {propPath};
        rows := rows + [row];
        ghost var d := Descent(propSchema, propPath);
        assert PropRows(propName, propSchema, requiredSet, prefix, anc, old(rows)) ==
          match d case None => rows case Some(child) => WalkRows(child, None, propPath, effectiveRequired, rows);
        var shouldSkip := ShouldSkip(propPath);
        if shouldSkip {
          return;
        }
        if isArray {
          var items := Get(ps, "items");
          if IsObj(items) {
            GetSmaller(ps, "items");
            Walk(items.value, None, propPath, effectiveRequired);
          }
        } else if Get(ps, "type") == Some(Str("object")) || IsObj(Get(ps, "properties")) {
          Walk(propSchema, None, propPath, effectiveRequired);
        } else if IsArr(Get(ps, "allOf")) || IsArr(Get(ps, "oneOf")) || IsArr(Get(ps, "anyOf")) {
          Walk(propSchema, None, propPath, effectiveRequired);
        }
      }
    }

    /** The loop over `("allOf", "oneOf", "anyOf")`. */
    method WalkCompositions(node: Value, prefix: string, anc: bool)
      requires node.Obj? && Valid()
      modifies this
      ensures Valid() && rows == CompsRows(node, Compositions, prefix, anc, old(rows))
      decreases Size(node), 3
    {
      var k := 0;
      while k < |Compositions|
        invariant 0 <= k <= |Compositions| && Valid()
        invariant CompsRows(node, Compositions[k..], prefix, anc, rows) == CompsRows(node, Compositions, prefix, anc, old(rows))
      {
        var compositionKey := Compositions[k];
        assert Compositions[k..][0] == compositionKey && Compositions[k..][1..] == Compositions[k + 1..];
        var compositionValue := Get(node.fields, compositionKey);
        if IsArr(compositionValue) {
          GetSmaller(node.fields, compositionKey);
          var entries := compositionValue.value.items;
          if compositionKey == "allOf" {
            var mergedRequired := MergeRequired(entries);
            WalkEntries(entries, Some(mergedRequired), prefix, anc);
          } else {
            WalkEntries(entries, None, prefix, anc);
          }
        }
        k := k + 1;
      }
    }

    /** The loop over the dict entries of one composition list. */
    method WalkEntries(entries: seq<Value>, req: Option<set<string>>, prefix: string, anc: bool)
      requires Valid()
      modifies this
      ensures Valid() && rows == EntriesRows(entries, req, prefix, anc, old(rows))
      decreases SizeSeq(entries), 0
    {
      var j := 0;
      while j < |entries|
        invariant 0 <= j <= |entries| && Valid()
        invariant EntriesRows(entries[j..], req, prefix, anc, rows) == EntriesRows(entries, req, prefix, anc, old(rows))
      {
        assert entries[j..][0] == entries[j] && entries[j..][1..] == entries[j + 1..];
        if entries[j].Obj? {
          ItemSmaller(entries, j);
          Walk(entries[j], req, prefix, anc);
        }
        j := j + 1;
      }
    }
  }

  /** `flatten_schema(schema)`. */
  method FlattenSchema(schema: Value) returns (r: Result<seq<FieldSpec>, SchemaError>)
    ensures r == Flatten(schema)
  {
    if !schema.Obj? {
      return Err(TypeError);
    }
    var flattener := new Flattener();
    flattener.Walk(schema, None, "", true);
    return Ok(flattener.rows);
  }
}
