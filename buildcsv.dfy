/**
 * The earlier row builder of src/lib/buildcsv.py.  Its lookup
 * `__get_nested_value` follows a dot-separated path by plain key lookups (a
 * segment ending in `[]` is an ordinary key here), and turns the value it
 * reaches into a tuple: the elements of a list, otherwise a 1-tuple.  Only a
 * KeyError blanks a cell; the TypeError of indexing a non-dict escapes.
 */
module BuildCsv {
  import opened Wrappers
  import opened Strings
  import opened Json
  import opened CsvRows
  import RT = ReverseTransform
  import ReverseBuildCsv

  datatype LookupError =
    | KeyError(key: string)                 // a dict without the key
    | TypeError(key: string, item: Value)   // a list, string, number, bool or None subscripted

  /** The loop `for key in keys: value = value[key]`. */
  function Follow(v: Value, keys: seq<string>): Result<Value, LookupError>
    decreases |keys|
  {
    if keys == [] then Ok(v)
    else match Index(v, keys[0])
      case Found(x) => Follow(x, keys[1..])
      case KeyMissing => Err(KeyError(keys[0]))
      case NotSubscriptable => Err(TypeError(keys[0], v))
  }

  /** `tuple(value)` for a list, `(value,)` otherwise. */
  function AsTuple(v: Value): (t: seq<Value>)
  {
    if v.Arr? then v.items else [v]
  }

  /** `__get_nested_value(data, path)`, as a function. */
  function NestedValue(data: Value, path: string): Result<seq<Value>, LookupError>
  {
    var v :- Follow(data, Split(path, '.'));
    Ok(AsTuple(v))
  }

  /** The cell for one `(path, column)` pair: a KeyError leaves it blank. */
  function LegacyCellOf(obj: Value, path: string): Result<Value, LookupError>
  {
    match NestedValue(obj, path)
    case Ok(entry) => Ok(FormatEntry(entry))
    case Err(e) => if e.KeyError? then Ok(Str("")) else Err(e)
  }

  // ---------------------------------------------------------------------------

  /** `vs` is the trail of values the loop passes through: it starts at `data`
      and each key, taken literally, is a key of the dict before it. */
  ghost predicate Reaches(data: Value, keys: seq<string>, vs: seq<Value>) {
    && |vs| == |keys| + 1 && vs[0] == data
    && forall i :: 0 <= i < |keys| ==> Index(vs[i], keys[i]) == Found(vs[i + 1])
  }

  /** The lookup succeeds exactly when every dot segment (one ending in `[]`
      too) is found as a key of the value the segments before it reach. */
  lemma NestedValueShape(data: Value, path: string)
    ensures NestedValue(data, path).Ok? <==> exists vs :: Reaches(data, Split(path, '.'), vs)
  {
    var keys := Split(path, '.');
    if Follow(data, keys).Ok? {
      var vs := FollowHasTrail(data, keys);
    } else {
      forall vs | Reaches(data, keys, vs) ensures false {
        FollowTrail(data, keys, vs);
      }
    }
  }

  /** At the end of the trail, a list gives the tuple of its elements and any
      other value a 1-tuple holding it. */
  lemma NestedValueOfTrail(data: Value, path: string, vs: seq<Value>)
    requires Reaches(data, Split(path, '.'), vs)
    ensures var last := vs[|vs| - 1];
      NestedValue(data, path) == Ok(if last.Arr? then last.items else [last])
  {
    FollowTrail(data, Split(path, '.'), vs);
  }

  /** The first segment that is not found ends the lookup: a KeyError when the
      value reached is a dict, a TypeError otherwise. */
  lemma NestedValueStops(data: Value, path: string, vs: seq<Value>, j: nat)
    requires j < |Split(path, '.')| && Reaches(data, Split(path, '.')[..j], vs)
    requires !Index(vs[j], Split(path, '.')[j]).Found?
    ensures var key := Split(path, '.')[j];
      NestedValue(data, path) == Err(if vs[j].Obj? then KeyError(key) else TypeError(key, vs[j]))
  {
    FollowStops(data, Split(path, '.'), vs, j);
  }

  lemma {:induction false} FollowTrail(v: Value, keys: seq<string>, vs: seq<Value>)
    requires Reaches(v, keys, vs)
    ensures Follow(v, keys) == Ok(vs[|keys|])
    decreases |keys|
  {
    if keys != [] {
      assert Index(vs[0], keys[0]) == Found(vs[1]);
      var tl := vs[1..];
      assert Reaches(vs[1], keys[1..], tl) by {
        forall i | 0 <= i < |keys[1..]| ensures Index(tl[i], keys[1..][i]) == Found(tl[i + 1]) {
          assert tl[i] == vs[i + 1] && tl[i + 1] == vs[i + 2] && keys[1..][i] == keys[i + 1];
        }
      }
      FollowTrail(vs[1], keys[1..], tl);
    }
  }

  lemma {:induction false} FollowHasTrail(v: Value, keys: seq<string>) returns (vs: seq<Value>)
    requires Follow(v, keys).Ok?
    ensures Reaches(v, keys, vs)
    decreases |keys|
  {
    if keys == [] {
      vs := [v];
    } else {
      var x := Index(v, keys[0]).value;
      var tl := FollowHasTrail(x, keys[1..]);
      vs := [v] + tl;
      forall i | 0 <= i < |keys| ensures Index(vs[i], keys[i]) == Found(vs[i + 1]) {
        if i > 0 {
          assert vs[i] == tl[i - 1] && vs[i + 1] == tl[i] && keys[i] == keys[1..][i - 1];
        }
      }
    }
  }

  lemma {:induction false} FollowStops(v: Value, keys: seq<string>, vs: seq<Value>, j: nat)
    requires j < |keys| && Reaches(v, keys[..j], vs) && !Index(vs[j], keys[j]).Found?
    ensures Follow(v, keys) == Err(if vs[j].Obj? then KeyError(keys[j]) else TypeError(keys[j], vs[j]))
    decreases j
  {
    if j > 0 {
      assert keys[..j][0] == keys[0];
      assert Index(v, keys[0]) == Found(vs[1]);
      var tl := vs[1..];
      var rest := keys[1..];
      assert Reaches(vs[1], rest[..j - 1], tl) by {
        forall i | 0 <= i < j - 1 ensures Index(tl[i], rest[..j - 1][i]) == Found(tl[i + 1]) {
          assert tl[i] == vs[i + 1] && tl[i + 1] == vs[i + 2] && rest[..j - 1][i] == keys[..j][i + 1];
        }
      }
      assert tl[j - 1] == vs[j] && rest[j - 1] == keys[j];
      FollowStops(vs[1], rest, tl, j - 1);
    }
  }

  /** On a path without `[]` segments the legacy lookup and `get_path_value`
      agree: one succeeds iff the other does, with the same final value, a
      missing key is a missing segment, and a subscripted non-dict raises in
      both. */
  lemma {:induction false} FollowMatchesWalk(v: Value, keys: seq<string>)
    requires RT.NoBranch(keys)
    ensures Follow(v, keys).Ok? <==> RT.Walk([v], keys).Ok?
    ensures Follow(v, keys).Ok? ==> RT.Walk([v], keys).value == [Follow(v, keys).value]
    ensures Follow(v, keys).Err? ==>
      (Follow(v, keys).error.KeyError? <==> RT.Walk([v], keys).error.SegmentNotFound?)
    ensures Follow(v, keys).Err? ==> !RT.Walk([v], keys).error.ExpectedList?
    decreases |keys|
  {
    if keys != [] {
      var key := keys[0];
      assert RT.ParseSegment(key) == (key, false);
      assert [v][..0] == [];
      assert RT.LookupAll([v][..0], key) == Ok([]);
      match RT.LookupOne(v, key) {
        case Ok(x) => assert RT.LookupAll([v], key) == Ok([] + [x]) && [] + [x] == [x];
        case Err(e) => assert RT.LookupAll([v], key) == Err(e);
      }
      if Index(v, key).Found? {
        var x := Index(v, key).value;
        assert RT.Step([v], key) == Ok([x]);
        assert RT.NoBranch(keys[1..]) by {
          forall i | 0 <= i < |keys[1..]| ensures !EndsWith(keys[1..][i], "[]") {
            assert keys[1..][i] == keys[i + 1];
          }
        }
        FollowMatchesWalk(x, keys[1..]);
      }
    }
  }

  /** Where the final value is not a list, the legacy cell and the cell of the
      newer `reverseTransform` are the same, blank in the same cases, and abort
      in the same cases. */
  lemma LegacyAgreesOnScalars(obj: Value, path: string)
    requires RT.NoBranch(Split(path, '.'))
    requires Follow(obj, Split(path, '.')).Ok? ==> !Follow(obj, Split(path, '.')).value.Arr?
    ensures LegacyCellOf(obj, path).Ok? <==> ReverseBuildCsv.CellOf(obj, path).Ok?
    ensures LegacyCellOf(obj, path).Ok? ==> LegacyCellOf(obj, path).value == ReverseBuildCsv.CellOf(obj, path).value
  {
    FollowMatchesWalk(obj, Split(path, '.'));
  }

  /** The table of src/lib/testbuildcsv.py: `age: [30, 35]` is written `30,35`,
      and an absent key gives an empty cell without ending the row. */
  lemma AgeListIsCommaJoined()
    ensures FormatEntry([Num(30), Num(35)]) == Str("30,35")
  {
    TwoDigits(30);
    TwoDigits(35);
    assert [DigitChar(3), DigitChar(0)] == "30" && [DigitChar(3), DigitChar(5)] == "35";
    FormatTwo(Num(30), Num(35));
    assert "30" + "," + "35" == "30,35";
  }

  lemma NameListIsCommaJoined()
    ensures FormatEntry([Str("John"), Str("Bob"), Str("Foo")]) == Str("John,Bob,Foo")
  {
    FormatThree(Str("John"), Str("Bob"), Str("Foo"));
    assert "John" + "," + "Bob" + "," + "Foo" == "John,Bob,Foo";
  }

  /** The first and third dicts of the test's `data`. */
  const AliceAge := Arr([Num(30), Num(35)])
  const AliceUser := Obj([("name", Str("Alice")), ("age", AliceAge)])
  const AliceRow := Obj([("user", AliceUser), ("address", Obj([("city", Str("NYC"))]))])
  const Admins := Arr([Str("John"), Str("Bob"), Str("Foo")])
  const AdminRow := Obj([("admin", Admins), ("privileged", Arr([Str("Foo"), Str("Bar")]))])

  /** Alice's `user.age` cell is `30,35`. */
  lemma AliceAgeCell()
    ensures LegacyCellOf(AliceRow, "user.age") == Ok(Str("30,35"))
  {
    UserPathsSplit();
    AliceTrail();
    NestedValueOfTrail(AliceRow, "user.age", [AliceRow, AliceUser, AliceAge]);
    AgeListIsCommaJoined();
  }

  lemma AliceTrail()
    ensures Reaches(AliceRow, ["user", "age"], [AliceRow, AliceUser, AliceAge])
  {
    assert Index(AliceRow, "user") == Found(AliceUser);
    assert Index(AliceUser, "age") == Found(AliceAge);
  }

  /** The third dict's `admin` cell is `John,Bob,Foo`. */
  lemma AdminCell()
    ensures LegacyCellOf(AdminRow, "admin") == Ok(Str("John,Bob,Foo"))
  {
    SplitNoSep("admin", '.');
    assert Index(AdminRow, "admin") == Found(Admins);
    NestedValueOfTrail(AdminRow, "admin", [AdminRow, Admins]);
    NameListIsCommaJoined();
  }

  /** The third dict has no `user`: its `user.name` cell is blank and the
      row goes on. */
  lemma AdminNameCell()
    ensures LegacyCellOf(AdminRow, "user.name") == Ok(Str(""))
  {
    UserPathsSplit();
    AdminNoUser();
    NestedValueStops(AdminRow, "user.name", [AdminRow], 0);
  }

  lemma AdminNoUser()
    ensures Reaches(AdminRow, [], [AdminRow]) && Index(AdminRow, "user") == KeyMissing
  {
    assert "user" !in Keys(AdminRow.fields);
  }

  /** The two dotted paths of the test, split into their keys. */
  lemma UserPathsSplit()
    ensures Split("user.age", '.') == ["user", "age"]
    ensures Split("user.name", '.') == ["user", "name"]
  {
    SplitDotted("user", "age");
    assert "user" + "." + "age" == "user.age";
    SplitDotted("user", "name");
    assert "user" + "." + "name" == "user.name";
  }

  lemma SplitDotted(a: string, b: string)
    requires '.' !in a && '.' !in b
    ensures Split(a + "." + b, '.') == [a, b]
  {
    assert a + "." + b == a + ['.'] + b;
    SplitAppend(a, b, '.');
    SplitNoSep(b, '.');
  }

  /** `str(n)` of a two-digit number is its two digits. */
  lemma TwoDigits(n: int)
    requires 10 <= n < 100
    ensures Show(Num(n)) == [DigitChar(n / 10), DigitChar(n % 10)]
  {
    assert NatToString(n / 10) == [DigitChar(n / 10)];
  }

  lemma FormatTwo(a: Value, b: Value)
    ensures FormatEntry([a, b]) == Str(Show(a) + "," + Show(b))
  {
    var e := [a, b];
    assert ShowAll(e) == [Show(a), Show(b)];
    JoinSnoc(",", [Show(a)], Show(b));
    assert [Show(a)] + [Show(b)] == [Show(a), Show(b)];
  }

  lemma FormatThree(a: Value, b: Value, c: Value)
    ensures FormatEntry([a, b, c]) == Str(Show(a) + "," + Show(b) + "," + Show(c))
  {
    var e := [a, b, c];
    assert ShowAll(e) == [Show(a), Show(b), Show(c)];
    JoinSnoc(",", [Show(a)], Show(b));
    assert [Show(a)] + [Show(b)] == [Show(a), Show(b)];
    JoinSnoc(",", [Show(a), Show(b)], Show(c));
    assert [Show(a), Show(b)] + [Show(c)] == [Show(a), Show(b), Show(c)];
  }

  lemma MissingKeyBlanks(obj: Value, path: string)
    requires Follow(obj, Split(path, '.')).Err? && Follow(obj, Split(path, '.')).error.KeyError?
    ensures LegacyCellOf(obj, path) == Ok(Str(""))
  {
  }

  // ---------------------------------------------------------------------------
  // The imperative functions

  /** `__get_nested_value(data, path)`. */
  method GetNestedValue(data: Value, path: string) returns (r: Result<seq<Value>, LookupError>)
    ensures r == NestedValue(data, path)
  {
    var keys := Split(path, '.');
    var value := data;
    var i := 0;
    while i < |keys|
      invariant 0 <= i <= |keys|
      invariant Follow(data, keys) == Follow(value, keys[i..])
    {
      assert keys[i..][0] == keys[i] && keys[i..][1..] == keys[i + 1..];
      match Index(value, keys[i]) {
        case Found(x) =>
          value := x;
        case KeyMissing =>
          return Err(KeyError(keys[i]));
        case NotSubscriptable =>
          return Err(TypeError(keys[i], value));
      }
      i := i + 1;
    }
    if value.Arr? {
      r := Ok(value.items);
    } else {
      r := Ok([value]);
    }
  }

  /** `reverseTransform(dictList, pathsTuple, csvPath)` of this file, with the
      file replaced by the rows written to it. */
  method ReverseTransformRows(dictList: seq<Value>, pathsTuple: seq<(string, string)>)
    returns (rows: seq<Row>, failure: Option<LookupError>)
    ensures (rows, failure) == Table(LegacyCellOf, dictList, pathsTuple)
    ensures |rows| >= 1 && rows[0] == Header(pathsTuple)
    ensures failure.None? ==> |rows| == 1 + |dictList|
    ensures forall i :: 1 <= i < |rows| ==> |rows[i]| == |pathsTuple|
  {
    var fields := BuildHeader(pathsTuple);
    rows := [fields];
    var n := 0;
    while n < |dictList|
      invariant 0 <= n <= |dictList|
      invariant Table(LegacyCellOf, dictList[..n], pathsTuple) == (rows, None)
      invariant forall i :: 1 <= i < |rows| ==> |rows[i]| == |pathsTuple|
    {
      assert dictList[..n + 1][..n] == dictList[..n];
      var row := BuildRow(dictList[n], pathsTuple);
      if row.Err? {
        TablePrefixFailure(LegacyCellOf, dictList, n + 1, pathsTuple);
        TableRows(LegacyCellOf, dictList, pathsTuple);
        return rows, Some(row.error);
      }
      RowOfCells(LegacyCellOf, dictList[n], pathsTuple);
      rows := rows + [row.value];
      n := n + 1;
    }
    assert dictList[..n] == dictList;
    TableRows(LegacyCellOf, dictList, pathsTuple);
    failure := None;
  }

  /** The inner loop that fills `dataFields` for one dict. */
  method BuildRow(d: Value, pathsTuple: seq<(string, string)>) returns (r: Result<Row, LookupError>)
    ensures r == RowOf(LegacyCellOf, d, pathsTuple)
  {
    var dataFields := [];
    var f := 0;
    while f < |pathsTuple|
      invariant 0 <= f <= |pathsTuple|
      invariant RowOf(LegacyCellOf, d, pathsTuple[..f]) == Ok(dataFields)
    {
      assert pathsTuple[..f + 1][..f] == pathsTuple[..f];
      var entry := GetNestedValue(d, pathsTuple[f].0);
      var cell: Value;
      if entry.Ok? {
        cell := FormatEntry(entry.value);
      } else if entry.error.KeyError? {
        cell := Str("");
      } else {
        RowPrefixFailure(LegacyCellOf, d, pathsTuple, f + 1);
        return Err(entry.error);
      }
      assert LegacyCellOf(d, pathsTuple[f].0) == Ok(cell);
      dataFields := dataFields + [cell];
      f := f + 1;
    }
    assert pathsTuple[..f] == pathsTuple;
    return Ok(dataFields);
  }
}
