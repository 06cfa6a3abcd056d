/**
 * The reverse path extractor of src/lib/reverse_transform/reverse_transform.py:
 * `get_path_value(hsds_directory, path)` evaluates a dot-separated path in which
 * a segment written `name[]` is a list branch point, and returns every value
 * found at the end of the path, across all branches, as a tuple.
 *
 * It works on a "working set" of values, starting from the single root object:
 * each segment looks its key up in every element of the working set, and a
 * `[]` segment then concatenates the lists it found.
 */
module ReverseTransform {
  import opened Wrappers
  import opened Strings
  import opened Json

  /** Why the evaluation stopped. The first two are the ValueErrors the function
      raises on purpose; the third is the TypeError Python raises when the
      subscript is applied to something that is not a dict, which the function
      does not catch. */
  datatype PathError =
    | SegmentNotFound(key: string, item: Value)
    | ExpectedList(key: string)
    | NotADict(key: string, item: Value)

  predicate IsValueError(e: PathError) {
    e.SegmentNotFound? || e.ExpectedList?
  }

  /** A trailing `[]` is removed and marks the segment as a list branch point. */
  function ParseSegment(p: string): (r: (string, bool))
    ensures r.1 <==> EndsWith(p, "[]")
    ensures r.0 == if r.1 then p[..|p| - 2] else p
  {
    if EndsWith(p, "[]") then (DropLast(p, 2), true) else (p, false)
  }

  /** One lookup `c[p]` turned into the list element or the error it raises. */
  function LookupOne(c: Value, key: string): Result<Value, PathError>
  {
    match Index(c, key)
    case Found(x) => Ok(x)
    case KeyMissing => Err(SegmentNotFound(key, c))
    case NotSubscriptable => Err(NotADict(key, c))
  }

  /** The inner loop `for c in curr: temp.append(c[p])`, which stops at the first failure. */
  function LookupAll(curr: seq<Value>, key: string): Result<seq<Value>, PathError>
    decreases |curr|
  {
    if curr == [] then Ok([])
    else
      var t :- LookupAll(curr[..|curr| - 1], key);
      var x :- LookupOne(curr[|curr| - 1], key);
      Ok(t + [x])
  }

  /** The loop `for t in temp: assert isinstance(t, list); temp2 += t`. */
  function Flatten(temp: seq<Value>, key: string): Result<seq<Value>, PathError>
    decreases |temp|
  {
    if temp == [] then Ok([])
    else
      var t :- Flatten(temp[..|temp| - 1], key);
      var last := temp[|temp| - 1];
      if last.Arr? then Ok(t + last.items) else Err(ExpectedList(key))
  }

  /** One segment applied to the working set. */
  function Step(curr: seq<Value>, seg: string): Result<seq<Value>, PathError>
  {
    var (key, isList) := ParseSegment(seg);
    var temp :- LookupAll(curr, key);
    if isList then Flatten(temp, key) else Ok(temp)
  }

  /** The segments applied one after the other, stopping at the first error. */
  function Walk(curr: seq<Value>, segs: seq<string>): Result<seq<Value>, PathError>
    decreases |segs|
  {
    if segs == [] then Ok(curr)
    else
      var next :- Step(curr, segs[0]);
      Walk(next, segs[1..])
  }

  /** `get_path_value(root, path)`, as a function. */
  function Extract(root: Value, path: string): Result<seq<Value>, PathError>
  {
    Walk([root], Split(path, '.'))
  }

  // ---------------------------------------------------------------------------
  // Reference definitions of what the loops compute

  predicate AllFound(curr: seq<Value>, key: string) {
    forall i :: 0 <= i < |curr| ==> Index(curr[i], key).Found?
  }

  predicate AllLists(temp: seq<Value>) {
    forall i :: 0 <= i < |temp| ==> temp[i].Arr?
  }

  /** The lists of `temp` concatenated in order. */
  function Concat(temp: seq<Value>): seq<Value>
    requires AllLists(temp)
  {
    if temp == [] then [] else temp[0].items + Concat(temp[1..])
  }

  function TotalLength(temp: seq<Value>): nat
    requires AllLists(temp)
  {
    if temp == [] then 0 else |temp[0].items| + TotalLength(temp[1..])
  }

  // ---------------------------------------------------------------------------
  // Lookups over the working set

  /** A plain lookup succeeds iff every element has the key; it then maps the
      working set element by element, so its length is preserved. */
  lemma {:induction false} LookupAllOk(curr: seq<Value>, key: string)
    ensures LookupAll(curr, key).Ok? <==> AllFound(curr, key)
    ensures LookupAll(curr, key).Ok? ==>
      |LookupAll(curr, key).value| == |curr| &&
      forall i :: 0 <= i < |curr| ==> LookupAll(curr, key).value[i] == Index(curr[i], key).value
    decreases |curr|
  {
    if curr != [] {
      var init := curr[..|curr| - 1];
      LookupAllOk(init, key);
      assert forall i :: 0 <= i < |init| ==> init[i] == curr[i];
    }
  }

  /** On failure the error is the one raised by the first element that lacks the
      key (a ValueError) or is not a dict (a TypeError); nothing partial remains. */
  lemma {:induction false} LookupAllErr(curr: seq<Value>, key: string)
    requires LookupAll(curr, key).Err?
    ensures exists i :: (0 <= i < |curr| && AllFound(curr[..i], key) &&
      !Index(curr[i], key).Found? && LookupAll(curr, key).error == LookupOne(curr[i], key).error)
    decreases |curr|
  {
    var init := curr[..|curr| - 1];
    var last := |curr| - 1;
    if LookupAll(init, key).Err? {
      LookupAllErr(init, key);
      var i :| 0 <= i < |init| && AllFound(init[..i], key) &&
        !Index(init[i], key).Found? && LookupAll(init, key).error == LookupOne(init[i], key).error;
      assert init[..i] == curr[..i];
    } else {
      LookupAllOk(init, key);
      assert curr[..last] == init;
      assert !Index(curr[last], key).Found?;
    }
  }

  /** Once an element has failed, later elements are not looked at. */
  lemma {:induction false} LookupAllPrefixErr(curr: seq<Value>, j: nat, key: string)
    requires j <= |curr| && LookupAll(curr[..j], key).Err?
    ensures LookupAll(curr, key) == LookupAll(curr[..j], key)
    decreases |curr| - j
  {
    if j < |curr| {
      assert curr[..j + 1][..j] == curr[..j];
      LookupAllPrefixErr(curr, j + 1, key);
    } else {
      assert curr[..j] == curr;
    }
  }

  lemma {:induction false} LookupAllAppend(xs: seq<Value>, ys: seq<Value>, key: string)
    ensures LookupAll(xs + ys, key).Ok? <==> LookupAll(xs, key).Ok? && LookupAll(ys, key).Ok?
    ensures LookupAll(xs + ys, key).Ok? ==>
      LookupAll(xs + ys, key).value == LookupAll(xs, key).value + LookupAll(ys, key).value
    decreases |ys|
  {
    if ys == [] {
      assert xs + ys == xs;
    } else {
      var init := ys[..|ys| - 1];
      assert (xs + ys)[..|xs + ys| - 1] == xs + init;
      assert (xs + ys)[|xs + ys| - 1] == ys[|ys| - 1];
      LookupAllAppend(xs, init, key);
    }
  }

  // ---------------------------------------------------------------------------
  // Flattening at a `[]` segment

  /** A `[]` segment succeeds iff every looked-up value is a list; the new working
      set is then the concatenation of those lists, in working-set order. */
  lemma {:induction false} FlattenOk(temp: seq<Value>, key: string)
    ensures Flatten(temp, key).Ok? <==> AllLists(temp)
    ensures Flatten(temp, key).Err? ==> Flatten(temp, key).error == ExpectedList(key)
    ensures AllLists(temp) ==> Flatten(temp, key).value == Concat(temp)
    decreases |temp|
  {
    if temp != [] {
      var init := temp[..|temp| - 1];
      FlattenOk(init, key);
      AllListsLast(temp);
      if AllLists(temp) {
        ConcatLast(temp);
      }
    }
  }

  lemma AllListsLast(temp: seq<Value>)
    requires temp != []
    ensures AllLists(temp) <==> AllLists(temp[..|temp| - 1]) && temp[|temp| - 1].Arr?
  {
    var init := temp[..|temp| - 1];
    assert forall i :: 0 <= i < |init| ==> init[i] == temp[i];
  }

  lemma ConcatLast(temp: seq<Value>)
    requires temp != [] && AllLists(temp)
    ensures AllLists(temp[..|temp| - 1])
    ensures Concat(temp) == Concat(temp[..|temp| - 1]) + temp[|temp| - 1].items
  {
    var init, last := temp[..|temp| - 1], temp[|temp| - 1];
    AllListsLast(temp);
    ConcatSnoc(init, last);
    assert init + [last] == temp;
  }

  lemma {:induction false} ConcatSnoc(temp: seq<Value>, last: Value)
    requires AllLists(temp) && last.Arr?
    ensures AllLists(temp + [last])
    ensures Concat(temp + [last]) == Concat(temp) + last.items
    decreases |temp|
  {
    if temp != [] {
      assert (temp + [last])[1..] == temp[1..] + [last];
      ConcatSnoc(temp[1..], last);
    }
  }

  /** The length of the new working set is the sum of the lengths of the lists. */
  lemma {:induction false} ConcatLength(temp: seq<Value>)
    requires AllLists(temp)
    ensures |Concat(temp)| == TotalLength(temp)
    decreases |temp|
  {
    if temp != [] {
      ConcatLength(temp[1..]);
    }
  }

  lemma {:induction false} ConcatAppend(xs: seq<Value>, ys: seq<Value>)
    requires AllLists(xs) && AllLists(ys)
    ensures AllLists(xs + ys) && Concat(xs + ys) == Concat(xs) + Concat(ys)
    decreases |xs|
  {
    if xs != [] {
      assert (xs + ys)[1..] == xs[1..] + ys;
      ConcatAppend(xs[1..], ys);
    } else {
      assert xs + ys == ys;
    }
  }

  // ---------------------------------------------------------------------------
  // Whole paths

  /** Segments are handled once each, in order: evaluating `a + b` is evaluating
      `a` and then, on what it produced, `b`. */
  lemma {:induction false} WalkAppend(curr: seq<Value>, a: seq<string>, b: seq<string>)
    ensures Walk(curr, a + b) ==
      match Walk(curr, a)
      case Err(e) => Err(e)
      case Ok(mid) => Walk(mid, b)
    decreases |a|
  {
    if a == [] {
      assert a + b == b;
    } else {
      assert (a + b)[0] == a[0] && (a + b)[1..] == a[1..] + b;
      match Step(curr, a[0])
      case Err(e) =>
      case Ok(next) => WalkAppend(next, a[1..], b);
    }
  }

  /** An empty working set stays empty and can no longer fail. */
  lemma {:induction false} WalkEmpty(segs: seq<string>)
    ensures Walk([], segs) == Ok([])
    decreases |segs|
  {
    if segs != [] {
      var (key, isList) := ParseSegment(segs[0]);
      assert LookupAll([], key) == Ok([]);
      assert Flatten([], key) == Ok([]);
      WalkEmpty(segs[1..]);
    }
  }

  predicate NoBranch(segs: seq<string>) {
    forall i :: 0 <= i < |segs| ==> !EndsWith(segs[i], "[]")
  }

  /** Without `[]` segments every step maps the working set element by element. */
  lemma {:induction false} WalkPlainLength(curr: seq<Value>, segs: seq<string>)
    requires NoBranch(segs)
    ensures Walk(curr, segs).Ok? ==> |Walk(curr, segs).value| == |curr|
    decreases |segs|
  {
    if segs != [] {
      var (key, isList) := ParseSegment(segs[0]);
      LookupAllOk(curr, key);
      if LookupAll(curr, key).Ok? {
        assert Step(curr, segs[0]) == LookupAll(curr, key);
        WalkPlainLength(LookupAll(curr, key).value, segs[1..]);
      }
    }
  }

  /** A path without `[]` segments yields a 1-tuple when it succeeds. */
  lemma NoBranchSingleton(root: Value, path: string)
    requires NoBranch(Split(path, '.'))
    ensures Extract(root, path).Ok? ==> |Extract(root, path).value| == 1
  {
    WalkPlainLength([root], Split(path, '.'));
  }

  lemma {:induction false} StepAppend(xs: seq<Value>, ys: seq<Value>, seg: string)
    ensures Step(xs + ys, seg).Ok? <==> Step(xs, seg).Ok? && Step(ys, seg).Ok?
    ensures Step(xs + ys, seg).Ok? ==>
      Step(xs + ys, seg).value == Step(xs, seg).value + Step(ys, seg).value
  {
    var (key, isList) := ParseSegment(seg);
    LookupAllAppend(xs, ys, key);
    if isList && LookupAll(xs, key).Ok? && LookupAll(ys, key).Ok? {
      var a, b := LookupAll(xs, key).value, LookupAll(ys, key).value;
      FlattenOk(a, key);
      FlattenOk(b, key);
      FlattenOk(a + b, key);
      if AllLists(a) && AllLists(b) {
        ConcatAppend(a, b);
      } else if AllLists(a + b) {
        assert forall i :: 0 <= i < |a| ==> (a + b)[i] == a[i];
        assert forall i :: 0 <= i < |b| ==> (a + b)[|a| + i] == b[i];
      }
    }
  }

  /** Branches are evaluated independently and their results keep left-to-right
      order: a working set `xs + ys` succeeds iff both halves do, and yields the
      values of `xs` followed by those of `ys`. */
  lemma {:induction false} WalkBranches(xs: seq<Value>, ys: seq<Value>, segs: seq<string>)
    ensures Walk(xs + ys, segs).Ok? <==> Walk(xs, segs).Ok? && Walk(ys, segs).Ok?
    ensures Walk(xs + ys, segs).Ok? ==>
      Walk(xs + ys, segs).value == Walk(xs, segs).value + Walk(ys, segs).value
    decreases |segs|
  {
    if segs != [] {
      StepAppend(xs, ys, segs[0]);
      if Step(xs, segs[0]).Ok? && Step(ys, segs[0]).Ok? {
        WalkBranches(Step(xs, segs[0]).value, Step(ys, segs[0]).value, segs[1..]);
      }
    }
  }

  // ---------------------------------------------------------------------------
  // The imperative function

  /** `get_path_value`: the working list `curr` is replaced once per segment. */
  method GetPathValue(root: Value, path: string) returns (r: Result<seq<Value>, PathError>)
    ensures r == Extract(root, path)
  {
    var segs := Split(path, '.');
    var curr := [root];
    var n := 0;
    while n < |segs|
      invariant 0 <= n <= |segs|
      invariant Walk(curr, segs[n..]) == Extract(root, path)
    {
      assert segs[n..][0] == segs[n] && segs[n..][1..] == segs[n + 1..];
      var p := segs[n];
      var isList := false;
      if EndsWith(p, "[]") {
        p := DropLast(p, 2);
        isList := true;
      }
      assert ParseSegment(segs[n]) == (p, isList);
      var temp := LookupEach(curr, p);
      if temp.Err? {
        return Err(temp.error);
      }
      var next := temp.value;
      if isList {
        var temp2 := ConcatLists(next, p);
        if temp2.Err? {
          return Err(temp2.error);
        }
        next := temp2.value;
      }
      curr := next;
      n := n + 1;
    }
    return Ok(curr);
  }

  /** The loop `for c in curr: temp.append(c[p])`. */
  method LookupEach(curr: seq<Value>, p: string) returns (r: Result<seq<Value>, PathError>)
    ensures r == LookupAll(curr, p)
  {
    var temp := [];
    var j := 0;
    while j < |curr|
      invariant 0 <= j <= |curr|
      invariant LookupAll(curr[..j], p) == Ok(temp)
    {
      var c := curr[j];
      assert curr[..j + 1][..j] == curr[..j];
      match Index(c, p) {
        case Found(x) =>
          temp := temp + [x];
        case KeyMissing =>
          LookupAllPrefixErr(curr, j + 1, p);
          return Err(SegmentNotFound(p, c));
        case NotSubscriptable =>
          LookupAllPrefixErr(curr, j + 1, p);
          return Err(NotADict(p, c));
      }
      j := j + 1;
    }
    assert curr[..j] == curr;
    return Ok(temp);
  }

  /** The loop `for t in temp: assert isinstance(t, list); temp2 += t`. */
  method ConcatLists(temp: seq<Value>, p: string) returns (r: Result<seq<Value>, PathError>)
    ensures r == Flatten(temp, p)
  {
    var temp2 := [];
    var k := 0;
    while k < |temp|
      invariant 0 <= k <= |temp|
      invariant Flatten(temp[..k], p) == Ok(temp2)
    {
      var t := temp[k];
      assert temp[..k + 1][..k] == temp[..k];
      if !t.Arr? {
        FlattenOk(temp, p);
        assert !AllLists(temp) by { assert temp[k] == t; }
        return Err(ExpectedList(p));
      }
      temp2 := temp2 + t.items;
      k := k + 1;
    }
    assert temp[..k] == temp;
    return Ok(temp2);
  }
}
