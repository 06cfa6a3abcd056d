/**
 * JSON-like values as the Python code sees them after `json.load`: `None`,
 * booleans, integers, strings, lists and dicts.  A dict is an ordered list of
 * key/value pairs, because Python dicts iterate in insertion order and that
 * order decides the order of the output.
 */
module Json {
  import opened Wrappers
  import opened Strings

  datatype Value =
    | Null
    | Bool(b: bool)
    | Num(n: int)
    | Str(s: string)
    | Arr(items: seq<Value>)
    | Obj(fields: seq<(string, Value)>)

  type Fields = seq<(string, Value)>

  function Keys(fs: Fields): (ks: seq<string>)
    ensures |ks| == |fs| && forall i :: 0 <= i < |fs| ==> ks[i] == fs[i].0
  {
    if fs == [] then [] else [fs[0].0] + Keys(fs[1..])
  }

  /** No key occurs twice: every dict the Python code builds has this shape. */
  predicate UniqueKeys(fs: Fields) {
    forall i, j :: 0 <= i < j < |fs| ==> fs[i].0 != fs[j].0
  }

  /** `d.get(k)`: the value stored under the first occurrence of `k`. */
  function Get(fs: Fields, k: string): (r: Option<Value>)
    ensures r.None? <==> k !in Keys(fs)
    ensures r.Some? ==> exists i :: 0 <= i < |fs| && fs[i] == (k, r.value)
  {
    if fs == [] then None
    else if fs[0].0 == k then Some(fs[0].1)
    else Get(fs[1..], k)
  }

  /** `d[k] = v`: replaces the value in place if `k` is present, appends otherwise. */
  function Put(fs: Fields, k: string, v: Value): (r: Fields)
  {
    if fs == [] then [(k, v)]
    else if fs[0].0 == k then [(k, v)] + fs[1..]
    else [fs[0]] + Put(fs[1..], k, v)
  }

  /** `d[k] = v` keeps the key order and appends `k` when it is new. */
  lemma {:induction false} PutKeys(fs: Fields, k: string, v: Value)
    ensures Keys(Put(fs, k, v)) == if k in Keys(fs) then Keys(fs) else Keys(fs) + [k]
  {
    if fs != [] {
      var r := Put(fs, k, v);
      if fs[0].0 == k {
        assert r[1..] == fs[1..];
        assert Keys(r) == [k] + Keys(fs[1..]);
        assert Keys(fs) == [k] + Keys(fs[1..]);
      } else {
        PutKeys(fs[1..], k, v);
        assert r[1..] == Put(fs[1..], k, v);
        assert Keys(r) == [fs[0].0] + Keys(Put(fs[1..], k, v));
        assert Keys(fs) == [fs[0].0] + Keys(fs[1..]);
      }
    }
  }

  /** After `d[k] = v`, `k` reads `v` and every other key reads what it did before. */
  lemma {:induction false} PutGet(fs: Fields, k: string, v: Value, k': string)
    ensures Get(Put(fs, k, v), k') == if k' == k then Some(v) else Get(fs, k')
  {
    if fs != [] && fs[0].0 != k {
      PutGet(fs[1..], k, v, k');
    }
  }

  /** Every pair of `d` after `d[k] = v` is `(k, v)` or was there before. */
  lemma {:induction false} PutElements(fs: Fields, k: string, v: Value)
    ensures forall i :: 0 <= i < |Put(fs, k, v)| ==> Put(fs, k, v)[i] == (k, v) || Put(fs, k, v)[i] in fs
  {
    if fs != [] && fs[0].0 != k {
      PutElements(fs[1..], k, v);
      var r := Put(fs, k, v);
      forall i | 0 <= i < |r| ensures r[i] == (k, v) || r[i] in fs {
        if i > 0 {
          assert r[i] == Put(fs[1..], k, v)[i - 1];
        }
      }
    }
  }

  lemma PutKeepsUnique(fs: Fields, k: string, v: Value)
    requires UniqueKeys(fs)
    ensures UniqueKeys(Put(fs, k, v))
  {
    var r := Put(fs, k, v);
    PutKeys(fs, k, v);
    forall i, j | 0 <= i < j < |r| ensures r[i].0 != r[j].0 {
      assert Keys(r)[i] == r[i].0 && Keys(r)[j] == r[j].0;
      assert Keys(fs) == Keys(fs) && (i < |fs| ==> Keys(fs)[i] == fs[i].0);
    }
  }

  /** The outcome of the Python subscript `c[k]` with a string key. */
  datatype Subscript =
    | Found(value: Value)
    | KeyMissing          // a dict without `k`: KeyError
    | NotSubscriptable    // a list, string, number, bool or None: TypeError

  function Index(c: Value, k: string): (r: Subscript)
    ensures r.Found? <==> c.Obj? && k in Keys(c.fields)
    ensures r.KeyMissing? <==> c.Obj? && k !in Keys(c.fields)
  {
    match c
    case Obj(fs) => (match Get(fs, k) case Some(x) => Found(x) case None => KeyMissing)
    case _ => NotSubscriptable
  }

  /** Python's `str(v)`. */
  function Show(v: Value): string
  {
    match v
    case Str(s) => s
    case _ => Repr(v)
  }

  /** Python's `repr(v)`, with strings always in single quotes and not escaped. */
  function Repr(v: Value): string
  {
    match v
    case Null => "None"
    case Bool(b) => if b then "True" else "False"
    case Num(n) => IntToString(n)
    case Str(s) => "'" + s + "'"
    case Arr(xs) => "[" + Join(", ", seq(|xs|, i requires 0 <= i < |xs| => Repr(xs[i]))) + "]"
    case Obj(fs) =>
      "{" + Join(", ", seq(|fs|, i requires 0 <= i < |fs| => "'" + fs[i].0 + "': " + Repr(fs[i].1))) + "}"
  }

  /** `str(v)` of a non-string value is never blank: its first character is not whitespace. */
  lemma ShowNonStrNotBlank(v: Value)
    requires !v.Str?
    ensures |Show(v)| > 0 && !IsSpace(Show(v)[0])
  {
  }
}
