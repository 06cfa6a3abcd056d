/**
 * src/lib/relationships.py: which values count as an id, and the parent edges
 * an HSDS object declares through its `<parent>_id` fields.
 */
module Relationships {
  import opened Wrappers
  import opened Strings
  import opened Json

  /** The spellings of "no id", compared after trimming and lower-casing. */
  const Placeholders: seq<string> := ["null", "none", "n/a", "na"]

  predicate IsPlaceholder(t: string) {
    Lower(t) in Placeholders
  }

  /** `is_valid_id(id_value)`. A valid id is never `None`, and its `str` is
      not empty. */
  predicate IsValidId(v: Value): (b: bool)
    ensures b ==> !v.Null? && |Show(v)| > 0
  {
    if v.Null? then false
    else
      var t := Trim(Show(v));
      !(t == "" || IsPlaceholder(t))
  }

  /** The `str` of a valid id has a character that is not whitespace. */
  lemma ValidIdVisible(v: Value)
    requires IsValidId(v)
    ensures exists i :: 0 <= i < |Show(v)| && !IsSpace(Show(v)[i])
  {
    var s := Show(v);
    assert !IsSpace(s[|s| - |TrimLeft(s)|]);
  }

  /** One `(key, value)` pair's contribution: `(key[:-3], str(value))` for a
      valid `_id` field other than `id`, nothing otherwise. */
  function EdgeOf(key: string, value: Value): seq<(string, string)>
  {
    if EndsWith(key, "_id") && key != "id" && IsValidId(value) then [(DropLast(key, 3), Show(value))] else []
  }

  /** What `identify_parent_relationships(obj_dict)` returns, pair by pair in
      the dict's order. */
  function ParentEdges(fs: Fields): seq<(string, string)>
    decreases |fs|
  {
    if fs == [] then []
    else ParentEdges(fs[..|fs| - 1]) + EdgeOf(fs[|fs| - 1].0, fs[|fs| - 1].1)
  }

  // ---------------------------------------------------------------------------
  // Validity

  lemma NullIsInvalid()
    ensures !IsValidId(Null)
  {
  }

  /** A value whose `str` is only whitespace is not an id. */
  lemma BlankIsInvalid(v: Value)
    requires Trim(Show(v)) == ""
    ensures !IsValidId(v)
  {
  }

  /** Every integer is a valid id: its `str` has no whitespace, and it starts
      with a digit or `-`, while every placeholder starts with `n`. */
  lemma NumIdsValid(n: int)
    ensures IsValidId(Num(n))
  {
    var s := IntToString(n);
    TrimNoSpace(s);
    assert Trim(Show(Num(n))) == s;
    assert s[0] == '-' || '0' <= s[0] <= '9';
    NotPlaceholder(s);
  }

  /** Every placeholder starts with `n`, so a string that does not lower-case
      to an initial `n` is not one. */
  lemma NotPlaceholder(t: string)
    requires |t| > 0 && LowerChar(t[0]) != 'n'
    ensures !IsPlaceholder(t)
  {
    assert Lower(t)[0] != 'n';
    forall p | p in Placeholders ensures p[0] == 'n' { }
  }

  /** The placeholders are matched in any letter case: an id and its
      lower-cased spelling are valid together. */
  lemma IdCaseInsensitive(s: string)
    ensures IsValidId(Str(s)) == IsValidId(Str(Lower(s)))
  {
    var t := Trim(s);
    TrimLower(s);
    assert Trim(Show(Str(Lower(s)))) == Lower(t);
    PlaceholderLower(t);
    assert |Lower(t)| == |t|;
  }

  lemma PlaceholderLower(t: string)
    ensures IsPlaceholder(Lower(t)) == IsPlaceholder(t)
  {
    LowerIdempotent(t);
  }

  /** A value whose stripped, lower-cased `str` is a placeholder is not an id. */
  lemma PlaceholderInvalid(v: Value)
    requires Lower(Trim(Show(v))) in Placeholders
    ensures !IsValidId(v)
  {
  }

  /** Concrete cases: placeholders in capitals, padded or not, are rejected,
      and a padded number-like string is accepted. */
  lemma CapitalisedPlaceholderInvalid()
    ensures !IsValidId(Str("None"))
    ensures !IsValidId(Str(" NULL "))
    ensures !IsValidId(Str("N/A"))
  {
    NoneInvalid();
    PaddedNullInvalid();
    SlashInvalid();
  }

  lemma NoneInvalid()
    ensures !IsValidId(Str("None"))
  {
    TrimExample("None", "None");
    assert IsPlaceholder("None") by {
      assert LowerChar('N') == 'n' && LowerChar('o') == 'o' && LowerChar('e') == 'e';
      assert Lower("None") == "none";
      assert Placeholders[1] == "none";
    }
  }

  lemma PaddedNullInvalid()
    ensures !IsValidId(Str(" NULL "))
  {
    var w := "NULL";
    assert NoSpace(w);
    NullInCapitals();
    assert " NULL " == " " + w + " ";
    PaddedPlaceholderInvalid(w);
  }

  lemma NullInCapitals()
    ensures IsPlaceholder("NULL")
  {
    assert LowerChar('N') == 'n' && LowerChar('U') == 'u' && LowerChar('L') == 'l';
    assert Lower("NULL") == "null";
    assert Placeholders[0] == "null";
  }

  /** A placeholder with one space of padding at each end is still rejected. */
  lemma PaddedPlaceholderInvalid(w: string)
    requires |w| > 0 && NoSpace(w) && IsPlaceholder(w)
    ensures !IsValidId(Str(" " + w + " "))
  {
    TrimExample(" " + w + " ", w);
    assert Trim(Show(Str(" " + w + " "))) == w;
  }

  lemma SlashInvalid()
    ensures !IsValidId(Str("N/A"))
  {
    TrimExample("N/A", "N/A");
    assert IsPlaceholder("N/A") by {
      assert LowerChar('N') == 'n' && LowerChar('/') == '/' && LowerChar('A') == 'a';
      assert Lower("N/A") == "n/a";
      assert Placeholders[2] == "n/a";
    }
  }

  lemma PaddedNumberValid()
    ensures IsValidId(Str(" 42 "))
  {
    var w := "42";
    assert NoSpace(w) && LowerChar(w[0]) == '4';
    assert " 42 " == " " + w + " ";
    PaddedValid(w);
  }

  /** A word with no whitespace that does not start with `n` or `N` is a
      valid id, also with one space of padding at each end. */
  lemma PaddedValid(w: string)
    requires |w| > 0 && NoSpace(w) && LowerChar(w[0]) != 'n'
    ensures IsValidId(Str(" " + w + " "))
  {
    var s := " " + w + " ";
    TrimExample(s, w);
    assert Trim(Show(Str(s))) == w;
    NotPlaceholder(w);
  }

  /** `" " + w + " "` and `w` strip to `w` when `w` has no whitespace. */
  lemma TrimExample(s: string, w: string)
    requires s == w || s == " " + w + " "
    requires |w| > 0 && NoSpace(w)
    ensures Trim(s) == w
  {
    TrimNoSpace(w);
    if s != w {
      var u := w + " ";
      assert TrimLeft(s) == u by {
        assert IsSpace(s[0]) && s[1..] == u;
        assert !IsSpace(u[0]);
      }
      assert TrimRight(u) == w by {
        assert IsSpace(u[|u| - 1]) && u[..|u| - 1] == w;
        assert !IsSpace(w[|w| - 1]);
      }
    }
  }

  lemma {:induction false} TrimNoSpace(s: string)
    requires NoSpace(s)
    ensures Trim(s) == s
  {
  }

  lemma LowerCharSpace(c: char)
    ensures IsSpace(LowerChar(c)) == IsSpace(c)
  {
    if 'A' <= c <= 'Z' {
      assert 'a' <= LowerChar(c) <= 'z';
    }
  }

  lemma {:induction false} TrimLeftLower(s: string)
    ensures TrimLeft(Lower(s)) == Lower(TrimLeft(s))
    decreases |s|
  {
    if |s| > 0 {
      var l := Lower(s);
      assert l[0] == LowerChar(s[0]);
      LowerCharSpace(s[0]);
      if IsSpace(s[0]) {
        assert l[1..] == Lower(s[1..]);
        assert TrimLeft(l) == TrimLeft(l[1..]);
        TrimLeftLower(s[1..]);
      }
    }
  }

  lemma {:induction false} TrimRightLower(s: string)
    ensures TrimRight(Lower(s)) == Lower(TrimRight(s))
    decreases |s|
  {
    if |s| > 0 {
      var l := Lower(s);
      assert l[|s| - 1] == LowerChar(s[|s| - 1]);
      LowerCharSpace(s[|s| - 1]);
      if IsSpace(s[|s| - 1]) {
        assert l[..|s| - 1] == Lower(s[..|s| - 1]);
        assert TrimRight(l) == TrimRight(l[..|s| - 1]);
        TrimRightLower(s[..|s| - 1]);
      }
    }
  }

  lemma TrimLower(s: string)
    ensures Trim(Lower(s)) == Lower(Trim(s))
  {
    TrimLeftLower(s);
    TrimRightLower(TrimLeft(s));
  }

  lemma LowerIdempotent(s: string)
    ensures Lower(Lower(s)) == Lower(s)
  {
  }

  // ---------------------------------------------------------------------------
  // Parent edges

  /** The `key != 'id'` test never decides anything: `id` does not end in `_id`. */
  lemma IdKeyNeverEndsInSuffix()
    ensures !EndsWith("id", "_id")
  {
  }

  /** The edges of a dict are the edges of its first part followed by those of the
      rest: edges keep the key order, and each key adds at most one. */
  lemma {:induction false} ParentEdgesAppend(a: Fields, b: Fields)
    ensures ParentEdges(a + b) == ParentEdges(a) + ParentEdges(b)
    decreases |b|
  {
    if b != [] {
      var b' := b[..|b| - 1];
      assert (a + b)[..|a + b| - 1] == a + b';
      assert (a + b)[|a + b| - 1] == b[|b| - 1];
      ParentEdgesAppend(a, b');
    } else {
      assert a + b == a;
    }
  }

  lemma {:induction false} ParentEdgesLength(fs: Fields)
    ensures |ParentEdges(fs)| <= |fs|
    decreases |fs|
  {
    if fs != [] {
      ParentEdgesLength(fs[..|fs| - 1]);
    }
  }

  /** An edge `(parent, id)` comes from a field `parent + "_id"` holding a
      valid id whose `str` is `id` (not trimmed). */
  lemma {:induction false} ParentEdgesSound(fs: Fields, e: (string, string))
    requires e in ParentEdges(fs)
    ensures exists i :: 0 <= i < |fs| && fs[i].0 == e.0 + "_id" && IsValidId(fs[i].1) && e.1 == Show(fs[i].1)
    decreases |fs|
  {
    var init := fs[..|fs| - 1];
    var (k, v) := fs[|fs| - 1];
    if e in ParentEdges(init) {
      ParentEdgesSound(init, e);
      var i :| 0 <= i < |init| && init[i].0 == e.0 + "_id" && IsValidId(init[i].1) && e.1 == Show(init[i].1);
      assert fs[i] == init[i];
    } else {
      assert ParentEdges(fs) == ParentEdges(init) + EdgeOf(k, v);
      EdgeOfSound(k, v, e);
      assert fs[|fs| - 1].0 == e.0 + "_id";
    }
  }

  lemma EdgeOfSound(k: string, v: Value, e: (string, string))
    requires e in EdgeOf(k, v)
    ensures k == e.0 + "_id" && IsValidId(v) && e.1 == Show(v)
  {
    assert EndsWith(k, "_id") && IsValidId(v);
    assert e == (DropLast(k, 3), Show(v));
    SuffixSplit(k, "_id");
  }

  lemma SuffixSplit(s: string, suffix: string)
    requires EndsWith(s, suffix)
    ensures s == DropLast(s, |suffix|) + suffix
  {
    assert s == s[..|s| - |suffix|] + s[|s| - |suffix|..];
  }

  /** Every field `p + "_id"` holding a valid id gives the edge `(p, str(value))`. */
  lemma {:induction false} ParentEdgesComplete(fs: Fields, i: nat)
    requires i < |fs| && EndsWith(fs[i].0, "_id") && IsValidId(fs[i].1)
    ensures (DropLast(fs[i].0, 3), Show(fs[i].1)) in ParentEdges(fs)
    decreases |fs|
  {
    var init := fs[..|fs| - 1];
    if i == |fs| - 1 {
      assert fs[i].0 != "id";
      assert EdgeOf(fs[i].0, fs[i].1) == [(DropLast(fs[i].0, 3), Show(fs[i].1))];
    } else {
      assert init[i] == fs[i];
      ParentEdgesComplete(init, i);
    }
  }

  /** `identify_parent_relationships(obj_dict)`. */
  method IdentifyParentRelationships(objDict: Fields) returns (relationships: seq<(string, string)>)
    ensures relationships == ParentEdges(objDict)
  {
    relationships := [];
    var i := 0;
    while i < |objDict|
      invariant 0 <= i <= |objDict|
      invariant relationships == ParentEdges(objDict[..i])
    {
      assert objDict[..i + 1][..i] == objDict[..i];
      var (key, value) := objDict[i];
      if EndsWith(key, "_id") && key != "id" {
        if IsValidId(value) {
          var parentType := DropLast(key, 3);
          relationships := relationships + [(parentType, Show(value))];
        }
      }
      i := i + 1;
    }
    assert objDict[..i] == objDict;
  }
}
