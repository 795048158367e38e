/** Dotted field paths (`"dealer.title"`) and the two folds that resolve them
    against a record: `get_value` and `field_changed?`. */
module Paths {
  import opened Values

  /** `s.split('.')` before Ruby drops trailing empty fields: every field,
      empty ones included, so `"a..b."` gives `["a", "", "b", ""]`. */
  function SplitAll(s: string): (r: seq<string>)
    ensures |r| >= 1
    decreases |s|
  {
    if s == [] then [""]
    else
      var init := SplitAll(s[..|s| - 1]);
      var c := s[|s| - 1];
      if c == '.' then init + [""]
      else init[..|init| - 1] + [init[|init| - 1] + [c]]
  }

  /** `parts.join(sep)`. */
  function Join(parts: seq<string>, sep: char): string
    requires |parts| >= 1
    decreases |parts|
  {
    if |parts| == 1 then parts[0]
    else Join(parts[..|parts| - 1], sep) + [sep] + parts[|parts| - 1]
  }

  /** Ruby drops the empty fields at the end of a split. */
  function DropTrailingEmpty(parts: seq<string>): (r: seq<string>)
    decreases |parts|
  {
    if parts != [] && parts[|parts| - 1] == "" then DropTrailingEmpty(parts[..|parts| - 1])
    else parts
  }

  /** `s.split('.')` exactly as Ruby computes it. */
  function Segments(s: string): seq<string> {
    DropTrailingEmpty(SplitAll(s))
  }

  /** The fold both readers share: starting at `obj`, each segment is sent to
      the current object if it is present; once it is not, the fold carries
      `absent` (`""` for `get_value`, `false` for `field_changed?`). */
  function Walk(obj: Value, path: seq<string>, absent: Value): Result<Value>
    decreases |path|
  {
    if path == [] then Ok(obj)
    else if !Present(obj) then Walk(absent, path[1..], absent)
    else
      match Send(obj, path[0])
      case Err(e) => Err(e)
      case Ok(next) => Walk(next, path[1..], absent)
  }

  /** `get_value(field)`: read a dotted path from the record. */
  function GetValue(root: Value, field: string): Result<Value> {
    Walk(root, Segments(field), Str(""))
  }

  const ChangedSuffix := "_changed?"

  /** `field_changed?(field)`: the dirty query for a dotted path, built by
      appending `_changed?` to the whole path text before splitting. */
  function FieldChanged(root: Value, field: string): Result<Value> {
    Walk(root, Segments(field + ChangedSuffix), Bool(false))
  }

  // ---------------------------------------------------------------------
  // Splitting and joining are inverse to each other.
  // ---------------------------------------------------------------------

  /** Splitting never leaves a separator inside a segment. */
  lemma {:induction false} SplitAllNoDots(s: string)
    ensures forall k :: 0 <= k < |SplitAll(s)| ==> '.' !in SplitAll(s)[k]
    decreases |s|
  {
    if s != [] {
      SplitAllNoDots(s[..|s| - 1]);
    }
  }

  /** Joining the split segments with `.` gives the text back. */
  lemma {:induction false} JoinSplitAll(s: string)
    ensures Join(SplitAll(s), '.') == s
    decreases |s|
  {
    if s != [] {
      var t, c := s[..|s| - 1], s[|s| - 1];
      var init := SplitAll(t);
      JoinSplitAll(t);
      assert s == t + [c];
      if c == '.' {
        assert (init + [""])[..|init|] == init;
      } else {
        var r := init[..|init| - 1] + [init[|init| - 1] + [c]];
        assert r[..|r| - 1] == init[..|init| - 1];
        if |init| > 1 {
          assert init == init[..|init| - 1] + [init[|init| - 1]];
          calc {
            Join(r, '.');
            Join(init[..|init| - 1], '.') + ['.'] + (init[|init| - 1] + [c]);
            (Join(init[..|init| - 1], '.') + ['.'] + init[|init| - 1]) + [c];
            Join(init, '.') + [c];
          }
        }
      }
    }
  }

  /** Appending text without a separator extends the last segment only. */
  lemma {:induction false} SplitAllAppend(s: string, t: string)
    requires '.' !in t
    ensures var p := SplitAll(s);
            SplitAll(s + t) == p[..|p| - 1] + [p[|p| - 1] + t]
    decreases |t|
  {
    if t == [] {
      var p := SplitAll(s);
      assert s + t == s;
      assert p[|p| - 1] + t == p[|p| - 1];
      assert p == p[..|p| - 1] + [p[|p| - 1]];
    } else {
      var t' := t[..|t| - 1];
      assert '.' !in t' by {
        forall i | 0 <= i < |t'| ensures t'[i] != '.' { assert t'[i] == t[i]; }
      }
      SplitAllAppend(s, t');
      SplitAllAppendStep(s, t);
    }
  }

  /** The induction step: the last character of `t` extends the last field. */
  lemma {:induction false} SplitAllAppendStep(s: string, t: string)
    requires t != [] && '.' !in t
    requires var p := SplitAll(s);
             SplitAll(s + t[..|t| - 1]) == p[..|p| - 1] + [p[|p| - 1] + t[..|t| - 1]]
    ensures var p := SplitAll(s);
            SplitAll(s + t) == p[..|p| - 1] + [p[|p| - 1] + t]
  {
    var p := SplitAll(s);
    var t', c := t[..|t| - 1], t[|t| - 1];
    assert c != '.' by { assert t[|t| - 1] in t; }
    var q := SplitAll(s + t');
    calc {
      SplitAll(s + t);
      { assert s + t == (s + t') + [c]; }
      SplitAll((s + t') + [c]);
      { SplitAllSnoc(s + t', c); }
      q[..|q| - 1] + [q[|q| - 1] + [c]];
      { assert q[..|q| - 1] == p[..|p| - 1]; }
      p[..|p| - 1] + [(p[|p| - 1] + t') + [c]];
      { assert (p[|p| - 1] + t') + [c] == p[|p| - 1] + t; }
      p[..|p| - 1] + [p[|p| - 1] + t];
    }
  }

  /** A character other than the separator extends the last field. */
  lemma {:induction false} SplitAllSnoc(u: string, c: char)
    requires c != '.'
    ensures var q := SplitAll(u);
            SplitAll(u + [c]) == q[..|q| - 1] + [q[|q| - 1] + [c]]
  {
    assert (u + [c])[..|u + [c]| - 1] == u;
  }

  /** Splitting the join of separator-free segments gives them back. */
  lemma {:induction false} SplitAllJoin(parts: seq<string>)
    requires |parts| >= 1
    requires forall k :: 0 <= k < |parts| ==> '.' !in parts[k]
    ensures SplitAll(Join(parts, '.')) == parts
    decreases |parts|
  {
    var x := parts[|parts| - 1];
    assert '.' !in x;
    if |parts| == 1 {
      SplitAllAppend([], x);
      assert [] + x == x;
      assert SplitAll([]) == [""];
    } else {
      var init := parts[..|parts| - 1];
      assert forall k :: 0 <= k < |init| ==> '.' !in init[k] by {
        forall k | 0 <= k < |init| ensures '.' !in init[k] { assert init[k] == parts[k]; }
      }
      SplitAllJoin(init);
      SplitAllJoinSnoc(Join(init, '.'), init, x);
      assert parts == init + [x];
    }
  }

  /** One more segment after a separator adds one more field. */
  lemma {:induction false} SplitAllJoinSnoc(j: string, init: seq<string>, x: string)
    requires SplitAll(j) == init && '.' !in x
    ensures SplitAll(j + ['.'] + x) == init + [x]
  {
    SplitAllDot(j);
    SplitAllAppend(j + ['.'], x);
    var p := SplitAll(j + ['.']);
    assert p[..|p| - 1] == init;
    assert p[|p| - 1] + x == x;
  }

  /** A trailing separator opens an empty segment. */
  lemma {:induction false} SplitAllDot(s: string)
    ensures SplitAll(s + ['.']) == SplitAll(s) + [""]
  {
    assert (s + ['.'])[..|s + ['.']| - 1] == s;
  }

  // ---------------------------------------------------------------------
  // What field_changed? queries.
  // ---------------------------------------------------------------------

  /** `"#{field}_changed?".split('.')` is the raw split of the field with
      `_changed?` appended to its last segment and nothing else touched; the
      final segment is never empty, so Ruby's trimming drops nothing. */
  lemma {:induction false} ChangedPathShape(field: string)
    ensures var p := SplitAll(field);
            Segments(field + ChangedSuffix) == p[..|p| - 1] + [p[|p| - 1] + ChangedSuffix]
  {
    var p := SplitAll(field);
    assert '.' !in ChangedSuffix;
    SplitAllAppend(field, ChangedSuffix);
    var q := SplitAll(field + ChangedSuffix);
    assert q[|q| - 1] != "" by {
      assert |q[|q| - 1]| >= |ChangedSuffix|;
    }
  }

  /** For an ordinary path (not empty and not ending in `.`), `get_value`
      reads exactly the segments `field_changed?` walks, with `_changed?` on
      the last one. */
  lemma {:induction false} ChangedPathOfSegments(field: string)
    requires field != [] && field[|field| - 1] != '.'
    ensures var p := Segments(field);
            |p| >= 1 && Segments(field + ChangedSuffix) == p[..|p| - 1] + [p[|p| - 1] + ChangedSuffix]
  {
    var p := SplitAll(field);
    assert p[|p| - 1] != "" by {
      var init := SplitAll(field[..|field| - 1]);
      assert p[|p| - 1] == init[|init| - 1] + [field[|field| - 1]];
    }
    assert Segments(field) == p;
    ChangedPathShape(field);
  }

  // ---------------------------------------------------------------------
  // The fold never fails on a missing link.
  // ---------------------------------------------------------------------

  /** Once the fold carries a non-present stand-in, it keeps it. */
  lemma {:induction false} WalkAbsent(path: seq<string>, absent: Value)
    requires !Present(absent)
    ensures Walk(absent, path, absent) == Ok(absent)
    decreases |path|
  {
    if path != [] {
      WalkAbsent(path[1..], absent);
    }
  }

  /** The left fold read from the right: the result of a path is the result
      of its prefix, then one more `send` if that object is present, else the
      stand-in. */
  lemma {:induction false} WalkSnoc(obj: Value, path: seq<string>, last: string, absent: Value)
    ensures Walk(obj, path + [last], absent) ==
            match Walk(obj, path, absent)
            case Err(e) => Err(e)
            case Ok(v) => if Present(v) then Send(v, last) else Ok(absent)
    decreases |path|
  {
    if path == [] {
      assert [] + [last] == [last];
      if !Present(obj) {
        assert Walk(obj, [last], absent) == Walk(absent, [], absent);
      }
    } else {
      assert (path + [last])[1..] == path[1..] + [last];
      if !Present(obj) {
        WalkSnoc(absent, path[1..], last, absent);
      } else if Send(obj, path[0]).Ok? {
        WalkSnoc(Send(obj, path[0]).value, path[1..], last, absent);
      }
    }
  }

  /** If some proper prefix of the path reaches a non-present object, the
      whole path resolves to the stand-in, whatever follows. */
  lemma {:induction false} WalkMissingLink(obj: Value, path: seq<string>, k: nat, absent: Value)
    requires !Present(absent)
    requires k < |path|
    requires Walk(obj, path[..k], absent).Ok? && !Present(Walk(obj, path[..k], absent).value)
    ensures Walk(obj, path, absent) == Ok(absent)
    decreases k
  {
    if k == 0 {
      WalkAbsent(path[1..], absent);
    } else {
      assert path[..k][1..] == path[1..][..k - 1];
      if !Present(obj) {
        WalkAbsent(path[1..], absent);
      } else {
        WalkMissingLink(Send(obj, path[0]).value, path[1..], k - 1, absent);
      }
    }
  }

  /** `get_value`: a non-present object on the way makes the result `""`;
      otherwise the result is what the last segment's read returns. */
  lemma {:induction false} GetValueSpec(root: Value, field: string)
    requires Segments(field) != []
    ensures var p := Segments(field);
            GetValue(root, field) ==
            match Walk(root, p[..|p| - 1], Str(""))
            case Err(e) => Err(e)
            case Ok(v) => if Present(v) then Send(v, p[|p| - 1]) else Ok(Str(""))
  {
    var p := Segments(field);
    assert p == p[..|p| - 1] + [p[|p| - 1]];
    WalkSnoc(root, p[..|p| - 1], p[|p| - 1], Str(""));
  }

  /** `get_value` never raises because of a missing link: a non-present
      object after any proper prefix of the path gives `""`. */
  lemma {:induction false} GetValueMissingLink(root: Value, field: string, k: nat)
    requires k < |Segments(field)|
    requires Walk(root, Segments(field)[..k], Str("")).Ok?
    requires !Present(Walk(root, Segments(field)[..k], Str("")).value)
    ensures GetValue(root, field) == Ok(Str(""))
  {
    WalkMissingLink(root, Segments(field), k, Str(""));
  }

  /** `field_changed?` sends `<last segment>_changed?` to the object the
      other segments reach, and is `false` when that object (or one before
      it) is not present. */
  lemma {:induction false} FieldChangedSpec(root: Value, field: string)
    ensures var p := SplitAll(field);
            FieldChanged(root, field) ==
            match Walk(root, p[..|p| - 1], Bool(false))
            case Err(e) => Err(e)
            case Ok(v) => if Present(v) then Send(v, p[|p| - 1] + ChangedSuffix) else Ok(Bool(false))
  {
    var p := SplitAll(field);
    ChangedPathShape(field);
    WalkSnoc(root, p[..|p| - 1], p[|p| - 1] + ChangedSuffix, Bool(false));
  }

  /** A dotted path through an absent association reads `""` and reports no
      change (the `dealer.title` field of a vehicle without a dealer). */
  lemma {:induction false} AbsentAssociation(attrs: map<string, Value>, assoc: string, attr: string)
    requires '.' !in assoc && '.' !in attr && attr != ""
    requires assoc in attrs && !Present(attrs[assoc])
    ensures GetValue(Obj(attrs), Join([assoc, attr], '.')) == Ok(Str(""))
    ensures FieldChanged(Obj(attrs), Join([assoc, attr], '.')) == Ok(Bool(false))
  {
    var f := Join([assoc, attr], '.');
    SplitAllJoin([assoc, attr]);
    assert Segments(f) == [assoc, attr];
    assert Walk(Obj(attrs), Segments(f)[..1], Str("")) == Ok(attrs[assoc]) by {
      assert Segments(f)[..1] == [assoc];
    }
    GetValueMissingLink(Obj(attrs), f, 1);
    FieldChangedSpec(Obj(attrs), f);
    assert SplitAll(f)[..1] == [assoc];
    assert Walk(Obj(attrs), [assoc], Bool(false)) == Ok(attrs[assoc]);
  }
}
