/**
 * The path walker: `Opserver.computeObjectPaths` and the paths an update
 * record's operator bodies touch.
 */
module ObjectPaths {
  import opened Values

  /**
   * `computeObjectPaths(v, p)`: a plain object contributes, key by key, the
   * paths of its children under `p + "." + key`; any other value is a leaf,
   * which yields `p` itself unless `p` is still the empty root path.
   */
  function Paths(v: Value, p: string): (r: seq<string>)
    ensures forall i :: 0 <= i < |r| ==> p <= r[i]
    ensures v.Obj? ==> forall i :: 0 <= i < |r| ==> |r[i]| > |p| && r[i][|p|] == '.'
    ensures !v.Obj? && p == "" ==> r == []
    decreases v, 1
  {
    match v
    case Obj(fs) => FieldsPaths(v, |fs|, p)
    case _ => if p == "" then [] else [p]
  }

  /** The `reduce` over the first `n` keys of the plain object `obj`. */
  function FieldsPaths(obj: Value, n: nat, p: string): (r: seq<string>)
    requires obj.Obj? && n <= |obj.fields|
    ensures forall i :: 0 <= i < |r| ==> |r[i]| > |p| && r[i][..|p|] == p && r[i][|p|] == '.'
    decreases obj, 0, n
  {
    if n == 0 then []
    else
      var field := obj.fields[n - 1];
      assert field in obj.fields;
      var q := p + "." + field.0;
      var before := FieldsPaths(obj, n - 1, p);
      var below := Paths(field.1, q);
      assert forall i :: 0 <= i < |below| ==> below[i][..|p|] == p && below[i][|p|] == '.' by {
        forall i | 0 <= i < |below| ensures below[i][..|p|] == p && below[i][|p|] == '.' {
          assert below[i][..|q|] == q;
          assert q[..|p|] == p && q[|p|] == '.';
        }
      }
      before + below
  }

  // ---------------------------------------------------------------------
  // Reference definition: the key sequences that lead to leaves
  // ---------------------------------------------------------------------

  /** `ks` leads from `v`, through plain objects only, to a value that is not a plain object. */
  ghost predicate IsLeafPath(v: Value, ks: seq<string>)
    decreases v
  {
    if ks == [] then !v.Obj?
    else v.Obj? && exists i :: 0 <= i < |v.fields| && v.fields[i] in v.fields &&
                              v.fields[i].0 == ks[0] && IsLeafPath(v.fields[i].1, ks[1..])
  }

  /** `ks` goes through the field at index `i` of the plain object `v`. */
  ghost predicate LeadsThrough(v: Value, i: nat, ks: seq<string>)
    requires v.Obj? && i < |v.fields| && ks != []
  {
    v.fields[i] in v.fields && v.fields[i].0 == ks[0] && IsLeafPath(v.fields[i].1, ks[1..])
  }

  /** All leaf key sequences of `v`, in key order, duplicates included. */
  function KeyPaths(v: Value): (r: seq<seq<string>>)
    decreases v, 1
  {
    match v
    case Obj(fs) => FieldsKeyPaths(v, |fs|)
    case _ => [[]]
  }

  function FieldsKeyPaths(obj: Value, n: nat): (r: seq<seq<string>>)
    requires obj.Obj? && n <= |obj.fields|
    decreases obj, 0, n
  {
    if n == 0 then []
    else
      var field := obj.fields[n - 1];
      assert field in obj.fields;
      FieldsKeyPaths(obj, n - 1) + Prefixed(field.0, KeyPaths(field.1))
  }

  function Prefixed(k: string, kss: seq<seq<string>>): (r: seq<seq<string>>)
    ensures |r| == |kss| && forall i :: 0 <= i < |kss| ==> r[i] == [k] + kss[i]
  {
    seq(|kss|, i requires 0 <= i < |kss| => [k] + kss[i])
  }

  /** The dot path of a key sequence: `".a.b"` for `["a", "b"]`. */
  function Dotted(ks: seq<string>): (r: string)
  {
    if ks == [] then "" else "." + ks[0] + Dotted(ks[1..])
  }

  function Render(p: string, kss: seq<seq<string>>): (r: seq<string>)
    ensures |r| == |kss| && forall i :: 0 <= i < |kss| ==> r[i] == p + Dotted(kss[i])
  {
    seq(|kss|, i requires 0 <= i < |kss| => p + Dotted(kss[i]))
  }

  // ---------------------------------------------------------------------
  // The walker agrees with the reference definition
  // ---------------------------------------------------------------------

  /**
   * Below a non-empty prefix (or from a plain object), the walker yields
   * exactly the rendered leaf key sequences, in the same order.
   */
  lemma {:induction false} PathsAreRenderedKeyPaths(v: Value, p: string)
    requires v.Obj? || p != ""
    ensures Paths(v, p) == Render(p, KeyPaths(v))
    decreases v, 1
  {
    match v
    case Obj(fs) => FieldsPathsAreRendered(v, |fs|, p);
    case _ =>
      assert Dotted([]) == "" && p + "" == p;
      assert Render(p, [[]]) == [p];
  }

  lemma {:induction false} FieldsPathsAreRendered(obj: Value, n: nat, p: string)
    requires obj.Obj? && n <= |obj.fields|
    ensures FieldsPaths(obj, n, p) == Render(p, FieldsKeyPaths(obj, n))
    decreases obj, 0, n
  {
    if n > 0 {
      var field := obj.fields[n - 1];
      assert field in obj.fields;
      FieldsPathsAreRendered(obj, n - 1, p);
      PathsAreRenderedKeyPaths(field.1, p + "." + field.0);
      RenderPrefixed(p, field.0, KeyPaths(field.1));
      RenderConcat(p, FieldsKeyPaths(obj, n - 1), Prefixed(field.0, KeyPaths(field.1)));
    }
  }

  lemma RenderConcat(p: string, a: seq<seq<string>>, b: seq<seq<string>>)
    ensures Render(p, a + b) == Render(p, a) + Render(p, b)
  {
  }

  lemma RenderPrefixed(p: string, k: string, kss: seq<seq<string>>)
    ensures Render(p, Prefixed(k, kss)) == Render(p + "." + k, kss)
  {
    var added := Prefixed(k, kss);
    forall i | 0 <= i < |kss| ensures p + Dotted(added[i]) == (p + "." + k) + Dotted(kss[i]) {
      assert added[i][1..] == kss[i];
    }
  }

  /** The reference definition lists exactly the leaf key sequences. */
  lemma {:induction false} KeyPathsAreLeafPaths(v: Value, ks: seq<string>)
    ensures ks in KeyPaths(v) <==> IsLeafPath(v, ks)
    decreases v, 1
  {
    match v
    case Obj(fs) =>
      FieldsKeyPathsAreLeafPaths(v, |fs|, ks);
      assert KeyPaths(v) == FieldsKeyPaths(v, |fs|);
      if IsLeafPath(v, ks) {
        assert ks != [];
        var i :| 0 <= i < |fs| && fs[i] in fs && fs[i].0 == ks[0] && IsLeafPath(fs[i].1, ks[1..]);
        assert LeadsThrough(v, i, ks);
        assert ks in KeyPaths(v);
      }
      if ks in KeyPaths(v) {
        var i :| 0 <= i < |fs| && LeadsThrough(v, i, ks);
        assert IsLeafPath(v, ks);
      }
    case _ =>
  }

  lemma {:induction false} FieldsKeyPathsAreLeafPaths(obj: Value, n: nat, ks: seq<string>)
    requires obj.Obj? && n <= |obj.fields|
    ensures ks in FieldsKeyPaths(obj, n) <==>
              ks != [] && exists i :: 0 <= i < n && LeadsThrough(obj, i, ks)
    decreases obj, 0, n
  {
    if n > 0 {
      var field := obj.fields[n - 1];
      assert field in obj.fields;
      FieldsKeyPathsAreLeafPaths(obj, n - 1, ks);
      var before := FieldsKeyPaths(obj, n - 1);
      var added := Prefixed(field.0, KeyPaths(field.1));
      assert FieldsKeyPaths(obj, n) == before + added;
      if ks != [] {
        KeyPathsAreLeafPaths(field.1, ks[1..]);
        assert ks in added <==> LeadsThrough(obj, n - 1, ks) by {
          if ks in added {
            var j :| 0 <= j < |added| && added[j] == ks;
            assert ks[1..] == KeyPaths(field.1)[j];
          }
          if LeadsThrough(obj, n - 1, ks) {
            var j :| 0 <= j < |KeyPaths(field.1)| && KeyPaths(field.1)[j] == ks[1..];
            assert added[j] == [ks[0]] + ks[1..] == ks;
          }
        }
        if exists i :: 0 <= i < n && LeadsThrough(obj, i, ks) {
          var i :| 0 <= i < n && LeadsThrough(obj, i, ks);
          if i < n - 1 {
            assert exists i' :: 0 <= i' < n - 1 && LeadsThrough(obj, i', ks);
            assert ks in before;
          } else {
            assert ks in added;
          }
          assert ks in FieldsKeyPaths(obj, n);
        }
        if ks in FieldsKeyPaths(obj, n) {
          if ks in before {
            var i :| 0 <= i < n - 1 && LeadsThrough(obj, i, ks);
            assert 0 <= i < n;
          } else {
            assert ks in added;
            assert LeadsThrough(obj, n - 1, ks);
            assert exists i :: 0 <= i < n && LeadsThrough(obj, i, ks);
          }
        }
      } else {
        assert forall j :: 0 <= j < |added| ==> added[j] != [];
      }
    }
  }

  /** The dot path of a non-empty key sequence starts with `'.'`. */
  lemma DottedStartsWithDot(ks: seq<string>)
    requires ks != []
    ensures |Dotted(ks)| > 0 && Dotted(ks)[0] == '.'
  {
  }

  /**
   * From the root, a plain object yields one `'.'`-prefixed path per leaf
   * key sequence, and any other value yields nothing.
   */
  lemma RootPaths(v: Value)
    ensures !v.Obj? ==> Paths(v, "") == []
    ensures v.Obj? ==> Paths(v, "") == Render("", KeyPaths(v))
    ensures forall i :: 0 <= i < |Paths(v, "")| ==> |Paths(v, "")[i]| > 0 && Paths(v, "")[i][0] == '.'
  {
    if v.Obj? {
      PathsAreRenderedKeyPaths(v, "");
      forall i | 0 <= i < |KeyPaths(v)| ensures |Dotted(KeyPaths(v)[i])| > 0 && Dotted(KeyPaths(v)[i])[0] == '.' {
        var ks := KeyPaths(v)[i];
        KeyPathsAreLeafPaths(v, ks);
        DottedStartsWithDot(ks);
      }
    }
  }

  // ---------------------------------------------------------------------
  // The changed paths of an update record
  // ---------------------------------------------------------------------

  /**
   * The values of the top-level keys of an update's `o`, each walked from the
   * root and concatenated in key order; duplicates are kept.
   */
  function ChangedPaths(fs: seq<(string, Value)>): (r: seq<string>)
    ensures forall i :: 0 <= i < |r| ==> |r[i]| > 0 && r[i][0] == '.'
  {
    if fs == [] then []
    else ChangedPaths(fs[..|fs| - 1]) + Paths(fs[|fs| - 1].1, "")
  }

  /** Every changed path is the dot path of a leaf inside some top-level value. */
  lemma {:induction false} ChangedPathIsLeaf(fs: seq<(string, Value)>, j: nat)
    requires j < |ChangedPaths(fs)|
    ensures exists i, ks :: 0 <= i < |fs| && ks != [] && IsLeafPath(fs[i].1, ks) && ChangedPaths(fs)[j] == Dotted(ks)
  {
    var n := |fs|;
    var before := ChangedPaths(fs[..n - 1]);
    var last := fs[n - 1].1;
    if j < |before| {
      ChangedPathIsLeaf(fs[..n - 1], j);
      var i, ks :| 0 <= i < n - 1 && ks != [] && IsLeafPath(fs[..n - 1][i].1, ks) && before[j] == Dotted(ks);
      assert fs[..n - 1][i] == fs[i];
    } else {
      RootPaths(last);
      var ks := KeyPaths(last)[j - |before|];
      KeyPathsAreLeafPaths(last, ks);
      assert IsLeafPath(fs[n - 1].1, ks);
    }
  }

  /** Every leaf below a top-level value shows up among the changed paths. */
  lemma {:induction false} LeafIsChangedPath(fs: seq<(string, Value)>, i: nat, ks: seq<string>)
    requires i < |fs| && ks != [] && IsLeafPath(fs[i].1, ks)
    ensures Dotted(ks) in ChangedPaths(fs)
  {
    var n := |fs|;
    if i < n - 1 {
      assert fs[..n - 1][i] == fs[i];
      LeafIsChangedPath(fs[..n - 1], i, ks);
    } else {
      KeyPathsAreLeafPaths(fs[i].1, ks);
      RootPaths(fs[i].1);
      var j :| 0 <= j < |KeyPaths(fs[i].1)| && KeyPaths(fs[i].1)[j] == ks;
      assert Paths(fs[i].1, "")[j] == Dotted(ks);
    }
  }
}
