/**
 * The payloads the event engine handles: oplog bodies, update operator
 * bodies, fetched documents and event data, as a closed set of shapes.
 *
 * A plain object (what `lodash.isplainobject` accepts) lists its fields in
 * `Object.keys` order. Every other
 * object (an array, a Date, an ObjectId, a Buffer) is opaque: the engine never
 * looks inside it and only compares it by reference.
 */
module Values {
  import opened Strings

  datatype Option<T> = None | Some(value: T)

  /** A JavaScript primitive. Numbers are modelled as integers. */
  datatype Primitive = Undefined | Null | Bool(b: bool) | Num(n: int) | Str(s: string)

  datatype Value =
    | Prim(p: Primitive)
    | Obj(fields: seq<(string, Value)>)
    | Opaque(ref: nat)

  const Undef := Prim(Undefined)

  /** Index of the first field named `key`, if any. */
  function FieldIndex(fields: seq<(string, Value)>, key: string): (r: Option<nat>)
    ensures r.Some? ==> r.value < |fields| && fields[r.value].0 == key
    ensures r.Some? ==> forall j :: 0 <= j < r.value ==> fields[j].0 != key
    ensures r.None? ==> forall j :: 0 <= j < |fields| ==> fields[j].0 != key
  {
    if fields == [] then None
    else if fields[0].0 == key then Some(0)
    else match FieldIndex(fields[1..], key)
      case None => None
      case Some(i) => Some(i + 1)
  }

  /**
   * `v[key]` as JavaScript evaluates it: reading a property of `null` or
   * `undefined` throws a TypeError (`None` here); a missing property, or
   * any property of another primitive or opaque object, reads `undefined`.
   */
  function Prop(v: Value, key: string): (r: Option<Value>)
    ensures r.None? <==> v == Prim(Null) || v == Undef
    ensures v.Obj? && r.Some? && r.value != Undef ==>
              exists j :: 0 <= j < |v.fields| && v.fields[j] == (key, r.value)
    ensures v.Obj? && (forall j :: 0 <= j < |v.fields| ==> v.fields[j].0 != key) ==> r == Some(Undef)
    ensures v.Obj? ==> forall j :: (0 <= j < |v.fields| && v.fields[j].0 == key &&
                                  (forall i :: 0 <= i < j ==> v.fields[i].0 != key)) ==> r == Some(v.fields[j].1)
    ensures !v.Obj? && r.Some? ==> r.value == Undef
  {
    match v
    case Prim(Null) => None
    case Prim(Undefined) => None
    case Obj(fs) =>
      (match FieldIndex(fs, key)
       case None => Some(Undef)
       case Some(i) => Some(fs[i].1))
    case _ => Some(Undef)
  }

  /**
   * `Object.keys(v)`: throws on `null` and `undefined`; the keys of a plain
   * object in order; no key of any other value starts with `'$'`, so those
   * are reported as having no keys at all.
   */
  function OwnKeys(v: Value): (r: Option<seq<string>>)
    ensures r.None? <==> v == Prim(Null) || v == Undef
    ensures r.Some? && r.value != [] ==> v.Obj? && |r.value| == |v.fields|
    ensures v.Obj? ==> r.Some? && |r.value| == |v.fields| && forall j :: 0 <= j < |v.fields| ==> r.value[j] == v.fields[j].0
  {
    match v
    case Prim(Null) => None
    case Prim(Undefined) => None
    case Obj(fs) => Some(seq(|fs|, j requires 0 <= j < |fs| => fs[j].0))
    case _ => Some([])
  }

  /**
   * `a === b`. Primitives compare by value and opaque objects by reference.
   * Object identity of plain objects is not modelled, so a plain object never
   * matches here (see README "## Left out").
   */
  predicate StrictEquals(a: Value, b: Value)
  {
    (a.Prim? && b.Prim? && a.p == b.p) || (a.Opaque? && b.Opaque? && a.ref == b.ref)
  }

  /** Follow the keys `ks` down through plain objects; `undefined` when a key is missing. */
  function GetAt(v: Value, ks: seq<string>): (r: Value)
    decreases v
  {
    if ks == [] then v
    else match v
      case Obj(fs) =>
        (match FieldIndex(fs, ks[0])
         case None => Undef
         case Some(i) =>
           assert fs[i] in fs;
           GetAt(fs[i].1, ks[1..]))
      case _ => Undef
  }

  /** The nested lookup `get(v, path)` with a dot-separated path. */
  function Get(v: Value, path: string): (r: Value)
  {
    GetAt(v, Split(path, '.'))
  }

  /** A dot-free key reads the first field of that name, or `undefined`. */
  lemma GetTopLevel(fields: seq<(string, Value)>, key: string)
    requires '.' !in key
    ensures Get(Obj(fields), key) ==
              match FieldIndex(fields, key) case None => Undef case Some(i) => fields[i].1
  {
    SplitWithoutSeparator(key, '.');
    match FieldIndex(fields, key)
    case None =>
    case Some(i) =>
      assert [key][1..] == [];
      assert GetAt(Obj(fields), [key]) == GetAt(fields[i].1, []);
  }

  /** A dotted path reads one level per segment. */
  lemma GetNested(v: Value, key: string, path: string)
    requires '.' !in key
    ensures Get(v, key + "." + path) == GetAt(GetAt(v, [key]), Split(path, '.'))
  {
    SplitConcat(key, path);
  }

  lemma {:induction false} SplitConcat(key: string, path: string)
    requires '.' !in key
    ensures Split(key + "." + path, '.') == [key] + Split(path, '.')
  {
    if key == [] {
      assert key + "." + path == ['.'] + path;
      assert (['.'] + path)[1..] == path;
    } else {
      assert (key + "." + path)[1..] == key[1..] + "." + path;
      assert '.' !in key[1..] by {
        forall i | 0 <= i < |key[1..]| ensures key[1..][i] != '.' { assert key[1..][i] == key[i + 1]; }
      }
      SplitConcat(key[1..], path);
      assert [key[0]] + key[1..] == key;
    }
  }
}
