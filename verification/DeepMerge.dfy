/** Deep merge of structured values: a patch laid over what is there. */
module DeepMerge {
  import opened Options

  /** Names of fields, which are only ever compared. */
  type Name = nat

  /** Marker is the one-character string U+2421, which asks for a deletion; NilMap is a nil map inside an interface. */
  datatype Value =
    | Null
    | Marker
    | Text(text: string)
    | Scalar(n: int)
    | OtherMap(id: int)
    | NilMap
    | Obj(fields: map<Name, Value>)

  type Fields = map<Name, Value>

  function Lookup(fields: Fields, k: Name): Option<Value> {
    if k in fields then Some(fields[k]) else None
  }

  /** What is there, if it is a map, and otherwise a nil map. */
  function AsMap(d: Option<Value>): (r: Value)
    ensures r.NilMap? || r.Obj?
  {
    if d.Some? && d.value.Obj? then d.value else NilMap
  }

  function FieldsOf(v: Value): Fields {
    if v.Obj? then v.fields else map[]
  }

  /** Some fields set or taken away. */
  function Overlay(base: Fields, updates: map<Name, Option<Value>>): Fields {
    map k | k in base.Keys + updates.Keys && (k in updates ==> updates[k].Some?) ::
      if k in updates then updates[k].value else base[k]
  }

  // ----- the merge

  /** What becomes of a field that held d when the patch has p for it. */
  function Merged(d: Option<Value>, p: Value): Option<Value>
    decreases p, 1
  {
    match p
    case Null => d
    case Marker => None
    case Obj(fields) =>
      if fields == map[] then Some(AsMap(d))
      else
        var base := FieldsOf(AsMap(d));
        Some(Obj(Overlay(base, Updates(base, p, {}))))
    case _ => Some(p)
  }

  /** What becomes of the fields the patch names, except those still to do. */
  function Updates(base: Fields, p: Value, todo: set<Name>): map<Name, Option<Value>>
    requires p.Obj?
    decreases p, 0
  {
    map k | k in p.fields && k !in todo :: Merged(Lookup(base, k), p.fields[k])
  }

  /** Whether a merge reports a change. */
  predicate Reported(p: Value)
    decreases p
  {
    match p
    case Null => false
    case Obj(fields) => exists k | k in fields :: Reported(fields[k])
    case _ => true
  }

  function ValueOf(v: Option<Value>): Value {
    if v.Some? then v.value else Null
  }

  /** A patch merged into a value. A nil map is an empty patch here, while in a field it is a value like others. */
  function Merge(d: Value, p: Value): Value {
    if p.NilMap? then AsMap(Some(d)) else ValueOf(Merged(Some(d), p))
  }

  predicate MergeReported(d: Value, p: Value) {
    if p.NilMap? then false else if p.Marker? then d != Null else Reported(p)
  }

  // ----- merge patches, section 2 of RFC 7396, with the marker for null

  function MergePatch(target: Value, patch: Value): Value
    decreases patch, 1
  {
    match patch
    case Obj(fields) => Obj(Overlay(FieldsOf(target), Patches(FieldsOf(target), patch)))
    case Marker => Null
    case _ => patch
  }

  function Patches(base: Fields, patch: Value): map<Name, Option<Value>>
    requires patch.Obj?
    decreases patch, 0
  {
    map k | k in patch.fields ::
      if patch.fields[k].Null? || patch.fields[k].Marker? then None
      else Some(MergePatch(if k in base then base[k] else Null, patch.fields[k]))
  }

  // ----- one field at a time, in any order

  function Set(base: Fields, k: Name, v: Option<Value>): Fields {
    if v.Some? then base[k := v.value] else base - {k}
  }

  lemma OverlayNext(base: Fields, updates: map<Name, Option<Value>>, k: Name, v: Option<Value>)
    requires k !in updates
    ensures Lookup(Overlay(base, updates), k) == Lookup(base, k)
    ensures Overlay(base, updates[k := v]) == Set(Overlay(base, updates), k, v)
  {
    var left, right := Overlay(base, updates[k := v]), Set(Overlay(base, updates), k, v);
    assert forall j :: j in left <==> j in right;
    assert forall j | j in left :: left[j] == right[j];
  }

  lemma NextField(base: Fields, p: Value, todo: set<Name>, k: Name)
    requires p.Obj? && k in todo && k in p.fields
    ensures Lookup(Overlay(base, Updates(base, p, todo)), k) == Lookup(base, k)
    ensures Overlay(base, Updates(base, p, todo - {k})) ==
            Set(Overlay(base, Updates(base, p, todo)), k, Merged(Lookup(base, k), p.fields[k]))
  {
    var v := Merged(Lookup(base, k), p.fields[k]);
    assert Updates(base, p, todo - {k}) == Updates(base, p, todo)[k := v];
    OverlayNext(base, Updates(base, p, todo), k, v);
  }

  predicate ReportedBut(fields: Fields, todo: set<Name>) {
    exists k | k in fields && k !in todo :: Reported(fields[k])
  }

  lemma NothingDone(base: Fields, p: Value)
    requires p.Obj?
    ensures Overlay(base, Updates(base, p, p.fields.Keys)) == base && !ReportedBut(p.fields, p.fields.Keys)
  {
    assert Updates(base, p, p.fields.Keys) == map[];
  }

  /** Merge the fields of src into dst, visiting them in whatever order they come. */
  method MergeMaps(dst: Value, src: Value) returns (merged: Value, changed: bool)
    requires (dst.NilMap? || dst.Obj?) && (src.NilMap? || src.Obj?)
    ensures merged == Merge(dst, src) && (src.Obj? ==> Merged(Some(dst), src) == Some(merged))
    ensures changed == (src.Obj? && Reported(src)) && (src.Obj? ==> (changed <==> exists path :: HasLeaf(src, path)))
    decreases src
  {
    ReportedExactly(src);
    if src.NilMap? || |src.fields| == 0 {
      return dst, false;
    }
    ghost var base := FieldsOf(dst);
    var fields := if dst.NilMap? then map[] else dst.fields;
    changed := false;
    var todo := src.fields.Keys;
    NothingDone(base, src);
    while todo != {}
      invariant todo <= src.fields.Keys
      invariant fields == Overlay(base, Updates(base, src, todo))
      invariant changed == ReportedBut(src.fields, todo)
      decreases todo
    {
      var key := Any(todo);
      var val := src.fields[key];
      NextField(base, src, todo, key);
      todo := todo - {key};
      var lchange: bool;
      fields, lchange := MergeField(fields, key, val, src);
      changed := changed || lchange;
    }
    merged := Obj(fields);
  }

  method MergeField(before: Fields, key: Name, val: Value, ghost src: Value) returns (fields: Fields, changed: bool)
    requires src.Obj? && key in src.fields && src.fields[key] == val
    ensures fields == Set(before, key, Merged(Lookup(before, key), val))
    ensures changed == Reported(val)
    decreases src, 0
  {
    fields, changed := before, true;
    match val {
      case Obj(_) =>
        var xdst := if key in before && before[key].Obj? then before[key] else NilMap;
        var merged;
        merged, changed := MergeMaps(xdst, val);
        fields := before[key := merged];
      case Marker => fields := before - {key};
      case Null => changed := false;
      case _ => fields := before[key := val];
    }
  }

  method Any(names: set<Name>) returns (k: Name)
    requires names != {}
    ensures k in names
  {
    k :| k in names;
  }

  /** Merge a patch of any kind into a value of any kind. */
  method MergeInterfaces(dst: Value, src: Value) returns (merged: Value, changed: bool)
    ensures merged == Merge(dst, src) && changed == MergeReported(dst, src)
    ensures src.Marker? ==> merged == Null && changed == (dst != Null)
    ensures !src.Marker? && !src.NilMap? ==> (changed <==> exists path :: HasLeaf(src, path))
  {
    ReportedExactly(src);
    merged, changed := dst, true;
    match src {
      case Null => changed := false;
      case Obj(_) => merged, changed := MergeMaps(if dst.Obj? then dst else NilMap, src);
      case NilMap => merged, changed := MergeMaps(if dst.Obj? then dst else NilMap, src);
      case Marker => merged, changed := Null, dst != Null;
      case _ => merged := src;
    }
  }

  // ----- merging twice

  lemma OverlayTwice(base: Fields, updates: map<Name, Option<Value>>)
    ensures Overlay(Overlay(base, updates), updates) == Overlay(base, updates)
    ensures forall k | k in updates :: Lookup(Overlay(base, updates), k) == updates[k]
  {
  }

  lemma SameOverlay(base: Fields, a: map<Name, Option<Value>>, b: map<Name, Option<Value>>)
    requires a.Keys == b.Keys && forall k | k in a :: a[k] == b[k]
    ensures Overlay(base, a) == Overlay(base, b)
  {
  }

  lemma {:induction false} MergeTwice(d: Option<Value>, p: Value)
    ensures Merged(Merged(d, p), p) == Merged(d, p)
    decreases p
  {
    if p.Obj? && p.fields != map[] {
      var base := FieldsOf(AsMap(d));
      var updates := Updates(base, p, {});
      var once := Overlay(base, updates);
      OverlayTwice(base, updates);
      var again := Updates(once, p, {});
      forall k | k in p.fields ensures again[k] == updates[k] {
        MergeTwice(Lookup(base, k), p.fields[k]);
      }
      SameOverlay(once, again, updates);
    }
  }

  /** Merging the same patch a second time does nothing. */
  lemma MergeAgain(d: Value, p: Value)
    ensures Merge(Merge(d, p), p) == Merge(d, p)
  {
    MergeTwice(Some(d), p);
  }

  // ----- agreement with merge patches

  /** No null and no empty object anywhere in the patch. */
  predicate Plain(p: Value)
    decreases p
  {
    match p
    case Null => false
    case Obj(fields) => fields != map[] && forall k | k in fields :: Plain(fields[k])
    case _ => true
  }

  function PatchField(d: Option<Value>, p: Value): Option<Value> {
    if p.Null? || p.Marker? then None else Some(MergePatch(ValueOf(d), p))
  }

  lemma {:induction false} PlainFieldAgrees(d: Option<Value>, p: Value)
    requires Plain(p)
    ensures Merged(d, p) == PatchField(d, p)
    decreases p
  {
    if p.Obj? {
      var base := FieldsOf(AsMap(d));
      assert base == FieldsOf(ValueOf(d));
      forall k | k in p.fields ensures Merged(Lookup(base, k), p.fields[k]) == PatchField(Lookup(base, k), p.fields[k]) {
        PlainFieldAgrees(Lookup(base, k), p.fields[k]);
      }
      SameOverlay(base, Updates(base, p, {}), Patches(base, p));
    }
  }

  lemma {:induction false} FieldDisagreement(p: Value) returns (target: Value)
    requires !Plain(p)
    ensures ValueOf(Merged(Some(target), p)) != MergePatch(target, p)
    decreases p
  {
    if p.Null? || p.fields == map[] {
      target := Scalar(0);
    } else {
      var k :| k in p.fields && !Plain(p.fields[k]);
      var inner := FieldDisagreement(p.fields[k]);
      target := Obj(map[k := inner]);
      assert Lookup(Merged(Some(target), p).value.fields, k) == Merged(Some(inner), p.fields[k]);
      assert Lookup(MergePatch(target, p).fields, k) == PatchField(Some(inner), p.fields[k]);
    }
  }

  /** A value on which the two disagree. */
  lemma Disagreement(p: Value) returns (target: Value)
    requires p.NilMap? || !Plain(p)
    ensures Merge(target, p) != MergePatch(target, p)
  {
    if p.NilMap? {
      target := Obj(map[]);
    } else {
      target := FieldDisagreement(p);
    }
  }

  /** The merge is a merge patch for every target, if and only if the patch is plain and not a nil map. */
  lemma AgreesExactly(p: Value)
    ensures (forall target :: Merge(target, p) == MergePatch(target, p)) <==> Plain(p) && !p.NilMap?
  {
    if Plain(p) && !p.NilMap? {
      forall target ensures Merge(target, p) == MergePatch(target, p) {
        PlainFieldAgrees(Some(target), p);
      }
    } else {
      var target := Disagreement(p);
    }
  }

  // ----- path by path

  /** What stands in a value at the end of a path of field names. */
  function At(p: Value, path: seq<Name>): Option<Value>
    decreases |path|
  {
    if path == [] then Some(p)
    else if p.Obj? && path[0] in p.fields then At(p.fields[path[0]], path[1..])
    else None
  }

  function AtField(d: Option<Value>, path: seq<Name>): Option<Value> {
    if d.Some? then At(d.value, path) else None
  }

  /** What a patch asks for at a path: to keep what is there, a value, nothing, or a map. */
  datatype Wish = Keep | Put(value: Value) | Drop | MakeMap

  /** A null, and a field that is not named, keep what is there; below a value there is nothing. */
  function WishAt(p: Value, path: seq<Name>): Wish
    decreases |path|
  {
    if p.Null? then Keep
    else if !p.Obj? then (if path == [] && !p.Marker? then Put(p) else Drop)
    else if path == [] then MakeMap
    else if path[0] in p.fields then WishAt(p.fields[path[0]], path[1..])
    else Keep
  }

  ghost predicate Granted(wish: Wish, before: Option<Value>, after: Option<Value>) {
    match wish
    case Keep => after == before
    case Put(v) => after == Some(v)
    case Drop => after == None
    case MakeMap => after.Some? && (after.value.Obj? || after.value.NilMap?)
  }

  /** For every patch, every target and every path, the merge leaves at the path what the patch asks for there. */
  lemma {:induction false} MergedAtPath(d: Option<Value>, p: Value, path: seq<Name>)
    ensures Granted(WishAt(p, path), AtField(d, path), AtField(Merged(d, p), path))
    decreases |path|
  {
    if p.Obj? && path != [] && p.fields != map[] {
      var base := FieldsOf(AsMap(d));
      var after := Overlay(base, Updates(base, p, {}));
      var k, rest := path[0], path[1..];
      assert AtField(d, path) == AtField(Lookup(base, k), rest);
      assert AtField(Merged(d, p), path) == AtField(Lookup(after, k), rest);
      if k in p.fields {
        OverlayTwice(base, Updates(base, p, {}));
        MergedAtPath(Lookup(base, k), p.fields[k], rest);
      }
    }
  }

  // ----- what the flag says

  /** Something other than an object or a null stands at the end of the path. */
  predicate HasLeaf(p: Value, path: seq<Name>) {
    At(p, path).Some? && !At(p, path).value.Null? && !At(p, path).value.Obj?
  }

  lemma {:induction false} LeafIsReported(p: Value, path: seq<Name>)
    requires HasLeaf(p, path)
    ensures Reported(p)
    decreases |path|
  {
    if path != [] { LeafIsReported(p.fields[path[0]], path[1..]); }
  }

  lemma {:induction false} ReportedHasLeaf(p: Value) returns (path: seq<Name>)
    requires Reported(p)
    ensures HasLeaf(p, path)
    decreases p
  {
    path := [];
    if p.Obj? {
      var k :| k in p.fields && Reported(p.fields[k]);
      var rest := ReportedHasLeaf(p.fields[k]);
      path := [k] + rest;
      assert path[1..] == rest;
    }
  }

  /** The flag of a merge of fields says whether the patch holds a value, or a marker, at the end of any path. */
  lemma ReportedExactly(p: Value)
    ensures Reported(p) <==> exists path :: HasLeaf(p, path)
  {
    if Reported(p) {
      var path := ReportedHasLeaf(p);
    }
    if path :| HasLeaf(p, path) {
      LeafIsReported(p, path);
    }
  }

  // ----- what the flag misses

  /** An object of the patch meets something that is not a map of its own kind. */
  predicate Grafts(d: Option<Value>, p: Value)
    decreases p
  {
    match p
    case Obj(fields) =>
      if fields == map[] then !(d.Some? && (d.value.Obj? || d.value.NilMap?))
      else !(d.Some? && d.value.Obj?) || exists k | k in fields :: Grafts(Lookup(d.value.fields, k), fields[k])
    case _ => false
  }

  lemma OverlaySame(base: Fields, updates: map<Name, Option<Value>>)
    ensures Overlay(base, updates) == base <==> forall k | k in updates :: updates[k] == Lookup(base, k)
  {
    OverlayTwice(base, updates);
    if forall k | k in updates :: updates[k] == Lookup(base, k) {
      var after := Overlay(base, updates);
      assert forall k :: k in after <==> k in base;
    }
  }

  /**
   A merge that reports no change, because the patch is made of objects and nulls, still changes what is
   there exactly if one of the objects is grafted.
   */
  lemma {:induction false} ChangeIsMissedExactly(d: Option<Value>, p: Value)
    requires !Reported(p)
    ensures Merged(d, p) != d <==> Grafts(d, p)
    decreases p
  {
    if p.Obj? && p.fields != map[] && d.Some? && d.value.Obj? {
      var base := d.value.fields;
      var updates := Updates(base, p, {});
      forall k | k in p.fields ensures updates[k] != Lookup(base, k) <==> Grafts(Lookup(base, k), p.fields[k]) {
        ChangeIsMissedExactly(Lookup(base, k), p.fields[k]);
      }
      OverlaySame(base, updates);
    }
  }

  /** The same for whole values, where a nil map is grafted like an empty object. */
  lemma MissedAtTopExactly(d: Value, p: Value)
    requires !MergeReported(d, p)
    ensures Merge(d, p) != d <==> Grafts(Some(d), if p.NilMap? then Obj(map[]) else p)
  {
    if !p.NilMap? && !p.Marker? {
      ChangeIsMissedExactly(Some(d), p);
    }
  }
}
