/**
 * JSON merge patches as the API server applies them (section 2 of RFC 7396) and as the
 * client computes them from a base and a modified object. Member names are values of `K`,
 * values that are neither null nor objects are values of `V`.
 */
module MergePatch {

  import opened Wrappers

  /** A leaf is a string, a number, a boolean or an array: merge patches compare and replace
      all of them as a whole. */
  datatype Json<K, V> = Null | Leaf(value: V) | Obj(fields: map<K, Json<K, V>>)

  function At<K, V>(j: Json<K, V>, k: K): Option<Json<K, V>> {
    if j.Obj? && k in j.fields then Some(j.fields[k]) else None
  }

  /** No member of the document, at any depth of objects, is null. Stored documents are like that. */
  predicate NullFree<K(==), V(==)>(j: Json<K, V>) {
    match j
    case Null => false
    case Obj(fields) => forall k :: k in fields ==> NullFree(fields[k])
    case _ => true
  }

  /** MergePatch(Target, Patch) of RFC 7396. */
  function Patch<K(==), V(==)>(target: Json<K, V>, patch: Json<K, V>): Json<K, V>
    decreases patch
  {
    if !patch.Obj? then patch
    else
      var members := if target.Obj? then target.fields else map[];
      Obj(map k | k in members.Keys + patch.fields.Keys && !(k in patch.fields && patch.fields[k].Null?) ::
            if k in patch.fields then Patch(if k in members then members[k] else Null, patch.fields[k]) else members[k])
  }

  lemma PatchAt<K, V>(target: Json<K, V>, patch: Json<K, V>, k: K)
    requires patch.Obj?
    ensures At(Patch(target, patch), k)
         == match At(patch, k)
            case None => At(target, k)
            case Some(p) =>
              if p.Null? then None
              else Some(Patch(if At(target, k).Some? then At(target, k).value else Null, p))
  {
  }

  /** What the patch says about a member that is `m` in the modified object. */
  function Change<K(==), V(==)>(base: Option<Json<K, V>>, m: Json<K, V>): (c: Option<Json<K, V>>)
    decreases m, 1
  {
    if base.None? then Some(m)
    else if base.value.Obj? && m.Obj? then
      var d := Diff(base.value, m);
      if d.fields == map[] then None else Some(d)
    else if base.value == m then None
    else Some(m)
  }

  /** The patch the client sends: changed members only, removed ones as null, arrays whole. */
  function Diff<K(==), V(==)>(base: Json<K, V>, modified: Json<K, V>): (d: Json<K, V>)
    requires base.Obj? && modified.Obj?
    ensures d.Obj?
    decreases modified, 0
  {
    Obj(map k | k in base.fields.Keys + modified.fields.Keys
                && (k in modified.fields ==> Change(At(base, k), modified.fields[k]).Some?) ::
          if k in modified.fields then Change(At(base, k), modified.fields[k]).value else Null)
  }

  /** A null-free value replaces anything that is not an object by itself. */
  lemma {:induction false} PatchOntoNothing<K(!new), V>(target: Json<K, V>, v: Json<K, V>)
    requires !target.Obj? && NullFree(v)
    ensures Patch(target, v) == v
    decreases v
  {
    if v.Obj? {
      var r := Patch(target, v);
      forall k | k in v.fields ensures k in r.fields && r.fields[k] == v.fields[k] {
        PatchOntoNothing(Null, v.fields[k]);
      }
      assert r.fields == v.fields;
    }
  }

  lemma DiffAt<K, V>(base: Json<K, V>, modified: Json<K, V>, k: K)
    requires base.Obj? && modified.Obj?
    ensures At(Diff(base, modified), k)
         == if At(modified, k).Some? then Change(At(base, k), At(modified, k).value)
            else if At(base, k).Some? then Some(Null) else None
  {
  }

  /** An empty difference means equal objects, so leaving it out of the patch loses nothing. */
  lemma {:induction false} EmptyDiff<K(!new), V>(base: Json<K, V>, modified: Json<K, V>)
    requires base.Obj? && modified.Obj?
    ensures Diff(base, modified).fields == map[] <==> base == modified
    decreases modified
  {
    var d := Diff(base, modified);
    forall k ensures At(d, k).None? <==> At(base, k) == At(modified, k) {
      DiffAt(base, modified, k);
      var b, m := At(base, k), At(modified, k);
      if b.Some? && m.Some? && b.value.Obj? && m.value.Obj? {
        EmptyDiff(b.value, m.value);
      }
    }
    if d.fields == map[] {
      SameMembers(base, modified);
    } else {
      var k :| k in d.fields;
      assert At(d, k).Some?;
    }
  }

  lemma SameMembers<K(!new), V>(a: Json<K, V>, b: Json<K, V>)
    requires a.Obj? && b.Obj? && forall k :: At(a, k) == At(b, k)
    ensures a == b
  {
    forall k ensures k in a.fields <==> k in b.fields {
      assert At(a, k) == At(b, k);
    }
    forall k | k in a.fields ensures a.fields[k] == b.fields[k] {
      assert At(a, k) == At(b, k);
    }
    assert a.fields == b.fields;
  }

  /** Member by member, patching `current` with the difference of `base` and `modified`:
      what the client did not change stays as it is now, objects merge, the rest is replaced. */
  lemma ThreeWay<K(!new), V>(current: Json<K, V>, base: Json<K, V>, modified: Json<K, V>, k: K)
    requires current.Obj? && base.Obj? && modified.Obj? && NullFree(modified)
    ensures var r := At(Patch(current, Diff(base, modified)), k);
            var c, b, m := At(current, k), At(base, k), At(modified, k);
            r == if b == m then c
                 else if m.None? then None
                 else if m.value.Obj? && b.Some? && b.value.Obj?
                 then Some(Patch(if c.Some? then c.value else Null, Diff(b.value, m.value)))
                 else if m.value.Obj? && c.Some? && c.value.Obj? then Some(Patch(c.value, m.value))
                 else m
  {
    var b, m := At(base, k), At(modified, k);
    if b.Some? && m.Some? && b.value.Obj? && m.value.Obj? {
      EmptyDiff(b.value, m.value);
    }
    if m.Some? && m.value.Obj? && (At(current, k).None? || !At(current, k).value.Obj?) {
      PatchOntoNothing(if At(current, k).Some? then At(current, k).value else Null, m.value);
    }
  }

  /** For a member that is not an object on the client's side. */
  lemma ThreeWayLeaf<K(!new), V>(current: Json<K, V>, base: Json<K, V>, modified: Json<K, V>, k: K)
    requires current.Obj? && base.Obj? && modified.Obj? && NullFree(modified)
    requires At(modified, k).Some? ==> At(modified, k).value.Leaf?
    ensures At(Patch(current, Diff(base, modified)), k)
         == if At(base, k) == At(modified, k) then At(current, k) else At(modified, k)
  {
    ThreeWay(current, base, modified, k);
  }

  /** Without a concurrent write the patch produces exactly the modified document. */
  lemma {:induction false} RoundTrip<K(!new), V>(base: Json<K, V>, modified: Json<K, V>)
    requires base.Obj? && modified.Obj? && NullFree(modified)
    ensures Patch(base, Diff(base, modified)) == modified
    decreases modified
  {
    var r := Patch(base, Diff(base, modified));
    forall k ensures At(r, k) == At(modified, k) {
      ThreeWay(base, base, modified, k);
      var b, m := At(base, k), At(modified, k);
      if b.Some? && m.Some? && b.value.Obj? && m.value.Obj? {
        RoundTrip(b.value, m.value);
      }
    }
    SameMembers(r, modified);
  }
}
