/** The object revision store of the trace controller: objects by kind, name and revision,
    with the set of traces that reference each revision.

    Sources: controllers/trace/object_revision_store.go. */
module RevisionStore {
  import opened Common

  type Kind = string
  type Name = string
  type Uid = string
  type Object = string

  /** A revision of an object. */
  datatype Ref = Ref(kind: Kind, name: Name, revision: int)

  type Revisions = map<int, Object>
  type Objects = map<Kind, map<Name, Revisions>>

  datatype Store = Store(objects: Objects, refs: map<Ref, set<Uid>>)

  function Lookup(objects: Objects, r: Ref): Option<Object> {
    if r.kind in objects && r.name in objects[r.kind] && r.revision in objects[r.kind][r.name]
    then Some(objects[r.kind][r.name][r.revision]) else None
  }

  function RefsOf(s: Store, r: Ref): set<Uid> {
    if r in s.refs then s.refs[r] else {}
  }

  // ------------------------------------------------------------ operations on values

  function Inserted(s: Store, r: Ref, body: Object, uid: Uid): Store {
    var names := if r.kind in s.objects then s.objects[r.kind] else map[];
    var revisions := if r.name in names then names[r.name] else map[];
    Store(s.objects[r.kind := names[r.name := revisions[r.revision := body]]],
          s.refs[r := RefsOf(s, r) + {uid}])
  }

  /** The guard that decides whether the whole key is dropped. As written it tests the
      reference set of the released revision, which is empty at that point; it is meant to
      test the revisions that are left. */
  datatype Guard = AsWritten | AsMeant

  function Deleted(s: Store, r: Ref, uid: Uid, guard: Guard): Store {
    var left := RefsOf(s, r) - {uid};
    var refs := if r in s.refs then s.refs[r := left] else s.refs;
    if left != {} || r.kind !in s.objects || r.name !in s.objects[r.kind] then Store(s.objects, refs)
    else
      var revisions := s.objects[r.kind][r.name] - {r.revision};
      var names :=
        if guard.AsWritten? || revisions == map[] then s.objects[r.kind] - {r.name}
        else s.objects[r.kind][r.name := revisions];
      Store(if names == map[] then s.objects - {r.kind} else s.objects[r.kind := names], refs)
  }

  // ------------------------------------------------------------------- the store

  class ObjectRevisionStore {
    var objects: Objects
    var refs: map<Ref, set<Uid>>

    ghost function Value(): Store
      reads this
    {
      Store(objects, refs)
    }

    constructor ()
      ensures Value() == Store(map[], map[])
    {
      objects := map[];
      refs := map[];
    }

    method Insert(r: Ref, body: Object, uid: Uid)
      modifies this
      ensures Value() == Inserted(old(Value()), r, body, uid)
    {
      var objectMap: map<Name, Revisions> := map[];
      if r.kind in objects {
        objectMap := objects[r.kind];
      }
      var revisionMap: Revisions := map[];
      if r.name in objectMap {
        revisionMap := objectMap[r.name];
      }
      revisionMap := revisionMap[r.revision := body];
      objects := objects[r.kind := objectMap[r.name := revisionMap]];
      var referenceMap := {};
      if r in refs {
        referenceMap := refs[r];
      }
      refs := refs[r := referenceMap + {uid}];
    }

    method Get(r: Ref) returns (body: Option<Object>)
      ensures body == Lookup(objects, r)
    {
      if r.kind !in objects {
        return None;
      }
      if r.name !in objects[r.kind] {
        return None;
      }
      if r.revision !in objects[r.kind][r.name] {
        return None;
      }
      return Some(objects[r.kind][r.name][r.revision]);
    }

    method Delete(r: Ref, uid: Uid)
      modifies this
      ensures Value() == Deleted(old(Value()), r, uid, AsWritten)
    {
      var referenceMap := {};
      if r in refs {
        referenceMap := refs[r] - {uid};
        refs := refs[r := referenceMap];
      }
      if referenceMap != {} || r.kind !in objects || r.name !in objects[r.kind] {
        return;
      }
      var objectMap := objects[r.kind];
      objectMap := objectMap[r.name := objectMap[r.name] - {r.revision}];
      if referenceMap == {} {
        objectMap := objectMap - {r.name};
      }
      assert objectMap == objects[r.kind] - {r.name};
      if objectMap == map[] {
        objects := objects - {r.kind};
      } else {
        objects := objects[r.kind := objectMap];
      }
    }
  }

  // ---------------------------------------------------------------- reference safety

  /** Every revision that some trace references can be retrieved. */
  ghost predicate Safe(s: Store) {
    forall r :: RefsOf(s, r) != {} ==> Lookup(s.objects, r).Some?
  }

  /** The stored revisions are exactly the referenced ones. */
  ghost predicate Exact(s: Store) {
    forall r :: RefsOf(s, r) != {} <==> Lookup(s.objects, r).Some?
  }

  datatype Op = Insert(ref: Ref, body: Object, uid: Uid) | Release(ref: Ref, uid: Uid)

  function Apply(s: Store, op: Op, guard: Guard): Store {
    match op
    case Insert(r, body, uid) => Inserted(s, r, body, uid)
    case Release(r, uid) => Deleted(s, r, uid, guard)
  }

  function Run(ops: seq<Op>, guard: Guard): Store {
    if ops == [] then Store(map[], map[])
    else Apply(Run(ops[..|ops| - 1], guard), ops[|ops| - 1], guard)
  }

  lemma InsertLookup(s: Store, r: Ref, body: Object, uid: Uid, q: Ref)
    ensures Lookup(Inserted(s, r, body, uid).objects, q) == if q == r then Some(body) else Lookup(s.objects, q)
    ensures RefsOf(Inserted(s, r, body, uid), q) == if q == r then RefsOf(s, r) + {uid} else RefsOf(s, q)
  {
  }

  /** With the guard as meant, a release drops exactly the revision whose last reference it was. */
  lemma DeleteLookup(s: Store, r: Ref, uid: Uid, q: Ref)
    ensures Lookup(Deleted(s, r, uid, AsMeant).objects, q) ==
            if q == r && RefsOf(s, r) - {uid} == {} then None else Lookup(s.objects, q)
  {
    if r.kind in s.objects && r.name in s.objects[r.kind] && q != r && Lookup(s.objects, q).Some? && q.kind == r.kind {
      var revisions := s.objects[r.kind][r.name] - {r.revision};
      assert q.name == r.name ==> q.revision in revisions;
      assert q.name in s.objects[r.kind][r.name := revisions];
      assert q.name != r.name ==> q.name in s.objects[r.kind] - {r.name};
    }
  }

  /** As written, the last release of one revision drops every revision of the key. */
  lemma DeleteLookupAsWritten(s: Store, r: Ref, uid: Uid, q: Ref)
    ensures Lookup(Deleted(s, r, uid, AsWritten).objects, q) ==
            if q.kind == r.kind && q.name == r.name && RefsOf(s, r) - {uid} == {} then None else Lookup(s.objects, q)
  {
    if r.kind in s.objects && q.kind == r.kind && q.name != r.name && Lookup(s.objects, q).Some? {
      assert q.name in s.objects[r.kind] - {r.name};
    }
  }

  lemma DeleteRefs(s: Store, r: Ref, uid: Uid, guard: Guard, q: Ref)
    ensures RefsOf(Deleted(s, r, uid, guard), q) == if q == r then RefsOf(s, r) - {uid} else RefsOf(s, q)
  {
  }

  /** Under either guard, a release changes no stored object while another trace still
      references the revision. */
  lemma SharedReleaseKeepsObjects(s: Store, r: Ref, uid: Uid, other: Uid, guard: Guard)
    requires other in RefsOf(s, r) && other != uid
    ensures Deleted(s, r, uid, guard).objects == s.objects
  {
    assert other in RefsOf(s, r) - {uid};
  }

  lemma ApplyKeepsExact(s: Store, op: Op)
    requires Exact(s)
    ensures Exact(Apply(s, op, AsMeant))
  {
    forall q: Ref
      ensures RefsOf(Apply(s, op, AsMeant), q) != {} <==> Lookup(Apply(s, op, AsMeant).objects, q).Some?
    {
      match op
      case Insert(r, body, uid) => InsertLookup(s, r, body, uid, q);
      case Release(r, uid) =>
        DeleteLookup(s, r, uid, q);
        DeleteRefs(s, r, uid, AsMeant, q);
    }
  }

  /** With the guard as meant: after every run, exactly the referenced revisions are stored. */
  lemma {:induction false} ReferenceSafetyAsMeant(ops: seq<Op>)
    ensures Exact(Run(ops, AsMeant))
  {
    if ops != [] {
      ReferenceSafetyAsMeant(ops[..|ops| - 1]);
      ApplyKeepsExact(Run(ops[..|ops| - 1], AsMeant), ops[|ops| - 1]);
    }
  }

  /** As written, a release keeps the store safe exactly when the revision stays referenced or
      no other revision of the same object is referenced. */
  lemma WrittenReleaseIsSafeIff(s: Store, r: Ref, uid: Uid)
    requires Safe(s)
    ensures Safe(Deleted(s, r, uid, AsWritten)) <==>
      || RefsOf(s, r) - {uid} != {}
      || forall q: Ref :: q.kind == r.kind && q.name == r.name && q != r ==> RefsOf(s, q) == {}
  {
    forall q: Ref
      ensures RefsOf(Deleted(s, r, uid, AsWritten), q) == if q == r then RefsOf(s, r) - {uid} else RefsOf(s, q)
      ensures Lookup(Deleted(s, r, uid, AsWritten).objects, q) ==
        if q.kind == r.kind && q.name == r.name && RefsOf(s, r) - {uid} == {} then None else Lookup(s.objects, q)
    {
      DeleteRefs(s, r, uid, AsWritten, q);
      DeleteLookupAsWritten(s, r, uid, q);
    }
  }

  /** As written, one trace that stores two revisions of an object and releases the first can
      no longer retrieve the second. */
  lemma WrittenGuardLosesRevisions(kind: Kind, name: Name, body: Object, uid: Uid, first: int, second: int)
    requires first != second
    ensures var ops := [Insert(Ref(kind, name, first), body, uid), Insert(Ref(kind, name, second), body, uid),
                        Release(Ref(kind, name, first), uid)];
      && uid in RefsOf(Run(ops, AsWritten), Ref(kind, name, second))
      && Lookup(Run(ops, AsWritten).objects, Ref(kind, name, second)).None?
  {
    var a, b := Ref(kind, name, first), Ref(kind, name, second);
    var ops := [Insert(a, body, uid), Insert(b, body, uid), Release(a, uid)];
    assert ops[..2] == [Insert(a, body, uid), Insert(b, body, uid)];
    assert ops[..2][..1] == [Insert(a, body, uid)];
    var s1 := Inserted(Store(map[], map[]), a, body, uid);
    assert Run(ops[..2][..1], AsWritten) == s1;
    var s2 := Inserted(s1, b, body, uid);
    assert Run(ops[..2], AsWritten) == s2;
    InsertLookup(s1, b, body, uid, a);
    InsertLookup(s1, b, body, uid, b);
    DeleteRefs(s2, a, uid, AsWritten, b);
    DeleteLookupAsWritten(s2, a, uid, b);
  }
}
