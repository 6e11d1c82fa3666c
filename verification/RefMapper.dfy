/** refObjectMapper: which object each referent refers to, and the inverse lists from which
    reconcile requests are made.

    Sources: controllers/dataprotection/utils.go. */
module RefMapper {
  import opened Common

  datatype Key = Key(namespace: string, name: string)

  // ------------------------------------------------------------- flattened names

  function Flatten(k: Key): string {
    k.namespace + "/" + k.name
  }

  /** strings.SplitN(flatten, "/", 2): the text before and after the first slash, or the
      whole text as the name. */
  function Unflatten(s: string): Key {
    var i := FirstSlash(s);
    if i < |s| then Key(s[..i], s[i + 1..]) else Key("", s)
  }

  function FirstSlash(s: string): (i: nat)
    ensures i <= |s|
    ensures forall j :: 0 <= j < i ==> s[j] != '/'
    ensures i < |s| ==> s[i] == '/'
  {
    if s == "" || s[0] == '/' then 0 else 1 + FirstSlash(s[1..])
  }

  /** The pair round-trips exactly for namespaces without a slash. */
  lemma FlattenRoundTripIff(k: Key)
    ensures Unflatten(Flatten(k)) == k <==> '/' !in k.namespace
  {
    var s := Flatten(k);
    var i := FirstSlash(s);
    assert s[|k.namespace|] == '/';
    assert s[..|k.namespace|] == k.namespace && s[|k.namespace| + 1..] == k.name;
    if '/' in k.namespace {
      var j :| 0 <= j < |k.namespace| && k.namespace[j] == '/';
      assert s[j] == '/';
      assert i < |k.namespace|;
      assert |Unflatten(s).namespace| == i;
    } else {
      assert forall j :: 0 <= j < |k.namespace| ==> s[j] == k.namespace[j];
      assert i == |k.namespace|;
    }
  }

  // ------------------------------------------------------------ swap removal

  ghost predicate NoDup<T>(l: seq<T>) {
    forall i, j :: 0 <= i < j < |l| ==> l[i] != l[j]
  }

  /** The list after its first x has been overwritten by the last element and the list cut. */
  function SwapRemoved(l: seq<string>, x: string, from: nat): seq<string>
    requires from <= |l|
    decreases |l| - from
  {
    if from == |l| then l
    else if l[from] == x then l[from := l[|l| - 1]][..|l| - 1]
    else SwapRemoved(l, x, from + 1)
  }

  lemma {:induction false} SwapRemovedRemoves(l: seq<string>, x: string, from: nat)
    requires NoDup(l) && from <= |l| && x !in l[..from]
    ensures var r := SwapRemoved(l, x, from);
      NoDup(r) && forall y :: y in r <==> y in l && y != x
    decreases |l| - from
  {
    if from == |l| {
      assert l[..from] == l;
    } else if l[from] == x {
      var last := |l| - 1;
      var r := l[from := l[last]][..last];
      forall y
        ensures y in r <==> y in l && y != x
      {
        if y in l && y != x {
          var j :| 0 <= j < |l| && l[j] == y;
          assert r[if j == last then from else j] == y;
        }
        if y in r {
          var j :| 0 <= j < |r| && r[j] == y;
          assert y == l[if j == from then last else j];
        }
      }
    } else {
      assert l[..from + 1] == l[..from] + [l[from]];
      SwapRemovedRemoves(l, x, from + 1);
    }
  }

  // ------------------------------------------------------------ the mapper

  datatype Mapper = Mapper(ref: map<string, string>, invert: map<string, seq<string>>)

  function Entries(m: Mapper, right: string): seq<string> {
    if right in m.invert then m.invert[right] else []
  }

  function WithoutInvert(m: Mapper, left: string, right: string): Mapper {
    if left in Entries(m, right) then m.(invert := m.invert[right := SwapRemoved(Entries(m, right), left, 0)]) else m
  }

  function WithRef(m: Mapper, referent: Key, referenced: Key): Mapper {
    var left, right := Flatten(referent), Flatten(referenced);
    var n := if left in m.ref then WithoutInvert(m, left, m.ref[left]) else m;
    Mapper(n.ref[left := right], n.invert[right := Entries(n, right) + [left]])
  }

  function WithoutRef(m: Mapper, referent: Key): Mapper {
    var left := Flatten(referent);
    if left in m.ref then WithoutInvert(m, left, m.ref[left]).(ref := m.ref - {left}) else m
  }

  /** The requests for the referents of an object. */
  function Requests(m: Mapper, referenced: Key): seq<Key> {
    var l := Entries(m, Flatten(referenced));
    seq(|l|, i requires 0 <= i < |l| => Unflatten(l[i]))
  }

  class RefObjectMapper {
    var ref: map<string, string>
    var invert: map<string, seq<string>>

    ghost function Value(): Mapper
      reads this
    {
      Mapper(ref, invert)
    }

    constructor ()
      ensures Value() == Mapper(map[], map[])
    {
      ref, invert := map[], map[];
    }

    method RemoveInvertLocked(left: string, right: string)
      modifies this`invert
      ensures Value() == WithoutInvert(old(Value()), left, right)
    {
      var l := if right in invert then invert[right] else [];
      for i := 0 to |l|
        invariant left !in l[..i]
        invariant SwapRemoved(l, left, 0) == SwapRemoved(l, left, i)
        invariant invert == old(invert)
      {
        if l[i] == left {
          l := l[i := l[|l| - 1]];
          invert := invert[right := l[..|l| - 1]];
          return;
        }
        assert l[..i + 1] == l[..i] + [l[i]];
      }
      assert l[..|l|] == l;
    }

    method AddInvertLocked(left: string, right: string)
      modifies this`invert
      ensures invert == old(invert)[right := Entries(old(Value()), right) + [left]]
    {
      var l := if right in invert then invert[right] else [];
      invert := invert[right := l + [left]];
    }

    method SetRef(referent: Key, referenced: Key)
      modifies this
      ensures Value() == WithRef(old(Value()), referent, referenced)
    {
      var left, right := Flatten(referent), Flatten(referenced);
      if left in ref {
        RemoveInvertLocked(left, ref[left]);
      }
      AddInvertLocked(left, right);
      ref := ref[left := right];
    }

    method RemoveRef(referent: Key)
      modifies this
      ensures Value() == WithoutRef(old(Value()), referent)
    {
      var left := Flatten(referent);
      if left in ref {
        RemoveInvertLocked(left, ref[left]);
        ref := ref - {left};
      }
    }

    method MapToRequests(referenced: Key) returns (requests: seq<Key>)
      ensures requests == Requests(Value(), referenced)
    {
      var right := Flatten(referenced);
      var l := if right in invert then invert[right] else [];
      requests := [];
      for i := 0 to |l|
        invariant requests == Requests(Value(), referenced)[..i]
      {
        requests := requests + [Unflatten(l[i])];
      }
    }
  }

  // ---------------------------------------------------------------- every run

  /** The inverse lists are duplicate-free and hold exactly the preimage of the forward map. */
  ghost predicate Inverse(m: Mapper) {
    forall right :: NoDup(Entries(m, right)) &&
      forall left :: left in Entries(m, right) <==> left in m.ref && m.ref[left] == right
  }

  /** The same, with left in none of the lists. */
  ghost predicate InverseBut(m: Mapper, left: string) {
    forall right :: NoDup(Entries(m, right)) &&
      forall x :: x in Entries(m, right) <==> x != left && x in m.ref && m.ref[x] == right
  }

  lemma DetachLeavesInverse(m: Mapper, left: string)
    requires Inverse(m) && left in m.ref
    ensures InverseBut(WithoutInvert(m, left, m.ref[left]), left)
    ensures WithoutInvert(m, left, m.ref[left]).ref == m.ref
  {
    var before := m.ref[left];
    var n := WithoutInvert(m, left, before);
    SwapRemovedRemoves(Entries(m, before), left, 0);
    forall right
      ensures NoDup(Entries(n, right)) &&
        forall x :: x in Entries(n, right) <==> x != left && x in m.ref && m.ref[x] == right
    {
      assert left in Entries(m, before);
      assert right != before ==> Entries(n, right) == Entries(m, right);
    }
  }

  lemma SetRefKeepsInverse(m: Mapper, referent: Key, referenced: Key)
    requires Inverse(m)
    ensures Inverse(WithRef(m, referent, referenced))
  {
    var left, target := Flatten(referent), Flatten(referenced);
    if left in m.ref {
      DetachLeavesInverse(m, left);
    }
    var n := if left in m.ref then WithoutInvert(m, left, m.ref[left]) else m;
    assert InverseBut(n, left);
    var r := WithRef(m, referent, referenced);
    forall right
      ensures NoDup(Entries(r, right)) &&
        forall x :: x in Entries(r, right) <==> x in r.ref && r.ref[x] == right
    {
      assert Entries(r, right) == if right == target then Entries(n, right) + [left] else Entries(n, right);
    }
  }

  lemma RemoveRefKeepsInverse(m: Mapper, referent: Key)
    requires Inverse(m)
    ensures Inverse(WithoutRef(m, referent))
  {
    var left := Flatten(referent);
    if left in m.ref {
      DetachLeavesInverse(m, left);
      var n := WithoutInvert(m, left, m.ref[left]);
      var r := WithoutRef(m, referent);
      assert forall right :: Entries(r, right) == Entries(n, right);
    }
  }

  datatype Op = Set(referent: Key, referenced: Key) | Unset(referent: Key)

  function Run(ops: seq<Op>): Mapper {
    if ops == [] then Mapper(map[], map[])
    else match ops[|ops| - 1]
      case Set(a, b) => WithRef(Run(ops[..|ops| - 1]), a, b)
      case Unset(a) => WithoutRef(Run(ops[..|ops| - 1]), a)
  }

  /** What an object refers to after the operations: the last operation on it decides. */
  function Referenced(ops: seq<Op>, referent: Key): Option<Key> {
    if ops == [] then None
    else if ops[|ops| - 1].referent != referent then Referenced(ops[..|ops| - 1], referent)
    else if ops[|ops| - 1].Set? then Some(ops[|ops| - 1].referenced)
    else None
  }

  predicate Slashless(k: Key) {
    '/' !in k.namespace
  }

  ghost predicate AllSlashless(ops: seq<Op>) {
    forall i :: 0 <= i < |ops| ==> Slashless(ops[i].referent) && (ops[i].Set? ==> Slashless(ops[i].referenced))
  }

  lemma FlattenInjective(a: Key, b: Key)
    requires Slashless(a) && Slashless(b) && Flatten(a) == Flatten(b)
    ensures a == b
  {
    FlattenRoundTripIff(a);
    FlattenRoundTripIff(b);
  }

  lemma {:induction false} RunIsInverse(ops: seq<Op>)
    ensures Inverse(Run(ops))
  {
    if ops != [] {
      RunIsInverse(ops[..|ops| - 1]);
      match ops[|ops| - 1]
      case Set(a, b) => SetRefKeepsInverse(Run(ops[..|ops| - 1]), a, b);
      case Unset(a) => RemoveRefKeepsInverse(Run(ops[..|ops| - 1]), a);
    }
  }

  lemma {:induction false} RunForward(ops: seq<Op>, referent: Key)
    requires AllSlashless(ops) && Slashless(referent)
    ensures Flatten(referent) in Run(ops).ref <==> Referenced(ops, referent).Some?
    ensures Referenced(ops, referent).Some? ==>
              Run(ops).ref[Flatten(referent)] == Flatten(Referenced(ops, referent).value)
              && Slashless(Referenced(ops, referent).value)
  {
    if ops != [] {
      RunForward(ops[..|ops| - 1], referent);
      var last := ops[|ops| - 1];
      if Flatten(last.referent) == Flatten(referent) {
        FlattenInjective(last.referent, referent);
      }
    }
  }

  /** Every referent in the map stems from some operation. */
  lemma {:induction false} RunKeysFlatten(ops: seq<Op>, left: string) returns (k: Key)
    requires AllSlashless(ops) && left in Run(ops).ref
    ensures Slashless(k) && Flatten(k) == left
  {
    var last := ops[|ops| - 1];
    if Flatten(last.referent) == left {
      k := last.referent;
    } else {
      k := RunKeysFlatten(ops[..|ops| - 1], left);
    }
  }

  /** After any sequence of setRef and removeRef, an object's requests are exactly the objects
      that refer to it at that point, each exactly once. */
  lemma RequestsAreExact(ops: seq<Op>, referenced: Key)
    requires AllSlashless(ops) && Slashless(referenced)
    ensures NoDup(Requests(Run(ops), referenced))
    ensures forall k :: k in Requests(Run(ops), referenced) <==>
              Slashless(k) && Referenced(ops, k) == Some(referenced)
  {
    var m, right := Run(ops), Flatten(referenced);
    var l, r := Entries(m, right), Requests(m, referenced);
    RunIsInverse(ops);
    forall i | 0 <= i < |l|
      ensures Slashless(r[i]) && Flatten(r[i]) == l[i] && Referenced(ops, r[i]) == Some(referenced)
    {
      assert l[i] in l;
      var k := RunKeysFlatten(ops, l[i]);
      FlattenRoundTripIff(k);
      RunForward(ops, k);
      FlattenInjective(Referenced(ops, k).value, referenced);
    }
    forall k | Slashless(k) && Referenced(ops, k) == Some(referenced)
      ensures k in r
    {
      RunForward(ops, k);
      assert Flatten(k) in l;
      var i :| 0 <= i < |l| && l[i] == Flatten(k);
      FlattenInjective(k, r[i]);
    }
  }
}
