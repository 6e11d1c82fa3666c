/** The upward search from any object to the traces of the clusters that own it.

    The worklist keeps no record of visited objects. It terminates because every match leads
    to a kind of strictly smaller rank; the loop measure counts the pops still to come.

    Sources: controllers/trace/object_tree_root_finder.go. */
module RootFinder {
  import opened Common
  import opened OwnershipRules

  /** What the API server returns when a kind is listed; listing a missing kind fails. */
  type Lists = map<Kind, seq<Object>>

  datatype Key = Key(namespace: string, name: string)

  /** A trace names its target cluster, by default the cluster of its own name. */
  datatype Trace = Trace(key: Key, target: Option<Key>)

  function KeyOf(o: Object): Key {
    Key(o.namespace, o.name)
  }

  function TargetKey(t: Trace): Key {
    if t.target.Some? then t.target.value else t.key
  }

  ghost predicate WellTyped(lists: Lists) {
    forall k, o :: k in lists && o in lists[k] ==> o.kind == k
  }

  // ------------------------------------------------------- the ownership graph

  /** Some rule makes y an owner of x. */
  ghost predicate Owns(rules: seq<Rule>, lists: Lists, y: Object, x: Object) {
    exists r, o ::
      && r in rules && o in r.owned && o.secondary == x.kind
      && r.primary in lists && y in lists[r.primary] && IsOwner(y, o.criteria, x)
  }

  /** Looking for the owners of x needs a kind that cannot be listed. */
  ghost predicate Fails(rules: seq<Rule>, lists: Lists, x: Object) {
    && !x.kind.Cluster?
    && exists r, o :: r in rules && o in r.owned && o.secondary == x.kind && r.primary !in lists
  }

  /** A path of ownership matches upward; a cluster ends the path. */
  ghost predicate IsPath(rules: seq<Rule>, lists: Lists, path: seq<Object>) {
    && path != []
    && forall i :: 0 <= i < |path| - 1 ==> !path[i].kind.Cluster? && Owns(rules, lists, path[i + 1], path[i])
  }

  /** y is reached from x through zero or more ownership matches. */
  ghost predicate Reaches(rules: seq<Rule>, lists: Lists, x: Object, y: Object) {
    exists path :: IsPath(rules, lists, path) && path[0] == x && path[|path| - 1] == y
  }

  lemma ReachesSelf(rules: seq<Rule>, lists: Lists, x: Object)
    ensures Reaches(rules, lists, x, x)
  {
    assert IsPath(rules, lists, [x]);
    assert [x][0] == x && [x][|[x]| - 1] == x;
  }

  lemma ReachesUp(rules: seq<Rule>, lists: Lists, x: Object, y: Object, z: Object)
    requires Reaches(rules, lists, x, y) && !y.kind.Cluster? && Owns(rules, lists, z, y)
    ensures Reaches(rules, lists, x, z)
  {
    var path :| IsPath(rules, lists, path) && path[0] == x && path[|path| - 1] == y;
    var longer := path + [z];
    assert IsPath(rules, lists, longer);
    assert longer[0] == x && longer[|longer| - 1] == z;
  }

  /** A path is empty or goes through an owner of its start. */
  lemma ReachesVia(rules: seq<Rule>, lists: Lists, x: Object, y: Object) returns (z: Object)
    requires Reaches(rules, lists, x, y) && x != y
    ensures !x.kind.Cluster? && Owns(rules, lists, z, x) && Reaches(rules, lists, z, y)
  {
    var path :| IsPath(rules, lists, path) && path[0] == x && path[|path| - 1] == y;
    z := path[1];
    var rest := path[1..];
    assert IsPath(rules, lists, rest) by {
      forall i | 0 <= i < |rest| - 1
        ensures !rest[i].kind.Cluster? && Owns(rules, lists, rest[i + 1], rest[i])
      {
        assert rest[i] == path[i + 1] && rest[i + 1] == path[i + 2];
      }
    }
    assert rest[0] == z && rest[|rest| - 1] == y;
  }

  // ------------------------------------------------- owners in the order pushed

  function MatchingOwners(candidates: seq<Object>, c: Criteria, x: Object): seq<Object> {
    if candidates == [] then []
    else (if IsOwner(candidates[0], c, x) then [candidates[0]] else []) + MatchingOwners(candidates[1..], c, x)
  }

  function Then(a: Option<seq<Object>>, b: Option<seq<Object>>): Option<seq<Object>> {
    if a.None? || b.None? then None else Some(a.value + b.value)
  }

  /** Owners of x by one rule; None when the primary kind has to be listed and cannot be. */
  function OwnersByRule(primary: Kind, owned: seq<Owned>, lists: Lists, x: Object): Option<seq<Object>> {
    if owned == [] then Some([])
    else if owned[0].secondary != x.kind then OwnersByRule(primary, owned[1..], lists, x)
    else if primary !in lists then None
    else Then(Some(MatchingOwners(lists[primary], owned[0].criteria, x)),
              OwnersByRule(primary, owned[1..], lists, x))
  }

  function Owners(rules: seq<Rule>, lists: Lists, x: Object): Option<seq<Object>> {
    if rules == [] then Some([])
    else Then(OwnersByRule(rules[0].primary, rules[0].owned, lists, x), Owners(rules[1..], lists, x))
  }

  lemma {:induction false} MatchingOwnersHas(candidates: seq<Object>, c: Criteria, x: Object, y: Object)
    ensures y in MatchingOwners(candidates, c, x) <==> y in candidates && IsOwner(y, c, x)
  {
    if candidates != [] {
      MatchingOwnersHas(candidates[1..], c, x, y);
    }
  }

  lemma {:induction false} OwnersByRuleHas(primary: Kind, owned: seq<Owned>, lists: Lists, x: Object, y: Object)
    ensures OwnersByRule(primary, owned, lists, x).None? <==>
            exists o :: o in owned && o.secondary == x.kind && primary !in lists
    ensures OwnersByRule(primary, owned, lists, x).Some? ==>
      (y in OwnersByRule(primary, owned, lists, x).value <==>
       exists o :: o in owned && o.secondary == x.kind && primary in lists && y in lists[primary] && IsOwner(y, o.criteria, x))
  {
    if owned != [] {
      OwnersByRuleHas(primary, owned[1..], lists, x, y);
      assert forall o :: o in owned <==> o == owned[0] || o in owned[1..];
      if primary in lists {
        MatchingOwnersHas(lists[primary], owned[0].criteria, x, y);
      }
    }
  }

  lemma {:induction false} OwnersHas(rules: seq<Rule>, lists: Lists, x: Object, y: Object)
    ensures Owners(rules, lists, x).None? && !x.kind.Cluster? ==> Fails(rules, lists, x)
    ensures Fails(rules, lists, x) ==> Owners(rules, lists, x).None?
    ensures Owners(rules, lists, x).Some? ==>
      (y in Owners(rules, lists, x).value <==> Owns(rules, lists, y, x))
  {
    if rules != [] {
      OwnersHas(rules[1..], lists, x, y);
      OwnersByRuleHas(rules[0].primary, rules[0].owned, lists, x, y);
      assert forall r :: r in rules <==> r == rules[0] || r in rules[1..];
    }
  }

  lemma OwnersRankLower(rules: seq<Rule>, lists: Lists, x: Object)
    requires Ranked(rules) && WellTyped(lists) && Owners(rules, lists, x).Some?
    ensures forall y :: y in Owners(rules, lists, x).value ==> Rank(y.kind) < Rank(x.kind)
  {
    forall y | y in Owners(rules, lists, x).value
      ensures Rank(y.kind) < Rank(x.kind)
    {
      OwnersHas(rules, lists, x, y);
    }
  }

  // ------------------------------------------------------------ termination

  /** Number of pops that start with x at the front and end when all it led to is done. */
  ghost function Cost(rules: seq<Rule>, lists: Lists, x: Object): (c: nat)
    requires Ranked(rules) && WellTyped(lists)
    ensures c >= 1
    decreases Rank(x.kind), 1, 0
  {
    if x.kind.Cluster? || Owners(rules, lists, x).None? then 1
    else
      OwnersRankLower(rules, lists, x);
      1 + TotalCost(rules, lists, Owners(rules, lists, x).value, Rank(x.kind))
  }

  ghost function TotalCost(rules: seq<Rule>, lists: Lists, xs: seq<Object>, bound: nat): nat
    requires Ranked(rules) && WellTyped(lists)
    requires forall x :: x in xs ==> Rank(x.kind) < bound
    decreases bound, 0, |xs|
  {
    if xs == [] then 0 else Cost(rules, lists, xs[0]) + TotalCost(rules, lists, xs[1..], bound)
  }

  lemma {:induction false} TotalCostBound(rules: seq<Rule>, lists: Lists, xs: seq<Object>, b: nat, c: nat)
    requires Ranked(rules) && WellTyped(lists)
    requires forall x :: x in xs ==> Rank(x.kind) < b && Rank(x.kind) < c
    ensures TotalCost(rules, lists, xs, b) == TotalCost(rules, lists, xs, c)
  {
    if xs != [] {
      TotalCostBound(rules, lists, xs[1..], b, c);
    }
  }

  lemma {:induction false} TotalCostAppend(rules: seq<Rule>, lists: Lists, xs: seq<Object>, ys: seq<Object>, b: nat)
    requires Ranked(rules) && WellTyped(lists)
    requires forall x :: x in xs + ys ==> Rank(x.kind) < b
    ensures forall x :: x in xs || x in ys ==> x in xs + ys
    ensures TotalCost(rules, lists, xs + ys, b) == TotalCost(rules, lists, xs, b) + TotalCost(rules, lists, ys, b)
  {
    assert forall x :: x in xs || x in ys ==> x in xs + ys;
    if xs == [] {
      assert xs + ys == ys;
    } else {
      assert (xs + ys)[1..] == xs[1..] + ys;
      TotalCostAppend(rules, lists, xs[1..], ys, b);
    }
  }

  ghost function Pops(rules: seq<Rule>, lists: Lists, xs: seq<Object>): nat
    requires Ranked(rules) && WellTyped(lists)
  {
    TotalCost(rules, lists, xs, MAX_RANK)
  }

  /** Replacing the front of the list by its owners, at the back, makes the measure drop. */
  lemma PopsDrop(rules: seq<Rule>, lists: Lists, xs: seq<Object>)
    requires Ranked(rules) && WellTyped(lists) && xs != []
    ensures Pops(rules, lists, xs[1..]) < Pops(rules, lists, xs)
    ensures !xs[0].kind.Cluster? && Owners(rules, lists, xs[0]).Some? ==>
      Pops(rules, lists, xs[1..] + Owners(rules, lists, xs[0]).value) < Pops(rules, lists, xs)
  {
    assert Pops(rules, lists, xs) ==
           Cost(rules, lists, xs[0]) + TotalCost(rules, lists, xs[1..], MAX_RANK);
    if !xs[0].kind.Cluster? && Owners(rules, lists, xs[0]).Some? {
      var os := Owners(rules, lists, xs[0]).value;
      OwnersRankLower(rules, lists, xs[0]);
      TotalCostAppend(rules, lists, xs[1..], os, MAX_RANK);
      TotalCostBound(rules, lists, os, Rank(xs[0].kind), MAX_RANK);
    }
  }

  // ---------------------------------------------------------------- the search

  /** The body of the search loop for an object that is no cluster: push its owners. */
  method PushOwners(rules: seq<Rule>, lists: Lists, obj: Object, waiting: seq<Object>)
    returns (ok: bool, longer: seq<Object>)
    ensures ok <==> Owners(rules, lists, obj).Some?
    ensures ok ==> longer == waiting + Owners(rules, lists, obj).value
  {
    longer := waiting;
    ghost var all := Then(Some(waiting), Owners(rules, lists, obj));
    for i := 0 to |rules|
      invariant all == Then(Some(longer), Owners(rules[i..], lists, obj))
    {
      var rule := rules[i];
      assert rules[i..][0] == rule && rules[i..][1..] == rules[i + 1..];
      ghost var later := Owners(rules[i + 1..], lists, obj);
      assert all == Then(Some(longer), Then(OwnersByRule(rule.primary, rule.owned, lists, obj), later));
      for j := 0 to |rule.owned|
        invariant all == Then(Some(longer), Then(OwnersByRule(rule.primary, rule.owned[j..], lists, obj), later))
      {
        var resource := rule.owned[j];
        assert rule.owned[j..][0] == resource && rule.owned[j..][1..] == rule.owned[j + 1..];
        if obj.kind != resource.secondary {
          continue;
        }
        if rule.primary !in lists {
          return false, longer;
        }
        ghost var before := longer;
        longer := PushMatching(lists[rule.primary], resource.criteria, obj, longer);
        AppendTwice(before, MatchingOwners(lists[rule.primary], resource.criteria, obj),
                    OwnersByRule(rule.primary, rule.owned[j + 1..], lists, obj), later);
      }
      assert rule.owned[|rule.owned|..] == [];
      AppendNothing(longer, later);
    }
    assert rules[|rules|..] == [];
    return true, longer;
  }

  lemma AppendTwice(a: seq<Object>, b: seq<Object>, c: Option<seq<Object>>, d: Option<seq<Object>>)
    ensures Then(Some(a), Then(Then(Some(b), c), d)) == Then(Some(a + b), Then(c, d))
  {
    if c.Some? && d.Some? {
      assert a + ((b + c.value) + d.value) == (a + b) + (c.value + d.value);
    }
  }

  lemma AppendNothing(a: seq<Object>, d: Option<seq<Object>>)
    ensures Then(Some(a), Then(Some([]), d)) == Then(Some(a), d)
  {
    if d.Some? {
      assert [] + d.value == d.value;
    }
  }

  method PushMatching(candidates: seq<Object>, c: Criteria, obj: Object, waiting: seq<Object>)
    returns (longer: seq<Object>)
    ensures longer == waiting + MatchingOwners(candidates, c, obj)
  {
    longer := waiting;
    for i := 0 to |candidates|
      invariant waiting + MatchingOwners(candidates, c, obj) == longer + MatchingOwners(candidates[i..], c, obj)
    {
      assert candidates[i..][0] == candidates[i] && candidates[i..][1..] == candidates[i + 1..];
      if IsOwner(candidates[i], c, obj) {
        longer := longer + [candidates[i]];
      }
    }
    assert candidates[|candidates|..] == [];
  }

  /** The trace's target is a cluster that owns obj, directly or through other objects. */
  ghost predicate IsHit(rules: seq<Rule>, lists: Lists, obj: Object, t: Trace) {
    exists y :: Reaches(rules, lists, obj, y) && y.kind.Cluster? && KeyOf(y) == TargetKey(t)
  }

  ghost function Hits(rules: seq<Rule>, lists: Lists, obj: Object, traces: seq<Trace>): seq<Key> {
    if traces == [] then []
    else Hits(rules, lists, obj, traces[..|traces| - 1])
         + (if IsHit(rules, lists, obj, traces[|traces| - 1]) then [traces[|traces| - 1].key] else [])
  }

  /** The search hits a kind that cannot be listed. */
  ghost predicate SearchFails(rules: seq<Rule>, lists: Lists, obj: Object) {
    exists x :: Reaches(rules, lists, obj, x) && Fails(rules, lists, x)
  }

  /** y is still to be found: it is reached from an object on the list. */
  ghost predicate Pending(rules: seq<Rule>, lists: Lists, waiting: seq<Object>, y: Object) {
    exists w :: w in waiting && Reaches(rules, lists, w, y)
  }

  /** What is pending before the front is popped is the front itself or pending afterwards. */
  lemma PendingAfterPop(rules: seq<Rule>, lists: Lists, waiting: seq<Object>, next: seq<Object>, y: Object)
    requires waiting != [] && Pending(rules, lists, waiting, y) && y != waiting[0]
    requires forall w :: w in waiting[1..] ==> w in next
    requires !waiting[0].kind.Cluster? ==> forall z :: Owns(rules, lists, z, waiting[0]) ==> z in next
    ensures Pending(rules, lists, next, y)
  {
    var w :| w in waiting && Reaches(rules, lists, w, y);
    if w == waiting[0] {
      var z := ReachesVia(rules, lists, w, y);
    } else {
      assert w in waiting[1..];
    }
  }

  /** The loop of findRoots: all clusters reached from obj, or a listing failure. */
  method CollectRoots(rules: seq<Rule>, lists: Lists, obj: Object) returns (ok: bool, roots: seq<Object>)
    requires Ranked(rules) && WellTyped(lists)
    ensures ok <==> !SearchFails(rules, lists, obj)
    ensures ok ==> forall y :: y in roots <==> Reaches(rules, lists, obj, y) && y.kind.Cluster?
  {
    var waiting := [obj];
    roots := [];
    ReachesSelf(rules, lists, obj);
    while waiting != []
      invariant forall w :: w in waiting || w in roots ==> Reaches(rules, lists, obj, w)
      invariant forall y :: y in roots ==> y.kind.Cluster?
      invariant forall y :: Reaches(rules, lists, obj, y) && y.kind.Cluster? ==>
                  y in roots || Pending(rules, lists, waiting, y)
      invariant forall y :: Reaches(rules, lists, obj, y) && Fails(rules, lists, y) ==>
                  Pending(rules, lists, waiting, y)
      decreases Pops(rules, lists, waiting)
    {
      ghost var before, known := waiting, roots;
      PopsDrop(rules, lists, waiting);
      var front := waiting[0];
      waiting := waiting[1..];
      if front.kind.Cluster? {
        roots := roots + [front];
      } else {
        var pushed;
        ok, pushed := PushOwners(rules, lists, front, waiting);
        OwnersHas(rules, lists, front, front);
        if !ok {
          assert Fails(rules, lists, front) && Reaches(rules, lists, obj, front);
          return;
        }
        forall z
          ensures z in Owners(rules, lists, front).value <==> Owns(rules, lists, z, front)
        {
          OwnersHas(rules, lists, front, z);
        }
        forall w | w in pushed
          ensures Reaches(rules, lists, obj, w)
        {
          if w !in waiting {
            ReachesUp(rules, lists, obj, front, w);
          }
        }
        waiting := pushed;
      }
      KeepPending(rules, lists, obj, before, waiting, known);
    }
    ok := true;
  }

  lemma KeepPending(rules: seq<Rule>, lists: Lists, obj: Object, before: seq<Object>, after: seq<Object>, roots: seq<Object>)
    requires before != []
    requires forall w :: w in before[1..] ==> w in after
    requires !before[0].kind.Cluster? ==> forall z :: Owns(rules, lists, z, before[0]) ==> z in after
    requires forall y :: Reaches(rules, lists, obj, y) && y.kind.Cluster? ==>
               y in roots || Pending(rules, lists, before, y)
    requires forall y :: Reaches(rules, lists, obj, y) && Fails(rules, lists, y) ==>
               Pending(rules, lists, before, y)
    ensures forall y :: Reaches(rules, lists, obj, y) && y.kind.Cluster? && y != before[0] ==>
              y in roots || Pending(rules, lists, after, y)
    ensures forall y :: Reaches(rules, lists, obj, y) && Fails(rules, lists, y) && y != before[0] ==>
              Pending(rules, lists, after, y)
  {
    forall y | y != before[0] && Pending(rules, lists, before, y)
      ensures Pending(rules, lists, after, y)
    {
      PendingAfterPop(rules, lists, before, after, y);
    }
  }

  method RootKeys(roots: seq<Object>) returns (keys: set<Key>)
    ensures forall k :: k in keys <==> exists y :: y in roots && KeyOf(y) == k
  {
    keys := {};
    for i := 0 to |roots|
      invariant forall k :: k in keys <==> exists y :: y in roots[..i] && KeyOf(y) == k
    {
      assert roots[..i + 1] == roots[..i] + [roots[i]];
      assert roots[i] in roots[..i + 1];
      keys := keys + {KeyOf(roots[i])};
    }
    assert roots[..|roots|] == roots;
  }

  /** findRoots: nothing when a listing fails; otherwise exactly the traces whose target is a
      cluster reached from the object, in the order of the trace list. */
  method FindRoots(rules: seq<Rule>, lists: Lists, obj: Object, traces: Option<seq<Trace>>)
    returns (requests: seq<Key>)
    requires Ranked(rules) && WellTyped(lists)
    ensures requests ==
      if traces.None? || SearchFails(rules, lists, obj) then []
      else Hits(rules, lists, obj, traces.value)
  {
    var ok, roots := CollectRoots(rules, lists, obj);
    if !ok {
      return [];
    }
    var keys := RootKeys(roots);
    if traces.None? {
      return [];
    }
    requests := [];
    for i := 0 to |traces.value|
      invariant requests == Hits(rules, lists, obj, traces.value[..i])
    {
      var t := traces.value[i];
      assert traces.value[..i + 1][..i] == traces.value[..i];
      assert IsHit(rules, lists, obj, t) <==> TargetKey(t) in keys;
      if TargetKey(t) in keys {
        requests := requests + [t.key];
      }
    }
    assert traces.value[..|traces.value|] == traces.value;
  }

  /** The search over the rule table of KubeBlocks, less the kinds that are not served,
      needs no assumption on the rules. */
  method FindKubeBlocksRoots(served: Kind -> bool, lists: Lists, obj: Object, traces: Option<seq<Trace>>)
    returns (requests: seq<Key>, ghost rules: seq<Rule>)
    requires WellTyped(lists)
    ensures forall p, o :: HasEdge(rules, p, o) <==> HasEdge(FULL_RULES, p, o) && served(p) && served(o.secondary)
    ensures Within(rules)
    ensures requests ==
      if traces.None? || SearchFails(rules, lists, obj) then []
      else Hits(rules, lists, obj, traces.value)
  {
    FullRulesAreRanked();
    var kept := FilterUnsupportedRules(FULL_RULES, served);
    rules := kept;
    requests := FindRoots(kept, lists, obj, traces);
  }

  /** A trace is requested exactly when its target is a reached cluster. */
  lemma {:induction false} HitsAreExact(rules: seq<Rule>, lists: Lists, obj: Object, traces: seq<Trace>, k: Key)
    ensures k in Hits(rules, lists, obj, traces) <==>
            exists t :: t in traces && t.key == k && IsHit(rules, lists, obj, t)
  {
    if traces != [] {
      var front, last := traces[..|traces| - 1], traces[|traces| - 1];
      HitsAreExact(rules, lists, obj, front, k);
      assert traces == front + [last];
    }
  }

  /** The trace names this cluster, or names none and has its name and namespace. */
  predicate Traces(t: Trace, cluster: Object) {
    var key := Key(cluster.namespace, cluster.name);
    t.target == Some(key) || (t.target.None? && t.key == key)
  }

  /** A trace is requested exactly when it traces a reached cluster. */
  lemma HitsAreTraces(rules: seq<Rule>, lists: Lists, obj: Object, traces: seq<Trace>, k: Key)
    ensures k in Hits(rules, lists, obj, traces) <==>
            exists t, y: Object :: t in traces && t.key == k && Traces(t, y) && y.kind.Cluster? &&
                                   Reaches(rules, lists, obj, y)
  {
    HitsAreExact(rules, lists, obj, traces, k);
    forall t, y: Object
      ensures Traces(t, y) <==> KeyOf(y) == TargetKey(t)
    {
    }
    if k in Hits(rules, lists, obj, traces) {
      var t :| t in traces && t.key == k && IsHit(rules, lists, obj, t);
      var y :| Reaches(rules, lists, obj, y) && y.kind.Cluster? && KeyOf(y) == TargetKey(t);
      assert Traces(t, y);
    }
    if t, y: Object :| t in traces && t.key == k && Traces(t, y) && y.kind.Cluster? && Reaches(rules, lists, obj, y) {
      assert IsHit(rules, lists, obj, t);
    }
  }

  // ------------------------------------------------------------ roots of components

  /** The rules are some of those of the table. */
  ghost predicate Within(rules: seq<Rule>) {
    forall p, o :: HasEdge(rules, p, o) ==> HasEdge(FULL_RULES, p, o)
  }

  lemma OwnsByKind(rules: seq<Rule>, lists: Lists, y: Object, x: Object)
    requires WellTyped(lists)
    ensures Owns(rules, lists, y, x) <==>
            y.kind in lists && y in lists[y.kind] &&
            exists o :: HasEdge(rules, y.kind, o) && o.secondary == x.kind && IsOwner(y, o.criteria, x)
  {
    if Owns(rules, lists, y, x) {
      var r, o :| r in rules && o in r.owned && o.secondary == x.kind
                  && r.primary in lists && y in lists[r.primary] && IsOwner(y, o.criteria, x);
      assert HasEdge(rules, y.kind, o);
    }
  }

  /** The object refers to the cluster and is labelled with its name as managed by KubeBlocks. */
  ghost predicate BelongsTo(x: Object, cluster: Object) {
    Refers(x, cluster) && Labelled(x, "app.kubernetes.io/instance", cluster.name) &&
    Labelled(x, "app.kubernetes.io/managed-by", "kubeblocks")
  }

  /** A cluster owns an object exactly when the table lets it own that kind and the object belongs
      to it. */
  lemma ClusterOwnsIff(rules: seq<Rule>, lists: Lists, cluster: Object, x: Object)
    requires Within(rules) && WellTyped(lists) && cluster.kind.Cluster?
    ensures Owns(rules, lists, cluster, x) <==>
            Cluster in lists && cluster in lists[Cluster] && HasEdge(rules, Cluster, Owned(x.kind, CLUSTER_CRITERIA)) &&
            BelongsTo(x, cluster)
  {
    OwnsByKind(rules, lists, cluster, x);
    IsOwnedByCluster(cluster, x);
    forall o | HasEdge(rules, Cluster, o)
      ensures o == Owned(o.secondary, CLUSTER_CRITERIA)
    {
      ClusterEdge(Cluster, o);
    }
  }

  /** A step up from a component leads to a cluster. */
  lemma AboveComponent(rules: seq<Rule>, lists: Lists, component: Object, z: Object)
    requires Within(rules) && WellTyped(lists) && component.kind.Component? && Owns(rules, lists, z, component)
    ensures z.kind.Cluster?
  {
    OwnsByKind(rules, lists, z, component);
    var o :| HasEdge(rules, z.kind, o) && o.secondary == component.kind && IsOwner(z, o.criteria, component);
    ClusterEdge(z.kind, o);
  }

  /** The clusters reached from a component are those that own it. */
  lemma ComponentReaches(rules: seq<Rule>, lists: Lists, component: Object, cluster: Object)
    requires Within(rules) && WellTyped(lists) && component.kind.Component? && cluster.kind.Cluster?
    ensures Reaches(rules, lists, component, cluster) <==> Owns(rules, lists, cluster, component)
  {
    if Reaches(rules, lists, component, cluster) {
      var z := ReachesVia(rules, lists, component, cluster);
      AboveComponent(rules, lists, component, z);
      if z != cluster {
        var w := ReachesVia(rules, lists, z, cluster);
      }
    }
    if Owns(rules, lists, cluster, component) {
      ReachesSelf(rules, lists, cluster);
      ReachesFrom(rules, lists, component, cluster, cluster);
    }
  }

  lemma ComponentRoots(rules: seq<Rule>, lists: Lists, component: Object, cluster: Object)
    requires Within(rules) && WellTyped(lists) && component.kind.Component? && cluster.kind.Cluster?
    ensures Reaches(rules, lists, component, cluster) <==>
            Cluster in lists && cluster in lists[Cluster] &&
            HasEdge(rules, Cluster, Owned(Component, CLUSTER_CRITERIA)) && BelongsTo(component, cluster)
  {
    ComponentReaches(rules, lists, component, cluster);
    ClusterOwnsIff(rules, lists, cluster, component);
  }

  ghost predicate DistinctUids(clusters: seq<Object>) {
    forall a, b :: a in clusters && b in clusters && a.uid == b.uid ==> a == b
  }

  lemma SameUid(component: Object, y: Object, z: Object)
    requires |component.owners| <= 1 && BelongsTo(component, y) && BelongsTo(component, z)
    ensures y.uid == z.uid
  {
  }

  /** A component with one owner reference has at most one root. */
  lemma ComponentHasOneRoot(rules: seq<Rule>, lists: Lists, component: Object, y: Object, z: Object)
    requires Within(rules) && WellTyped(lists) && Cluster in lists && DistinctUids(lists[Cluster])
    requires component.kind.Component? && |component.owners| <= 1
    requires y.kind.Cluster? && Reaches(rules, lists, component, y)
    requires z.kind.Cluster? && Reaches(rules, lists, component, z)
    ensures y == z
  {
    ComponentRoots(rules, lists, component, y);
    ComponentRoots(rules, lists, component, z);
    SameUid(component, y, z);
  }

  lemma ListedRoots(lists: Lists, component: Object, cluster: Object)
    requires TrunkListed(lists) && component.kind.Component?
    ensures Reaches(FULL_RULES, lists, component, cluster) && cluster.kind.Cluster? <==>
            cluster in lists[Cluster] && BelongsTo(component, cluster)
  {
    if cluster.kind.Cluster? {
      assert Within(FULL_RULES);
      ComponentRoots(FULL_RULES, lists, component, cluster);
      ClusterEdge(Cluster, Owned(Component, CLUSTER_CRITERIA));
    }
  }

  /** The traces requested for a component: those of the listed clusters that it belongs to. */
  lemma ComponentTraces(lists: Lists, component: Object, traces: seq<Trace>, k: Key)
    requires TrunkListed(lists) && component.kind.Component?
    ensures !SearchFails(FULL_RULES, lists, component)
    ensures k in Hits(FULL_RULES, lists, component, traces) <==>
            exists t, y :: t in traces && t.key == k && Traces(t, y) && y in lists[Cluster] && BelongsTo(component, y)
  {
    TrunkSearchSucceeds(lists, component);
    HitsAreTraces(FULL_RULES, lists, component, traces, k);
    forall y
      ensures Reaches(FULL_RULES, lists, component, y) && y.kind.Cluster? <==>
              y in lists[Cluster] && BelongsTo(component, y)
    {
      ListedRoots(lists, component, y);
    }
  }

  // ------------------------------------------------------------ roots of volumes

  /** A claim that names the volume, or names none: with no selector left the match defaults to
      true. */
  ghost predicate ClaimMatches(lists: Lists, claim: Object, volume: Object) {
    PersistentVolumeClaim in lists && claim in lists[PersistentVolumeClaim] &&
    (claim.volumeName.None? || claim.volumeName.value == volume.name)
  }

  lemma VolumeOwners(lists: Lists, volume: Object, claim: Object)
    requires volume.kind.PersistentVolume?
    ensures Owns(FULL_RULES, lists, claim, volume) <==> ClaimMatches(lists, claim, volume)
  {
    if Owns(FULL_RULES, lists, claim, volume) {
      var r, o :| r in FULL_RULES && o in r.owned && o.secondary == volume.kind
                  && r.primary in lists && claim in lists[r.primary] && IsOwner(claim, o.criteria, volume);
      assert HasEdge(FULL_RULES, r.primary, o);
      VolumeEdge(r.primary, o);
    }
    if ClaimMatches(lists, claim, volume) {
      var o := Owned(PersistentVolume, PVC_CRITERIA);
      VolumeEdge(PersistentVolumeClaim, o);
      var r :| r in FULL_RULES && r.primary == PersistentVolumeClaim && o in r.owned;
      assert IsOwner(claim, o.criteria, volume);
    }
  }

  /** The clusters reached from a volume are exactly those reached from claims that name it or
      name none. */
  lemma VolumeRoots(lists: Lists, volume: Object, y: Object)
    requires volume.kind.PersistentVolume? && y.kind.Cluster?
    ensures Reaches(FULL_RULES, lists, volume, y) <==>
            exists claim :: ClaimMatches(lists, claim, volume) && Reaches(FULL_RULES, lists, claim, y)
  {
    if Reaches(FULL_RULES, lists, volume, y) {
      var claim := ReachesVia(FULL_RULES, lists, volume, y);
      VolumeOwners(lists, volume, claim);
    }
    if claim :| ClaimMatches(lists, claim, volume) && Reaches(FULL_RULES, lists, claim, y) {
      VolumeOwners(lists, volume, claim);
      ReachesFrom(FULL_RULES, lists, volume, claim, y);
    }
  }

  /** A path can be extended at its start. */
  lemma ReachesFrom(rules: seq<Rule>, lists: Lists, x: Object, z: Object, y: Object)
    requires !x.kind.Cluster? && Owns(rules, lists, z, x) && Reaches(rules, lists, z, y)
    ensures Reaches(rules, lists, x, y)
  {
    var path :| IsPath(rules, lists, path) && path[0] == z && path[|path| - 1] == y;
    var longer := [x] + path;
    forall i | 0 <= i < |longer| - 1
      ensures !longer[i].kind.Cluster? && Owns(rules, lists, longer[i + 1], longer[i])
    {
      if i > 0 {
        assert longer[i] == path[i - 1] && longer[i + 1] == path[i - 1 + 1];
      }
    }
    assert IsPath(rules, lists, longer);
  }

  /** The cluster is reached from a claim that names the volume. */
  ghost predicate NamedRoot(lists: Lists, volume: Object, y: Object) {
    exists claim :: ClaimMatches(lists, claim, volume) && claim.volumeName.Some? &&
                    Reaches(FULL_RULES, lists, claim, y)
  }

  ghost predicate UnboundClaim(lists: Lists, claim: Object) {
    PersistentVolumeClaim in lists && claim in lists[PersistentVolumeClaim] && claim.volumeName.None?
  }

  /** The search from a volume stays with the clusters whose claims name it exactly when every
      cluster with an unbound claim is one of these. */
  lemma VolumeRootsAreNamedIff(lists: Lists, volume: Object)
    requires volume.kind.PersistentVolume?
    ensures (forall y: Object :: y.kind.Cluster? && Reaches(FULL_RULES, lists, volume, y) ==> NamedRoot(lists, volume, y)) <==>
            (forall claim, y: Object :: UnboundClaim(lists, claim) && y.kind.Cluster? && Reaches(FULL_RULES, lists, claim, y)
                                ==> NamedRoot(lists, volume, y))
  {
    forall y: Object | y.kind.Cluster?
      ensures Reaches(FULL_RULES, lists, volume, y) <==>
              NamedRoot(lists, volume, y) || exists c :: UnboundClaim(lists, c) && Reaches(FULL_RULES, lists, c, y)
    {
      VolumeRoots(lists, volume, y);
      if c :| UnboundClaim(lists, c) && Reaches(FULL_RULES, lists, c, y) {
        assert ClaimMatches(lists, c, volume);
      }
    }
  }

  /** All kinds that a search from a trunk object lists can be listed. */
  ghost predicate TrunkListed(lists: Lists) {
    WellTyped(lists) && forall k :: Trunk(k) && !k.PersistentVolume? ==> k in lists
  }

  lemma {:induction false} TrunkPath(lists: Lists, path: seq<Object>, i: nat)
    requires TrunkListed(lists) && IsPath(FULL_RULES, lists, path) && Trunk(path[0].kind) && i < |path|
    ensures Trunk(path[i].kind)
  {
    if i > 0 {
      TrunkPath(lists, path, i - 1);
      var k := i - 1;
      assert Owns(FULL_RULES, lists, path[k + 1], path[k]);
      var r, o :| r in FULL_RULES && o in r.owned && o.secondary == path[k].kind
                  && r.primary in lists && path[k + 1] in lists[r.primary] && IsOwner(path[k + 1], o.criteria, path[k]);
      TrunkEdge(r, o);
    }
  }

  lemma TrunkSearchSucceeds(lists: Lists, obj: Object)
    requires TrunkListed(lists) && Trunk(obj.kind)
    ensures !SearchFails(FULL_RULES, lists, obj)
  {
    forall x | Reaches(FULL_RULES, lists, obj, x)
      ensures !Fails(FULL_RULES, lists, x)
    {
      var path :| IsPath(FULL_RULES, lists, path) && path[0] == obj && path[|path| - 1] == x;
      TrunkPath(lists, path, |path| - 1);
      forall r, o | r in FULL_RULES && o in r.owned && o.secondary == x.kind
        ensures r.primary in lists
      {
        TrunkEdge(r, o);
      }
    }
  }

  /** The trace of a cluster with one unbound claim is requested for every volume whatsoever. */
  lemma UnboundClaimTracesEveryVolume(lists: Lists, claim: Object, cluster: Object, volume: Object, traces: seq<Trace>, t: Trace)
    requires TrunkListed(lists) && volume.kind.PersistentVolume?
    requires UnboundClaim(lists, claim) && cluster.kind.Cluster? && Reaches(FULL_RULES, lists, claim, cluster)
    requires t in traces && TargetKey(t) == KeyOf(cluster)
    ensures !SearchFails(FULL_RULES, lists, volume) && t.key in Hits(FULL_RULES, lists, volume, traces)
  {
    TrunkSearchSucceeds(lists, volume);
    assert ClaimMatches(lists, claim, volume);
    VolumeRoots(lists, volume, cluster);
    HitsAreExact(FULL_RULES, lists, volume, traces, t.key);
    assert IsHit(FULL_RULES, lists, volume, t);
  }

  const OTHER_LABELS: map<string, string> := map[INSTANCE := "other", MANAGED_BY := "kubeblocks"]
  const OTHER_CLUSTER := Object(Cluster, "ns", "other", "cu", map[], [], None)
  const OTHER_COMPONENT := Object(Component, "ns", "other-c", "pu", OTHER_LABELS, [OwnerRef("cu", true)], None)
  const OTHER_CLAIM := Object(PersistentVolumeClaim, "ns", "data", "du", OTHER_LABELS, [OwnerRef("pu", true)], None)
  const OTHER_LISTS: Lists := map[Cluster := [OTHER_CLUSTER], Component := [OTHER_COMPONENT], InstanceSet := [],
                                  PersistentVolumeClaim := [OTHER_CLAIM]]

  lemma OtherLabelsMatch()
    ensures IsOwner(OTHER_COMPONENT, COMPONENT_CRITERIA, OTHER_CLAIM)
    ensures IsOwner(OTHER_CLUSTER, CLUSTER_CRITERIA, OTHER_COMPONENT)
  {
  }

  /** An edge of the table between two listed objects that match. */
  lemma OwnsByEdge(lists: Lists, i: nat, j: nat, y: Object, x: Object)
    requires i < |FULL_RULES| && j < |FULL_RULES[i].owned| && FULL_RULES[i].owned[j].secondary == x.kind
    requires FULL_RULES[i].primary in lists && y in lists[FULL_RULES[i].primary]
    requires IsOwner(y, FULL_RULES[i].owned[j].criteria, x)
    ensures Owns(FULL_RULES, lists, y, x)
  {
    var r := FULL_RULES[i];
    assert r in FULL_RULES && r.owned[j] in r.owned;
  }

  lemma OtherClaimIsOwned()
    ensures Owns(FULL_RULES, OTHER_LISTS, OTHER_COMPONENT, OTHER_CLAIM)
  {
    OtherLabelsMatch();
    assert FULL_RULES[1].owned[4] == Owned(PersistentVolumeClaim, COMPONENT_CRITERIA);
    OwnsByEdge(OTHER_LISTS, 1, 4, OTHER_COMPONENT, OTHER_CLAIM);
  }

  lemma OtherComponentIsOwned()
    ensures Owns(FULL_RULES, OTHER_LISTS, OTHER_CLUSTER, OTHER_COMPONENT)
  {
    OtherLabelsMatch();
    assert FULL_RULES[0].owned[0] == Owned(Component, CLUSTER_CRITERIA);
    OwnsByEdge(OTHER_LISTS, 0, 0, OTHER_CLUSTER, OTHER_COMPONENT);
  }

  lemma OtherClusterIsReached()
    ensures Reaches(FULL_RULES, OTHER_LISTS, OTHER_CLAIM, OTHER_CLUSTER)
  {
    ReachesSelf(FULL_RULES, OTHER_LISTS, OTHER_CLUSTER);
    OtherComponentIsOwned();
    ReachesFrom(FULL_RULES, OTHER_LISTS, OTHER_COMPONENT, OTHER_CLUSTER, OTHER_CLUSTER);
    OtherClaimIsOwned();
    ReachesFrom(FULL_RULES, OTHER_LISTS, OTHER_CLAIM, OTHER_COMPONENT, OTHER_CLUSTER);
  }

  lemma OtherListsAreTyped()
    ensures TrunkListed(OTHER_LISTS)
  {
  }

  /** A volume that no claim names, and the trace of a cluster with a claim still unbound: it is
      requested, although the volume has nothing to do with the cluster. */
  lemma StrayTraceIsRequested(volume: Object)
    requires volume.kind.PersistentVolume?
    ensures TrunkListed(OTHER_LISTS) && !SearchFails(FULL_RULES, OTHER_LISTS, volume)
    ensures forall claim :: claim in OTHER_LISTS[PersistentVolumeClaim] ==> claim.volumeName != Some(volume.name)
    ensures KeyOf(OTHER_CLUSTER) in Hits(FULL_RULES, OTHER_LISTS, volume, [Trace(KeyOf(OTHER_CLUSTER), None)])
  {
    OtherListsAreTyped();
    OtherClusterIsReached();
    var t := Trace(KeyOf(OTHER_CLUSTER), None);
    UnboundClaimTracesEveryVolume(OTHER_LISTS, OTHER_CLAIM, OTHER_CLUSTER, volume, [t], t);
  }
}
