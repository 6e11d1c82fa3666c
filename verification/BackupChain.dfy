/** Chains of incremental backups through starts, completions and cascading deletion.

    Sources: controllers/dataprotection/backup_controller.go, controllers/dataprotection/utils.go.
    The backups of one namespace change by atomic reconciles; policies are fixed. */
module BackupChain {
  import opened Common
  import opened Backups
  import opened ParentChoice

  type Methods = map<(string, string), Method>

  /** The stored backups, and when each was started: `order` is a history variable. */
  datatype State = State(store: Store, order: map<string, nat>, clock: nat)

  datatype Step =
    | Create(backup: Backup)
    | Label(name: string, repo: string, kind: Option<BackupType>)
    | StartPlain(name: string, repo: string)
    | StartIncremental(name: string, w: Wanted, all: seq<Backup>, parent: Backup, base: Backup)
    | Complete(name: string, end: Option<int>)
    | Fail(name: string)
    | Mark(name: string)
    | Drop(name: string)
    | BeginDelete(name: string)
    | Cascade(name: string, marks: set<string>)
    | Remove(name: string)

  /** deleteRelatedBackups selects by policy label, then by parent or base. */
  function Related(store: Store, policy: string, name: string): (r: set<string>) {
    set n | n in store && store[n].policyLabel == policy && Refers(store[n], name)
  }

  function Marked(store: Store, marks: set<string>): (r: Store)
    ensures r.Keys == store.Keys
    ensures forall n :: n in store ==> r[n] == (if n in marks then store[n].(marked := true) else store[n])
  {
    map n | n in store :: if n in marks then store[n].(marked := true) else store[n]
  }

  predicate Fresh(b: Backup) {
    b.name != "" && b.phase == New && b.parent == "" && b.base == "" && !b.marked && !b.finalizer
  }

  predicate IsKind(b: Backup, methods: Methods, kind: BackupType) {
    (b.policy, b.backupMethod) in methods && methods[(b.policy, b.backupMethod)].kind == kind
  }

  /** Deleting a backup without finalizer, one that has not got it yet or has failed before,
      removes it at once (Drop); otherwise it is marked. */
  ghost predicate Enabled(s: State, step: Step, methods: Methods) {
    match step
    case Create(b) => Fresh(b) && b.name !in s.store
    case Label(n, repo, kind) => n in s.store && s.store[n].phase == New && !s.store[n].marked
    case StartPlain(n, repo) =>
      n in s.store && s.store[n].phase == New && !s.store[n].marked && !IsKind(s.store[n], methods, Incremental)
    case StartIncremental(n, w, all, parent, base) =>
      n in s.store && s.store[n].phase == New && !s.store[n].marked && IsKind(s.store[n], methods, Incremental) &&
      w.target == s.store[n] && w.compatible == methods[(w.target.policy, w.target.backupMethod)].compatible &&
      Lists(all, s.store) && Derived(parent, base, all, w, methods)
    case Complete(n, end) => n in s.store && s.store[n].phase == Running && !s.store[n].marked
    case Fail(n) => n in s.store && (s.store[n].phase == New || s.store[n].phase == Running) && !s.store[n].marked
    case Mark(n) => n in s.store && s.store[n].finalizer
    case Drop(n) => n in s.store && !s.store[n].finalizer
    case BeginDelete(n) => n in s.store && s.store[n].marked
    case Cascade(n, marks) =>
      n in s.store && s.store[n].phase == Deleting && marks <= Related(s.store, s.store[n].policy, n)
    case Remove(n) =>
      n in s.store && s.store[n].phase == Deleting &&
      forall m :: m in Related(s.store, s.store[n].policy, n) ==> s.store[m].marked
  }

  /** PatchBackupObjectMeta: labels and finalizer. */
  function Labelled(b: Backup, repo: string, kind: Option<BackupType>): (r: Backup) {
    b.(policyLabel := b.policy, repoLabel := repo, typeLabel := kind, finalizer := true)
  }

  /** handleNewPhase: labels, then status with phase, repo, parent and base. */
  function Started(b: Backup, repo: string, kind: Option<BackupType>, parent: string, base: string): (r: Backup) {
    Labelled(b, repo, kind).(phase := Running, repo := repo, parent := parent, base := base)
  }

  function Put(s: State, b: Backup): (r: State) {
    s.(store := s.store[b.name := b])
  }

  ghost function Apply(s: State, step: Step, methods: Methods): (r: State)
    requires Enabled(s, step, methods)
  {
    match step
    case Create(b) => Put(s, b)
    case Label(n, repo, kind) => s.(store := s.store[n := Labelled(s.store[n], repo, kind)])
    case StartPlain(n, repo) =>
      var b := s.store[n];
      var kind := if (b.policy, b.backupMethod) in methods
                  then Some(methods[(b.policy, b.backupMethod)].kind) else None;
      s.(store := s.store[n := Started(b, repo, kind, "", "")], order := s.order[n := s.clock], clock := s.clock + 1)
    case StartIncremental(n, w, all, parent, base) =>
      var b := Started(s.store[n], w.repo, Some(Incremental), parent.name, base.name);
      s.(store := s.store[n := b.(encryption := parent.encryption)],
      order := s.order[n := s.clock], clock := s.clock + 1)
    case Complete(n, end) => s.(store := s.store[n := s.store[n].(phase := Completed, end := end)])
    case Fail(n) => s.(store := s.store[n := s.store[n].(phase := Failed)])
    case Mark(n) => s.(store := s.store[n := s.store[n].(marked := true)])
    case Drop(n) => s.(store := s.store - {n})
    case BeginDelete(n) => s.(store := s.store[n := s.store[n].(phase := Deleting)])
    case Cascade(n, marks) => s.(store := Marked(s.store, marks))
    case Remove(n) => s.(store := s.store - {n})
  }

  ghost predicate Run(s: State, steps: seq<Step>, methods: Methods)
    decreases |steps|
  {
    steps == [] ||
    (Enabled(s, steps[0], methods) && Run(Apply(s, steps[0], methods), steps[1..], methods))
  }

  ghost function After(s: State, steps: seq<Step>, methods: Methods): (r: State)
    requires Run(s, steps, methods)
    decreases |steps|
  {
    if steps == [] then s else After(Apply(s, steps[0], methods), steps[1..], methods)
  }

  const EMPTY: State := State(map[], map[], 0)

  // -------------------------------------------------------------- invariant

  predicate Settled(b: Backup) {
    b.phase == Completed || b.phase == Deleting
  }

  ghost predicate Earlier(s: State, a: string, b: string) {
    a in s.order && b in s.order && s.order[a] < s.order[b]
  }

  /** Two members of one chain. */
  ghost predicate Kin(s: State, b: Backup, older: Backup) {
    Settled(older) && older.policy == b.policy && older.repo == b.repo && older.encryption == b.encryption &&
    Earlier(s, older.name, b.name)
  }

  ghost predicate ParentOk(s: State, b: Backup, p: Backup, methods: Methods) {
    Kin(s, b, p) &&
    ((IsKind(p, methods, Full) && p.name == b.base) ||
     (IsKind(p, methods, Incremental) && p.base != "" && p.base == b.base))
  }

  ghost predicate BaseOk(s: State, b: Backup, f: Backup, methods: Methods) {
    Kin(s, b, f) && IsKind(f, methods, Full)
  }

  /** Whatever is being deleted or has been started has the finalizer. */
  predicate Held(b: Backup) {
    b.marked || b.phase == Running || b.phase == Completed || b.phase == Deleting ==> b.finalizer
  }

  ghost predicate Links(s: State, b: Backup, methods: Methods) {
    IsKind(b, methods, Incremental) && b.finalizer && b.base != "" && b.policyLabel == b.policy &&
    (b.parent in s.store ==> ParentOk(s, b, s.store[b.parent], methods)) &&
    (b.base in s.store ==> BaseOk(s, b, s.store[b.base], methods)) &&
    (!b.marked ==> b.parent in s.store && b.base in s.store)
  }

  ghost predicate Good(s: State, n: string, methods: Methods)
    requires n in s.store
  {
    var b := s.store[n];
    b.name == n && n != "" && Held(b) &&
    (b.phase == New ==> b.parent == "") &&
    (b.phase == Running || b.phase == Completed ==> n in s.order && s.order[n] < s.clock) &&
    ((b.phase == Running || b.phase == Completed) && IsKind(b, methods, Incremental) ==> b.parent != "") &&
    (if b.parent == "" then b.base == "" else Links(s, b, methods))
  }

  /** Chain invariant and cascade closure together. */
  ghost predicate Inv(s: State, methods: Methods) {
    forall n :: n in s.store ==> Good(s, n, methods)
  }

  ghost predicate Referenced(s: State, name: string) {
    exists n :: n in s.store && Refers(s.store[n], name)
  }

  // ------------------------------------------------------- one step keeps it

  /** b is a later version of a: same links, no mark lost, phases in order. */
  predicate Evolves(a: Backup, b: Backup) {
    b.name == a.name && b.policy == a.policy && b.backupMethod == a.backupMethod && b.repo == a.repo &&
    b.encryption == a.encryption && b.parent == a.parent && b.base == a.base && (a.parent != "" ==> b.policyLabel == a.policyLabel) &&
    (a.finalizer ==> b.finalizer) && Held(b) &&
    (a.marked ==> b.marked) && (Settled(a) ==> Settled(b)) && (b.phase == New ==> a.phase == New) &&
    (b.phase == Running || b.phase == Completed ==> a.phase == Running || a.phase == Completed)
  }

  /** The entry for name in t, if any, is a later version of the one in s. */
  ghost predicate Follows(s: State, t: State, name: string) {
    (name in t.store ==> name in s.store && Evolves(s.store[name], t.store[name])) &&
    (name in s.order ==> name in t.order && t.order[name] == s.order[name])
  }

  /** A backup stays good while it and what it refers to only evolve, and nothing disappears
      that it needs. */
  lemma EvolvingKeepsGood(s: State, t: State, n: string, methods: Methods)
    requires n in s.store && n in t.store && Good(s, n, methods) && s.clock <= t.clock
    requires var b := s.store[n];
             Follows(s, t, n) && (b.parent != "" ==> Follows(s, t, b.parent) && Follows(s, t, b.base))
    requires var b := s.store[n];
             !t.store[n].marked && b.parent != "" ==> b.parent in t.store && b.base in t.store
    requires var b := s.store[n];
             b.parent != "" ==> (b.parent in s.store ==> s.store[b.parent].name == b.parent) &&
                                (b.base in s.store ==> s.store[b.base].name == b.base)
    ensures Good(t, n, methods)
  {
    if s.store[n].parent != "" {
      assert Links(s, s.store[n], methods);
      assert Links(t, t.store[n], methods);
    }
  }

  /** Replacing one backup by a later version. */
  lemma TouchKeepsInv(s: State, n: string, b: Backup, methods: Methods)
    requires Inv(s, methods) && n in s.store && Evolves(s.store[n], b)
    ensures Inv(s.(store := s.store[n := b]), methods)
  {
    var t := s.(store := s.store[n := b]);
    NamesMatch(s, methods);
    forall m | m in t.store
      ensures Good(t, m, methods)
    {
      assert Good(s, m, methods);
      EvolvingKeepsGood(s, t, m, methods);
    }
  }

  lemma NamesMatch(s: State, methods: Methods)
    requires Inv(s, methods)
    ensures forall n :: n in s.store ==> s.store[n].name == n
  {
    forall n | n in s.store
      ensures s.store[n].name == n
    {
      assert Good(s, n, methods);
    }
  }

  lemma MarkedFollows(s: State, marks: set<string>, n: string, methods: Methods)
    requires Inv(s, methods) && forall m :: m in marks && m in s.store ==> s.store[m].finalizer
    ensures Follows(s, s.(store := Marked(s.store, marks)), n)
  {
    if n in s.store {
      assert Good(s, n, methods);
    }
  }

  lemma MarksKeepInv(s: State, marks: set<string>, methods: Methods)
    requires Inv(s, methods) && forall m :: m in marks && m in s.store ==> s.store[m].finalizer
    ensures Inv(s.(store := Marked(s.store, marks)), methods)
  {
    var t := s.(store := Marked(s.store, marks));
    NamesMatch(s, methods);
    forall m | m in t.store
      ensures Good(t, m, methods)
    {
      var b := s.store[m];
      assert Good(s, m, methods);
      MarkedFollows(s, marks, m, methods);
      MarkedFollows(s, marks, b.parent, methods);
      MarkedFollows(s, marks, b.base, methods);
      EvolvingKeepsGood(s, t, m, methods);
    }
  }

  /** Taking a backup away is safe once every backup that refers to it is marked. */
  lemma RemoveKeepsInv(s: State, n: string, methods: Methods)
    requires Inv(s, methods) && n in s.store
    requires forall m :: m in s.store && Refers(s.store[m], n) ==> s.store[m].marked
    ensures Inv(s.(store := s.store - {n}), methods)
  {
    var t := s.(store := s.store - {n});
    NamesMatch(s, methods);
    forall m | m in t.store
      ensures Good(t, m, methods)
    {
      assert Good(s, m, methods);
      EvolvingKeepsGood(s, t, m, methods);
    }
  }

  /** Whoever refers to a stored backup was found by its policy label. */
  lemma ReferrersAreRelated(s: State, n: string, methods: Methods)
    requires Inv(s, methods) && n in s.store
    ensures forall m :: m in s.store && Refers(s.store[m], n) ==> m in Related(s.store, s.store[n].policy, n)
  {
    forall m | m in s.store && Refers(s.store[m], n)
      ensures m in Related(s.store, s.store[n].policy, n)
    {
      assert Good(s, m, methods) && Good(s, n, methods);
    }
  }

  /** A change at n alone does not touch a backup that does not refer to n. */
  lemma OtherStaysGood(s: State, t: State, n: string, m: string, methods: Methods)
    requires Inv(s, methods) && m in s.store && m != n && !Refers(s.store[m], n)
    requires n in t.store && t.store == s.store[n := t.store[n]]
    requires s.clock <= t.clock && (t.order == s.order || t.order == s.order[n := s.clock])
    ensures Good(t, m, methods)
  {
    var b := s.store[m];
    assert Good(s, m, methods);
    assert b.parent in s.store ==> Good(s, b.parent, methods);
    assert b.base in s.store ==> Good(s, b.base, methods);
    EvolvingKeepsGood(s, t, m, methods);
  }

  lemma ReuseBreaksLinks(s: State, b: Backup, n: string, methods: Methods)
    requires Inv(s, methods) && Fresh(b) && b.name !in s.store
    requires n in s.store && Refers(s.store[n], b.name)
    ensures !Good(Put(s, b), n, methods)
  {
    assert Good(s, n, methods);
  }

  /** Creating a backup keeps the invariant exactly when no stored backup refers to its name. */
  lemma CreateKeepsInvIff(s: State, b: Backup, methods: Methods)
    requires Inv(s, methods) && Fresh(b) && b.name !in s.store
    ensures Inv(Put(s, b), methods) <==> !Referenced(s, b.name)
  {
    var t := Put(s, b);
    if Referenced(s, b.name) {
      var n :| n in s.store && Refers(s.store[n], b.name);
      ReuseBreaksLinks(s, b, n, methods);
      assert n in t.store;
    } else {
      forall m | m in t.store
        ensures Good(t, m, methods)
      {
        if m != b.name {
          OtherStaysGood(s, t, b.name, m, methods);
        }
      }
    }
  }

  /** What deleteRelatedBackups finds has the finalizer, so deleting it only marks it. */
  lemma RelatedAreHeld(s: State, policy: string, name: string, methods: Methods)
    requires Inv(s, methods) && name != ""
    ensures forall m :: m in Related(s.store, policy, name) ==> s.store[m].finalizer
  {
    forall m | m in Related(s.store, policy, name)
      ensures s.store[m].finalizer
    {
      assert Good(s, m, methods);
    }
  }

  /** A backup that has not been completed is nobody's parent or base. */
  lemma UnsettledIsUnreferenced(s: State, n: string, methods: Methods)
    requires Inv(s, methods) && n in s.store && !Settled(s.store[n])
    ensures !Referenced(s, n)
  {
    forall m | m in s.store
      ensures !Refers(s.store[m], n)
    {
      assert Good(s, m, methods) && Good(s, n, methods);
    }
  }

  function StartAt(s: State, n: string, b: Backup): (t: State) {
    State(s.store[n := b], s.order[n := s.clock], s.clock + 1)
  }

  /** Starting a backup that is New, with links that fit the stored backups. */
  lemma StartKeepsInv(s: State, n: string, b: Backup, methods: Methods)
    requires Inv(s, methods) && n in s.store && s.store[n].phase == New
    requires Good(StartAt(s, n, b), n, methods)
    ensures Inv(StartAt(s, n, b), methods)
  {
    var t := StartAt(s, n, b);
    UnsettledIsUnreferenced(s, n, methods);
    forall m | m in t.store
      ensures Good(t, m, methods)
    {
      if m != n {
        OtherStaysGood(s, t, n, m, methods);
      }
    }
  }

  lemma DerivedAreStored(s: State, n: string, w: Wanted, all: seq<Backup>, parent: Backup, base: Backup, methods: Methods)
    requires Inv(s, methods)
    requires Enabled(s, StartIncremental(n, w, all, parent, base), methods)
    ensures parent.name in s.store && s.store[parent.name] == parent && parent.phase == Completed
    ensures base.name in s.store && s.store[base.name] == base
    ensures parent.name != n && parent.name != "" && base.name != ""
    ensures parent.policy == s.store[n].policy && parent.repo == w.repo
    ensures if IsKind(parent, methods, Full) then base == parent
            else IsKind(parent, methods, Incremental) && parent.base != "" && base.name == parent.base
  {
    assert parent in all && base in all;
    assert Good(s, parent.name, methods) && Good(s, base.name, methods) && Good(s, n, methods);
  }

  /** The base of a completed backup that is stored is older, full, and of its kin. */
  lemma BaseIsOk(s: State, p: string, methods: Methods)
    requires Inv(s, methods) && p in s.store && s.store[p].base != "" && s.store[p].base in s.store
    ensures BaseOk(s, s.store[p], s.store[s.store[p].base], methods)
  {
    assert Good(s, p, methods);
  }

  /** The links prepare4Incremental derives fit the stored backups. */
  lemma DerivedLinks(s: State, n: string, w: Wanted, all: seq<Backup>, parent: Backup, base: Backup, methods: Methods)
    requires Inv(s, methods)
    requires Enabled(s, StartIncremental(n, w, all, parent, base), methods)
    ensures parent.name in s.store && s.store[parent.name] == parent && parent.phase == Completed
    ensures base.name in s.store && s.store[base.name] == base
    ensures parent.name != n && base.name != n && parent.name != "" && base.name != ""
    ensures var t := s.(order := s.order[n := s.clock]);
            var b := Started(s.store[n], w.repo, Some(Incremental), parent.name, base.name)
                     .(encryption := parent.encryption);
            ParentOk(t, b, parent, methods) && BaseOk(t, b, base, methods)
  {
    DerivedAreStored(s, n, w, all, parent, base, methods);
    assert Good(s, parent.name, methods);
    if base != parent {
      BaseIsOk(s, parent.name, methods);
    }
  }

  /** A started backup whose links fit is good. */
  lemma StartedIsGood(s: State, n: string, b: Backup, methods: Methods)
    requires n != "" && b.name == n && b.phase == Running && b.finalizer && b.policyLabel == b.policy
    requires b.parent != "" && b.base != "" && b.parent != n && b.base != n && IsKind(b, methods, Incremental)
    requires b.parent in s.store && ParentOk(s.(order := s.order[n := s.clock]), b, s.store[b.parent], methods)
    requires b.base in s.store && BaseOk(s.(order := s.order[n := s.clock]), b, s.store[b.base], methods)
    ensures Good(StartAt(s, n, b), n, methods)
  {
    assert Links(StartAt(s, n, b), b, methods);
  }

  lemma StartIncrementalKeepsInv(s: State, step: Step, methods: Methods)
    requires Inv(s, methods) && step.StartIncremental? && Enabled(s, step, methods)
    ensures Inv(Apply(s, step, methods), methods)
  {
    var n := step.name;
    var b := Started(s.store[n], step.w.repo, Some(Incremental), step.parent.name, step.base.name)
             .(encryption := step.parent.encryption);
    assert Good(s, n, methods);
    DerivedLinks(s, n, step.w, step.all, step.parent, step.base, methods);
    StartedIsGood(s, n, b, methods);
    StartKeepsInv(s, n, b, methods);
  }

  /** Every step but a create that reuses a referenced name keeps the invariant. */
  lemma StepKeepsInv(s: State, step: Step, methods: Methods)
    requires Inv(s, methods) && Enabled(s, step, methods)
    requires step.Create? ==> !Referenced(s, step.backup.name)
    ensures Inv(Apply(s, step, methods), methods)
  {
    match step
    case Create(b) => CreateKeepsInvIff(s, b, methods);
    case StartIncremental(n, w, all, parent, base) => StartIncrementalKeepsInv(s, step, methods);
    case Cascade(n, marks) =>
      assert Good(s, n, methods);
      RelatedAreHeld(s, s.store[n].policy, n, methods);
      MarksKeepInv(s, marks, methods);
    case Label(n, repo, kind) =>
      assert Good(s, n, methods);
      TouchKeepsInv(s, n, Labelled(s.store[n], repo, kind), methods);
    case Remove(n) =>
      ReferrersAreRelated(s, n, methods);
      RemoveKeepsInv(s, n, methods);
    case Drop(n) =>
      assert Good(s, n, methods);
      UnsettledIsUnreferenced(s, n, methods);
      RemoveKeepsInv(s, n, methods);
    case StartPlain(n, repo) => StartPlainKeepsInv(s, step, methods);
    case Complete(n, end) =>
      assert Good(s, n, methods);
      TouchKeepsInv(s, n, s.store[n].(phase := Completed, end := end), methods);
    case Fail(n) =>
      assert Good(s, n, methods);
      TouchKeepsInv(s, n, s.store[n].(phase := Failed), methods);
    case Mark(n) =>
      assert Good(s, n, methods);
      TouchKeepsInv(s, n, s.store[n].(marked := true), methods);
    case BeginDelete(n) =>
      assert Good(s, n, methods);
      TouchKeepsInv(s, n, s.store[n].(phase := Deleting), methods);
  }

  lemma StartPlainKeepsInv(s: State, step: Step, methods: Methods)
    requires Inv(s, methods) && step.StartPlain? && Enabled(s, step, methods)
    ensures Inv(Apply(s, step, methods), methods)
  {
    var t := Apply(s, step, methods);
    assert Good(t, step.name, methods) by {
      assert Good(s, step.name, methods);
    }
    StartKeepsInv(s, step.name, t.store[step.name], methods);
  }

  /** No create in the run takes a name that a stored backup still refers to. */
  ghost predicate NoReuse(s: State, steps: seq<Step>, methods: Methods)
    requires Run(s, steps, methods)
    decreases |steps|
  {
    steps == [] ||
    ((steps[0].Create? ==> !Referenced(s, steps[0].backup.name)) &&
     NoReuse(Apply(s, steps[0], methods), steps[1..], methods))
  }

  lemma {:induction false} RunKeepsInv(s: State, steps: seq<Step>, methods: Methods)
    requires Inv(s, methods) && Run(s, steps, methods) && NoReuse(s, steps, methods)
    ensures Inv(After(s, steps, methods), methods)
    decreases |steps|
  {
    if steps != [] {
      StepKeepsInv(s, steps[0], methods);
      RunKeepsInv(Apply(s, steps[0], methods), steps[1..], methods);
    }
  }

  /** s is reached from the empty namespace by a run without name reuse. */
  ghost predicate Reachable(s: State, methods: Methods) {
    exists steps :: Run(EMPTY, steps, methods) && NoReuse(EMPTY, steps, methods) && After(EMPTY, steps, methods) == s
  }

  lemma ReachableInv(s: State, methods: Methods)
    requires Reachable(s, methods)
    ensures Inv(s, methods)
  {
    var steps :| Run(EMPTY, steps, methods) && NoReuse(EMPTY, steps, methods) && After(EMPTY, steps, methods) == s;
    RunKeepsInv(EMPTY, steps, methods);
  }

  // ------------------------------------------------------------------ chains

  /** The names met from n by following stored parents. */
  ghost function Chain(s: State, n: string, methods: Methods): (r: seq<string>)
    requires Inv(s, methods) && n in s.store
    decreases if s.store[n].parent != "" && n in s.order then s.order[n] + 1 else 0
  {
    assert Good(s, n, methods);
    var p := s.store[n].parent;
    if p == "" || p !in s.store then [n]
    else
      assert Good(s, p, methods);
      [n] + Chain(s, p, methods)
  }

  /** A chain follows the parent names from n as far as stored backups go. */
  lemma {:induction false} ChainShape(s: State, n: string, methods: Methods)
    requires Inv(s, methods) && n in s.store
    ensures var c := Chain(s, n, methods);
            c != [] && c[0] == n && (forall i :: 0 <= i < |c| ==> c[i] in s.store)
    ensures var c := Chain(s, n, methods);
            forall i :: 0 < i < |c| ==> s.store[c[i - 1]].parent == c[i]
    decreases if s.store[n].parent != "" && n in s.order then s.order[n] + 1 else 0
  {
    assert Good(s, n, methods);
    var p := s.store[n].parent;
    if p != "" && p in s.store {
      assert Good(s, p, methods);
      ChainShape(s, p, methods);
      var c, d := Chain(s, n, methods), Chain(s, p, methods);
      assert c == [n] + d;
      assert forall i :: 0 <= i < |c| ==> c[i] in s.store;
      forall i | 0 < i < |c|
        ensures s.store[c[i - 1]].parent == c[i]
      {
        if i > 1 {
          assert c[i - 1] == d[i - 2] && c[i] == d[i - 1];
        }
      }
    }
  }

  /** One link of a chain. */
  lemma LinkIsSound(s: State, n: string, methods: Methods)
    requires Inv(s, methods) && n in s.store && s.store[n].parent != "" && s.store[n].parent in s.store
    ensures var b := s.store[n]; var p := s.store[b.parent];
            Earlier(s, b.parent, n) && p.policy == b.policy && p.repo == b.repo && p.name == b.parent
    ensures var b := s.store[n]; var p := s.store[b.parent];
            if p.parent == "" then p.name == b.base && IsKind(p, methods, Full) else p.base == b.base
  {
    assert Good(s, n, methods) && Good(s, s.store[n].parent, methods);
  }

  /** The members of a chain are strictly older than its first, so there is no cycle, and they
      share one policy and one repo. */
  lemma {:induction false} ChainMembers(s: State, n: string, methods: Methods)
    requires Inv(s, methods) && n in s.store
    ensures var c := Chain(s, n, methods);
            forall i :: 0 < i < |c| ==> c[i] in s.store && Earlier(s, c[i], n) &&
                                        s.store[c[i]].policy == s.store[n].policy && s.store[c[i]].repo == s.store[n].repo &&
                                        s.store[c[i]].encryption == s.store[n].encryption
    decreases if s.store[n].parent != "" && n in s.order then s.order[n] + 1 else 0
  {
    var p := s.store[n].parent;
    if p != "" && p in s.store {
      LinkIsSound(s, n, methods);
      ChainMembers(s, p, methods);
      ChainShape(s, p, methods);
      var c, d := Chain(s, n, methods), Chain(s, p, methods);
      assert c == [n] + d;
      forall i | 0 < i < |c|
        ensures c[i] in s.store && Earlier(s, c[i], n) &&
                s.store[c[i]].policy == s.store[n].policy && s.store[c[i]].repo == s.store[n].repo
      {
        assert c[i] == d[i - 1];
      }
    }
  }

  /** A chain ends in the full backup recorded as the base of n, or at a backup that is itself
      marked for deletion and has lost its parent. */
  lemma {:induction false} ChainEnd(s: State, n: string, methods: Methods)
    requires Inv(s, methods) && n in s.store
    ensures var c := Chain(s, n, methods);
            c != [] && c[|c| - 1] in s.store &&
            var last := s.store[c[|c| - 1]];
            if last.parent == "" then |c| > 1 ==> last.name == s.store[n].base && IsKind(last, methods, Full)
            else last.marked && last.parent !in s.store && last.base == s.store[n].base
    decreases if s.store[n].parent != "" && n in s.order then s.order[n] + 1 else 0
  {
    var p := s.store[n].parent;
    if p != "" && p in s.store {
      LinkIsSound(s, n, methods);
      ChainEnd(s, p, methods);
      ChainShape(s, p, methods);
      var c, d := Chain(s, n, methods), Chain(s, p, methods);
      assert c == [n] + d && c[|c| - 1] == d[|d| - 1];
      if |d| == 1 {
        assert d[0] == p;
      }
    } else {
      assert Good(s, n, methods);
    }
  }

  /** The recorded chain of n is complete: it leads to a stored full backup, its base. */
  ghost predicate Restorable(s: State, n: string, methods: Methods)
    requires Inv(s, methods) && n in s.store
  {
    var c := Chain(s, n, methods);
    c != [] && c[|c| - 1] in s.store && s.store[c[|c| - 1]].parent == ""
  }

  /** Only the last member of a chain can have lost its parent. */
  lemma OnlyLastIsCut(s: State, n: string, i: nat, methods: Methods)
    requires Inv(s, methods) && n in s.store && i < |Chain(s, n, methods)| - 1
    ensures var c := Chain(s, n, methods); c[i] in s.store && s.store[c[i]].parent in s.store
  {
    ChainShape(s, n, methods);
    var c, j := Chain(s, n, methods), i + 1;
    assert s.store[c[j - 1]].parent == c[j] && c[j] in s.store;
  }

  /** The name at some point of the chain of n is marked for deletion and has lost its parent. */
  ghost predicate Cut(s: State, n: string, methods: Methods)
    requires Inv(s, methods) && n in s.store
  {
    exists m :: m in Chain(s, n, methods) && m in s.store && s.store[m].marked &&
                s.store[m].parent != "" && s.store[m].parent !in s.store
  }

  lemma RestorableIffNotCut(s: State, n: string, methods: Methods)
    requires Inv(s, methods) && n in s.store
    ensures Restorable(s, n, methods) <==> !Cut(s, n, methods)
  {
    var c := Chain(s, n, methods);
    ChainEnd(s, n, methods);
    if Restorable(s, n, methods) {
      forall m | m in c
        ensures m in s.store && (s.store[m].parent == "" || s.store[m].parent in s.store)
      {
        var i :| 0 <= i < |c| && c[i] == m;
        if i < |c| - 1 {
          OnlyLastIsCut(s, n, i, methods);
        }
      }
    } else {
      assert c[|c| - 1] in c;
    }
  }

  /** In every reachable state the chain of a running or completed incremental leads to its
      recorded base, a full backup, exactly when no member marked for deletion has lost its
      parent; without marks every chain is complete. */
  lemma ChainsOverRuns(s: State, n: string, methods: Methods)
    requires Reachable(s, methods) && n in s.store
    requires IsKind(s.store[n], methods, Incremental) && (s.store[n].phase == Running || s.store[n].phase == Completed)
    ensures Inv(s, methods)
    ensures Restorable(s, n, methods) <==> !Cut(s, n, methods)
    ensures (forall m :: m in s.store ==> !s.store[m].marked) ==> Restorable(s, n, methods)
    ensures Restorable(s, n, methods) ==>
              s.store[n].base in s.store && s.store[n].base in Chain(s, n, methods) &&
              IsKind(s.store[s.store[n].base], methods, Full)
  {
    ReachableInv(s, methods);
    RestorableIffNotCut(s, n, methods);
    ChainEnd(s, n, methods);
    assert Good(s, n, methods);
    if Restorable(s, n, methods) {
      var c := Chain(s, n, methods);
      assert Good(s, c[|c| - 1], methods);
      assert c[|c| - 1] in c;
    }
  }

  /** Cascade closure: in every reachable state a backup without deletion mark never names a
      parent or base that is gone. */
  lemma CascadeClosure(s: State, n: string, methods: Methods)
    requires Reachable(s, methods) && n in s.store && !s.store[n].marked
    ensures s.store[n].parent != "" ==> s.store[n].parent in s.store
    ensures s.store[n].base != "" ==> s.store[n].base in s.store
  {
    ReachableInv(s, methods);
    assert Good(s, n, methods);
  }

  // ---------------------------------------------- a chain cut in mid-cascade

  lemma {:induction false} RunSnoc(s: State, steps: seq<Step>, step: Step, methods: Methods)
    requires Run(s, steps, methods) && NoReuse(s, steps, methods)
    requires Enabled(After(s, steps, methods), step, methods)
    requires step.Create? ==> !Referenced(After(s, steps, methods), step.backup.name)
    ensures Run(s, steps + [step], methods) && NoReuse(s, steps + [step], methods)
    ensures After(s, steps + [step], methods) == Apply(After(s, steps, methods), step, methods)
    decreases |steps|
  {
    var longer := steps + [step];
    if steps == [] {
      assert longer == [step] && longer[1..] == [];
    } else {
      RunSnoc(Apply(s, steps[0], methods), steps[1..], step, methods);
      assert longer[0] == steps[0] && longer[1..] == steps[1..] + [step];
    }
  }

  lemma ReachNext(s: State, step: Step, methods: Methods)
    requires Reachable(s, methods) && Enabled(s, step, methods)
    requires step.Create? ==> !Referenced(s, step.backup.name)
    ensures Reachable(Apply(s, step, methods), methods)
  {
    var steps :| Run(EMPTY, steps, methods) && NoReuse(EMPTY, steps, methods) && After(EMPTY, steps, methods) == s;
    RunSnoc(EMPTY, steps, step, methods);
  }

  const METHODS: Methods := map[("p", "f") := Method("", Full), ("p", "i") := Method("f", Incremental)]

  /** A new backup of policy p that names its parent. */
  function Request(name: string, backupMethod: string, specParent: string): (b: Backup) {
    Backup(name, "p", backupMethod, specParent, "", "", "", "", None, New, "", "", "", None, None, "", false, false)
  }

  /** The same backup once it has completed in repo r. */
  function Taken(name: string, backupMethod: string, kind: BackupType, parent: string, base: string): (b: Backup) {
    Backup(name, "p", backupMethod, parent, "p", "r", "", "", Some(kind), Completed, "r", parent, base, Some(0), None, "",
           false, true)
  }

  lemma ReachFull() returns (s: State)
    ensures Reachable(s, METHODS) && s.store == map["F" := Taken("F", "f", Full, "", "")]
    ensures Lists([Taken("F", "f", Full, "", "")], s.store)
  {
    assert Reachable(EMPTY, METHODS) by {
      assert Run(EMPTY, [], METHODS) && NoReuse(EMPTY, [], METHODS) && After(EMPTY, [], METHODS) == EMPTY;
    }
    s := EMPTY;
    ReachNext(s, Create(Request("F", "f", "")), METHODS);
    s := Apply(s, Create(Request("F", "f", "")), METHODS);
    ReachNext(s, StartPlain("F", "r"), METHODS);
    s := Apply(s, StartPlain("F", "r"), METHODS);
    ReachNext(s, Complete("F", Some(0)), METHODS);
    s := Apply(s, Complete("F", Some(0)), METHODS);
  }

  /** parent and base as they are taken by the builder below. */
  predicate Stackable(parent: Backup, base: Backup) {
    parent.name != "" && base.name != "" &&
    ((parent == Taken(parent.name, "f", Full, "", "") && base == parent) ||
     parent == Taken(parent.name, "i", Incremental, parent.parent, base.name))
  }

  function StartOn(name: string, all: seq<Backup>, parent: Backup, base: Backup): (step: Step) {
    var b := Request(name, "i", parent.name);
    StartIncremental(name, Wanted(b, "f", "r", {}), all + [b], parent, base)
  }

  lemma StackedIsEnabled(s: State, all: seq<Backup>, name: string, parent: Backup, base: Backup)
    requires Lists(all, s.store) && parent in all && base in all && Stackable(parent, base) && name !in s.store
    ensures Enabled(Put(s, Request(name, "i", parent.name)), StartOn(name, all, parent, base), METHODS)
  {
    var b := Request(name, "i", parent.name);
    var listed, w := all + [b], Wanted(b, "f", "r", {});
    assert MayBeParent(parent, listed, w);
    assert Lists(listed, Put(s, b).store);
  }

  lemma StackedResult(s: State, all: seq<Backup>, name: string, parent: Backup, base: Backup) returns (t: State)
    requires Reachable(Put(s, Request(name, "i", parent.name)), METHODS) && Stackable(parent, base)
    requires Enabled(Put(s, Request(name, "i", parent.name)), StartOn(name, all, parent, base), METHODS)
    ensures Reachable(t, METHODS)
    ensures t.store == s.store[name := Taken(name, "i", Incremental, parent.name, base.name)]
  {
    var u := Put(s, Request(name, "i", parent.name));
    var start := StartOn(name, all, parent, base);
    ReachNext(u, start, METHODS);
    t := Apply(u, start, METHODS);
    ReachNext(t, Complete(name, Some(0)), METHODS);
    t := Apply(t, Complete(name, Some(0)), METHODS);
  }

  /** One more incremental on top of a completed parent. */
  lemma ReachIncremental(s: State, all: seq<Backup>, name: string, parent: Backup, base: Backup) returns (t: State)
    requires Reachable(s, METHODS) && Lists(all, s.store) && parent in all && base in all && Stackable(parent, base)
    requires name != "" && name !in s.store && !Referenced(s, name)
    ensures Reachable(t, METHODS)
    ensures t.store == s.store[name := Taken(name, "i", Incremental, parent.name, base.name)]
    ensures Lists(all + [Taken(name, "i", Incremental, parent.name, base.name)], t.store)
  {
    var b := Request(name, "i", parent.name);
    ReachNext(s, Create(b), METHODS);
    StackedIsEnabled(s, all, name, parent, base);
    t := StackedResult(s, all, name, parent, base);
  }

  /** A full backup and three incrementals, one on top of the other. */
  lemma ReachThree() returns (s: State)
    ensures Reachable(s, METHODS)
    ensures s.store == map["F" := Taken("F", "f", Full, "", ""), "q" := Taken("q", "i", Incremental, "F", "F"),
                           "p" := Taken("p", "i", Incremental, "q", "F"), "b" := Taken("b", "i", Incremental, "p", "F")]
  {
    var full := Taken("F", "f", Full, "", "");
    var q := Taken("q", "i", Incremental, "F", "F");
    var p := Taken("p", "i", Incremental, "q", "F");
    s := ReachFull();
    s := ReachIncremental(s, [full], "q", full, full);
    s := ReachIncremental(s, [full] + [q], "p", q, full);
    s := ReachIncremental(s, [full] + [q] + [p], "b", p, full);
  }

  // ------------------------------------------------- the deleting reconcile

  lemma MarkOneMore(store: Store, marks: set<string>, n: string)
    requires n in store
    ensures Marked(store, marks)[n := store[n].(marked := true)] == Marked(store, marks + {n})
  {
  }


  datatype DeletionStatus = Succeeded | DeletionFailed | InProgress

  /** The stored backups of one namespace, as the reconciler changes them. */
  class Namespace {
    var store: Store

    constructor (backups: Store)
      ensures store == backups
    {
      store := backups;
    }

    /** deleteRelatedBackups; deleting a name in `refused` fails. `listed` is the API's answer. */
    method DeleteRelatedBackups(backup: Backup, listed: seq<string>, listFails: bool, refused: set<string>)
      returns (ok: bool, ghost marks: set<string>)
      requires forall n :: n in listed <==> n in store && store[n].policyLabel == backup.policy
      modifies this
      ensures marks <= Related(old(store), backup.policy, backup.name)
      ensures store == Marked(old(store), marks)
      ensures ok ==> marks == Related(old(store), backup.policy, backup.name)
      ensures ok <==> !listFails && Related(old(store), backup.policy, backup.name) !! refused
    {
      marks := {};
      assert store == Marked(store, marks);
      if listFails {
        return false, marks;
      }
      ghost var related := Related(store, backup.policy, backup.name);
      for i := 0 to |listed|
        invariant store == Marked(old(store), marks)
        invariant marks == (set n | n in listed[..i] && n in related)
        invariant marks !! refused
      {
        var n := listed[i];
        assert listed[..i + 1] == listed[..i] + [n];
        if store[n].parent != backup.name && store[n].base != backup.name {
          continue;
        }
        if n in refused {
          return false, marks;
        }
        MarkOneMore(old(store), marks, n);
        store := store[n := store[n].(marked := true)];
        marks := marks + {n};
      }
      assert listed[..|listed|] == listed;
      ok := true;
    }

    /** handleDeletingPhase: removing the finalizer, and with it the backup, comes last and only
        after every child and every backup based on it has been marked. */
    method HandleDeletingPhase(backup: Backup, listed: seq<string>, listFails: bool, refused: set<string>,
                               externalFails: bool, retain: bool, cleaned: bool, snapshotsFail: bool,
                               files: DeletionStatus, patchFails: bool)
      returns (ghost marks: set<string>)
      requires forall n :: n in listed <==> n in store && store[n].policyLabel == backup.policy
      modifies this
      ensures marks <= Related(old(store), backup.policy, backup.name)
      ensures store == Marked(old(store), marks) ||
              (marks == Related(old(store), backup.policy, backup.name) && !retain &&
               store == Marked(old(store), marks) - {backup.name})
      ensures var removes := !externalFails && !retain && cleaned && !snapshotsFail && files == Succeeded && !patchFails &&
                !listFails && forall n :: n in refused && n in old(store) && old(store)[n].policyLabel == backup.policy ==>
                                !(old(store)[n].parent == backup.name || old(store)[n].base == backup.name);
        store == if removes then Marked(old(store), marks) - {backup.name} else Marked(old(store), marks)
    {
      var ok;
      ok, marks := DeleteRelatedBackups(backup, listed, listFails, refused);
      if !ok || externalFails || retain || !cleaned || snapshotsFail {
        return;
      }
      if files == Succeeded && !patchFails {
        store := store - {backup.name};
      }
    }
  }

  /** What handleDeletingPhase does to the store is a cascade step, or one followed by a removal,
      so every state it leaves is reachable again. */
  lemma DeletingPhaseIsSteps(s: State, n: string, marks: set<string>, methods: Methods)
    requires Reachable(s, methods) && n in s.store && s.store[n].phase == Deleting
    requires marks <= Related(s.store, s.store[n].policy, n)
    ensures Reachable(s.(store := Marked(s.store, marks)), methods)
    ensures marks == Related(s.store, s.store[n].policy, n) ==>
              Reachable(s.(store := Marked(s.store, marks) - {n}), methods)
  {
    ReachNext(s, Cascade(n, marks), methods);
    var t := s.(store := Marked(s.store, marks));
    if marks == Related(s.store, s.store[n].policy, n) {
      assert Related(t.store, t.store[n].policy, n) == marks;
      ReachNext(t, Remove(n), methods);
    }
  }

  function Dying(store: Store, n: string): (r: Store)
    requires n in store
  {
    store[n := store[n].(marked := true, phase := Deleting)]
  }

  lemma ReachDying(s: State, n: string, methods: Methods)
    requires Reachable(s, methods) && n in s.store && s.store[n].finalizer
    ensures Reachable(s.(store := Dying(s.store, n)), methods)
  {
    ReachNext(s, Mark(n), methods);
    var t := Apply(s, Mark(n), methods);
    ReachNext(t, BeginDelete(n), methods);
    assert Apply(t, BeginDelete(n), methods).store == Dying(s.store, n);
  }

  lemma RelatedToDying(store: Store, n: string)
    requires n in store
    ensures Related(Dying(store, n), store[n].policy, n) == Related(store, store[n].policy, n)
  {
  }

  lemma MarkedWithout(store: Store, related: set<string>, n: string)
    ensures Marked(store, related) - {n} == Marked(store - {n}, related)
  {
  }

  lemma RestOfDying(store: Store, n: string, related: set<string>)
    requires n in store
    ensures Marked(Dying(store, n), related) - {n} == Marked(store, related) - {n}
  {
    assert Dying(store, n) - {n} == store - {n};
    MarkedWithout(Dying(store, n), related, n);
    MarkedWithout(store, related, n);
  }

  /** A backup can be deleted in one go: marked, cascaded and removed. */
  lemma ReachDeleted(s: State, n: string, related: set<string>, methods: Methods)
    requires Reachable(s, methods) && n in s.store && s.store[n].finalizer && related == Related(s.store, s.store[n].policy, n)
    ensures Reachable(s.(store := Marked(s.store, related) - {n}), methods)
  {
    ReachDying(s, n, methods);
    RelatedToDying(s.store, n);
    RestOfDying(s.store, n, related);
    DeletingPhaseIsSteps(s.(store := Dying(s.store, n)), n, related, methods);
  }

  /** Deleting a backup in the middle of a chain marks its child but not yet the grandchild: a
      completed backup without mark is then left with a chain that stops short of its base. */
  lemma GrandchildLosesChain() returns (s: State)
    ensures Reachable(s, METHODS) && Inv(s, METHODS)
    ensures "b" in s.store && s.store["b"].phase == Completed && !s.store["b"].marked && s.store["b"].base in s.store
    ensures !Restorable(s, "b", METHODS)
    ensures "q" !in s.store && "p" in s.store && s.store["p"].parent == "q"
  {
    s := ReachThree();
    ReachDeleted(s, "q", {"p"}, METHODS);
    s := s.(store := Marked(s.store, {"p"}) - {"q"});
    ReachableInv(s, METHODS);
    assert Chain(s, "p", METHODS) == ["p"];
    assert Chain(s, "b", METHODS) == ["b"] + ["p"];
  }

  // ------------------------------------------- which steps cut which chains

  /** A chain is the same wherever its members, and what is missing at its end, are the same. */
  lemma {:induction false} ChainStays(s: State, t: State, n: string, methods: Methods)
    requires Inv(s, methods) && Inv(t, methods) && n in s.store
    requires forall m :: m in Chain(s, n, methods) ==>
               m in s.store && m in t.store && t.store[m].parent == s.store[m].parent &&
               (s.store[m].parent in t.store ==> s.store[m].parent in s.store)
    ensures Chain(s, n, methods) != [] && n in Chain(s, n, methods)
    ensures n in t.store && Chain(t, n, methods) == Chain(s, n, methods)
    decreases if s.store[n].parent != "" && n in s.order then s.order[n] + 1 else 0
  {
    ChainShape(s, n, methods);
    var p := s.store[n].parent;
    if p != "" && p in s.store {
      LinkIsSound(s, n, methods);
      ChainShape(s, p, methods);
      assert Chain(s, n, methods) == [n] + Chain(s, p, methods);
      assert p in Chain(s, p, methods);
      ChainStays(s, t, p, methods);
    }
  }

  lemma RestorableStays(s: State, t: State, n: string, methods: Methods)
    requires Inv(s, methods) && Inv(t, methods) && n in s.store
    requires forall m :: m in Chain(s, n, methods) ==>
               m in s.store && m in t.store && t.store[m].parent == s.store[m].parent &&
               (s.store[m].parent in t.store ==> s.store[m].parent in s.store)
    ensures n in t.store && (Restorable(t, n, methods) <==> Restorable(s, n, methods))
  {
    ChainStays(s, t, n, methods);
    ChainEnd(s, n, methods);
    var c := Chain(s, n, methods);
    assert c[|c| - 1] in c;
  }

  /** A removed backup cuts every chain that passes through it. */
  lemma {:induction false} RemovalCuts(s: State, t: State, n: string, m: string, methods: Methods)
    requires Inv(s, methods) && Inv(t, methods) && t.store == s.store - {n}
    requires m in s.store && m != n && n in Chain(s, m, methods)
    ensures !Restorable(t, m, methods)
    decreases if s.store[m].parent != "" && m in s.order then s.order[m] + 1 else 0
  {
    var p := s.store[m].parent;
    assert p != "" && p in s.store by {
      assert Good(s, m, methods);
    }
    LinkIsSound(s, m, methods);
    if p == n {
      assert Chain(t, m, methods) == [m];
    } else {
      assert Chain(s, m, methods) == [m] + Chain(s, p, methods);
      RemovalCuts(s, t, n, p, methods);
      RestorableViaParent(t, m, methods);
    }
  }

  /** After the removal of n another backup is restorable exactly when it was and its chain did
      not pass through n. */
  lemma RestorableAfterRemovalIff(s: State, n: string, m: string, methods: Methods)
    requires Inv(s, methods) && n in s.store && m in s.store && m != n
    requires forall k :: k in s.store && Refers(s.store[k], n) ==> s.store[k].marked
    ensures var t := s.(store := s.store - {n});
            Inv(t, methods) &&
            (Restorable(t, m, methods) <==> Restorable(s, m, methods) && n !in Chain(s, m, methods))
  {
    var t := s.(store := s.store - {n});
    RemoveKeepsInv(s, n, methods);
    if n in Chain(s, m, methods) {
      RemovalCuts(s, t, n, m, methods);
    } else {
      ChainShape(s, m, methods);
      RestorableStays(s, t, m, methods);
    }
  }

  /** Every backup that nobody is deleting has a complete chain. */
  ghost predicate AllRestorable(s: State, methods: Methods)
    requires Inv(s, methods)
  {
    forall n :: n in s.store && !s.store[n].marked ==> Restorable(s, n, methods)
  }

  /** Every other backup whose chain passes through n is being deleted as well. */
  ghost predicate Spared(s: State, n: string, methods: Methods)
    requires Inv(s, methods)
  {
    forall m :: m in s.store && m != n && n in Chain(s, m, methods) ==> s.store[m].marked
  }

  /** Removing a backup leaves all unmarked backups restorable exactly when every backup whose
      chain passes through it is marked: not only its children, as the cascade sees to. */
  lemma RemoveKeepsRestorableIff(s: State, n: string, methods: Methods)
    requires Inv(s, methods) && AllRestorable(s, methods) && Enabled(s, Remove(n), methods)
    ensures Inv(Apply(s, Remove(n), methods), methods)
    ensures AllRestorable(Apply(s, Remove(n), methods), methods) <==> Spared(s, n, methods)
  {
    var t := Apply(s, Remove(n), methods);
    ReferrersAreRelated(s, n, methods);
    RemoveKeepsInv(s, n, methods);
    forall m | m in s.store && m != n
      ensures Restorable(t, m, methods) <==> Restorable(s, m, methods) && n !in Chain(s, m, methods)
    {
      RestorableAfterRemovalIff(s, n, m, methods);
    }
    forall m | m in t.store
      ensures m in s.store && m != n && t.store[m] == s.store[m]
    {
    }
    forall m | m in s.store && m != n
      ensures m in t.store && t.store[m] == s.store[m]
    {
    }
  }

  /** A backup whose parent is stored is restorable exactly when the parent is. */
  lemma RestorableViaParent(s: State, n: string, methods: Methods)
    requires Inv(s, methods) && n in s.store && s.store[n].parent != "" && s.store[n].parent in s.store
    ensures Restorable(s, n, methods) <==> Restorable(s, s.store[n].parent, methods)
  {
    var p := s.store[n].parent;
    LinkIsSound(s, n, methods);
    ChainShape(s, p, methods);
    var c, d := Chain(s, n, methods), Chain(s, p, methods);
    assert c == [n] + d && c[|c| - 1] == d[|d| - 1];
  }

  /** A started incremental is restorable exactly when its parent is. */
  lemma StartIsRestorableIff(s: State, step: Step, methods: Methods)
    requires Inv(s, methods) && step.StartIncremental? && Enabled(s, step, methods)
    ensures var t := Apply(s, step, methods);
            Inv(t, methods) && step.parent.name in s.store &&
            (Restorable(t, step.name, methods) <==> Restorable(s, step.parent.name, methods))
  {
    DerivedLinks(s, step.name, step.w, step.all, step.parent, step.base, methods);
    StartLeavesOthers(s, step, step.parent.name, methods);
    RestorableViaParent(Apply(s, step, methods), step.name, methods);
  }

  /** A backup that has not been completed is in no chain but its own. */
  lemma {:induction false} NotInOtherChain(s: State, n: string, m: string, methods: Methods)
    requires Inv(s, methods) && n in s.store && !Settled(s.store[n]) && m in s.store && m != n
    ensures n !in Chain(s, m, methods)
    decreases if s.store[m].parent != "" && m in s.order then s.order[m] + 1 else 0
  {
    var p := s.store[m].parent;
    if p != "" && p in s.store {
      LinkIsSound(s, m, methods);
      UnsettledIsUnreferenced(s, n, methods);
      assert !Refers(s.store[m], n);
      NotInOtherChain(s, n, p, methods);
      assert Chain(s, m, methods) == [m] + Chain(s, p, methods);
    } else {
      assert Chain(s, m, methods) == [m];
    }
  }

  /** Steps that keep all names and parents, and only add marks, keep what is restorable. */
  lemma QuietKeepsRestorable(s: State, t: State, methods: Methods)
    requires Inv(s, methods) && Inv(t, methods) && AllRestorable(s, methods)
    requires t.store.Keys == s.store.Keys
    requires forall m :: m in s.store ==>
               t.store[m].parent == s.store[m].parent && (s.store[m].marked ==> t.store[m].marked)
    ensures AllRestorable(t, methods)
  {
    forall m | m in t.store && !t.store[m].marked
      ensures Restorable(t, m, methods)
    {
      ChainShape(s, m, methods);
      assert forall x :: x in Chain(s, m, methods) ==> x in s.store;
      RestorableStays(s, t, m, methods);
    }
  }

  lemma CreateKeepsRestorable(s: State, b: Backup, methods: Methods)
    requires Inv(s, methods) && AllRestorable(s, methods)
    requires Fresh(b) && b.name !in s.store && !Referenced(s, b.name)
    ensures Inv(Put(s, b), methods) && AllRestorable(Put(s, b), methods)
  {
    var t := Put(s, b);
    CreateKeepsInvIff(s, b, methods);
    forall m | m in t.store && !t.store[m].marked
      ensures Restorable(t, m, methods)
    {
      if m == b.name {
        assert Chain(t, m, methods) == [m];
      } else {
        ChainShape(s, m, methods);
        forall x | x in Chain(s, m, methods)
          ensures x in s.store && x in t.store && t.store[x].parent == s.store[x].parent
          ensures s.store[x].parent in t.store ==> s.store[x].parent in s.store
        {
          assert x in s.store && !Refers(s.store[x], b.name);
        }
        RestorableStays(s, t, m, methods);
      }
    }
  }

  lemma DropKeepsRestorable(s: State, n: string, methods: Methods)
    requires Inv(s, methods) && AllRestorable(s, methods) && n in s.store && !s.store[n].finalizer
    ensures var t := s.(store := s.store - {n}); Inv(t, methods) && AllRestorable(t, methods)
  {
    var t := s.(store := s.store - {n});
    assert Good(s, n, methods);
    UnsettledIsUnreferenced(s, n, methods);
    RemoveKeepsInv(s, n, methods);
    forall m | m in t.store && !t.store[m].marked
      ensures Restorable(t, m, methods)
    {
      assert m in s.store && m != n && s.store[m] == t.store[m];
      NotInOtherChain(s, n, m, methods);
      RestorableAfterRemovalIff(s, n, m, methods);
    }
  }

  /** Starting an incremental leaves the chains of the others alone. */
  lemma StartLeavesOthers(s: State, step: Step, m: string, methods: Methods)
    requires Inv(s, methods) && step.StartIncremental? && Enabled(s, step, methods)
    requires m in s.store && m != step.name
    ensures var t := Apply(s, step, methods);
            Inv(t, methods) && m in t.store && (Restorable(t, m, methods) <==> Restorable(s, m, methods))
  {
    var t := Apply(s, step, methods);
    StartIncrementalKeepsInv(s, step, methods);
    NotInOtherChain(s, step.name, m, methods);
    ChainShape(s, m, methods);
    RestorableStays(s, t, m, methods);
  }

  lemma AllButOne(s: State, t: State, n: string, methods: Methods)
    requires Inv(s, methods) && Inv(t, methods) && AllRestorable(s, methods)
    requires n in t.store && !t.store[n].marked && t.store == s.store[n := t.store[n]]
    requires forall m :: m in s.store && m != n ==> (Restorable(t, m, methods) <==> Restorable(s, m, methods))
    ensures AllRestorable(t, methods) <==> Restorable(t, n, methods)
  {
    if Restorable(t, n, methods) {
      forall m | m in t.store && !t.store[m].marked
        ensures Restorable(t, m, methods)
      {
        if m != n {
          assert m in s.store && !s.store[m].marked;
        }
      }
    }
  }

  lemma StartKeepsRestorableIff(s: State, step: Step, methods: Methods)
    requires Inv(s, methods) && AllRestorable(s, methods)
    requires step.StartIncremental? && Enabled(s, step, methods)
    ensures var t := Apply(s, step, methods);
            Inv(t, methods) && step.parent.name in s.store &&
            (AllRestorable(t, methods) <==> Restorable(s, step.parent.name, methods))
  {
    var t := Apply(s, step, methods);
    StartIsRestorableIff(s, step, methods);
    forall m | m in s.store && m != step.name
      ensures Restorable(t, m, methods) <==> Restorable(s, m, methods)
    {
      StartLeavesOthers(s, step, m, methods);
    }
    AllButOne(s, t, step.name, methods);
  }

  /** The step neither removes a backup from under an unmarked one, nor starts one on a chain that
      has been cut. */
  ghost predicate Gentle(s: State, step: Step, methods: Methods)
    requires Inv(s, methods)
  {
    match step
    case Remove(n) => Spared(s, n, methods)
    case StartIncremental(n, w, all, parent, base) => parent.name in s.store && Restorable(s, parent.name, methods)
    case _ => true
  }

  /** A step leaves every unmarked backup with a complete chain exactly when it is gentle. */
  lemma StepKeepsRestorableIff(s: State, step: Step, methods: Methods)
    requires Inv(s, methods) && AllRestorable(s, methods) && Enabled(s, step, methods)
    requires step.Create? ==> !Referenced(s, step.backup.name)
    ensures Inv(Apply(s, step, methods), methods)
    ensures AllRestorable(Apply(s, step, methods), methods) <==> Gentle(s, step, methods)
  {
    StepKeepsInv(s, step, methods);
    match step
    case Remove(n) => RemoveKeepsRestorableIff(s, n, methods);
    case StartIncremental(n, w, all, parent, base) => StartKeepsRestorableIff(s, step, methods);
    case Create(b) => CreateKeepsRestorable(s, b, methods);
    case Drop(n) => DropKeepsRestorable(s, n, methods);
    case _ => OtherStepIsQuiet(s, step, methods);
  }

  predicate Quiet(step: Step) {
    !(step.Remove? || step.StartIncremental? || step.Create? || step.Drop?)
  }

  lemma CascadeIsQuiet(s: State, marks: set<string>, m: string)
    ensures var store := Marked(s.store, marks);
            (m in s.store <==> m in store) &&
            (m in s.store ==> store[m].parent == s.store[m].parent && (s.store[m].marked ==> store[m].marked))
  {
  }

  lemma QuietOn(s: State, step: Step, m: string, methods: Methods)
    requires Inv(s, methods) && Enabled(s, step, methods) && Quiet(step)
    ensures var t := Apply(s, step, methods);
            (m in s.store <==> m in t.store) &&
            (m in s.store ==> t.store[m].parent == s.store[m].parent && (s.store[m].marked ==> t.store[m].marked))
  {
    if step.Cascade? {
      CascadeIsQuiet(s, step.marks, m);
    } else if m in s.store {
      assert Good(s, m, methods);
    }
  }

  lemma OtherStepIsQuiet(s: State, step: Step, methods: Methods)
    requires Inv(s, methods) && AllRestorable(s, methods) && Enabled(s, step, methods) && Quiet(step)
    requires Inv(Apply(s, step, methods), methods)
    ensures AllRestorable(Apply(s, step, methods), methods)
  {
    var t := Apply(s, step, methods);
    forall m
      ensures m in s.store <==> m in t.store
      ensures m in s.store ==> t.store[m].parent == s.store[m].parent && (s.store[m].marked ==> t.store[m].marked)
    {
      QuietOn(s, step, m, methods);
    }
    assert t.store.Keys == s.store.Keys;
    QuietKeepsRestorable(s, t, methods);
  }

  /** All steps of the run are gentle. */
  ghost predicate GentleRun(s: State, steps: seq<Step>, methods: Methods)
    requires Run(s, steps, methods)
    decreases |steps|
  {
    steps == [] ||
    (Inv(s, methods) && Gentle(s, steps[0], methods) &&
     GentleRun(Apply(s, steps[0], methods), steps[1..], methods))
  }

  /** Over a whole run without name reuse, gentle steps keep every unmarked backup restorable. */
  lemma {:induction false} GentleRunKeepsRestorable(s: State, steps: seq<Step>, methods: Methods)
    requires Inv(s, methods) && AllRestorable(s, methods)
    requires Run(s, steps, methods) && NoReuse(s, steps, methods) && GentleRun(s, steps, methods)
    ensures Inv(After(s, steps, methods), methods) && AllRestorable(After(s, steps, methods), methods)
    decreases |steps|
  {
    if steps != [] {
      StepKeepsRestorableIff(s, steps[0], methods);
      GentleRunKeepsRestorable(Apply(s, steps[0], methods), steps[1..], methods);
    }
  }

  // ------------------------------------------------ closure with name reuse

  /** No unmarked backup names a parent or base that is gone. */
  ghost predicate Closed(s: State) {
    "" !in s.store &&
    forall n :: n in s.store && !s.store[n].marked ==> LinksStored(s.store[n], s.store)
  }

  predicate LinksStored(b: Backup, store: Store) {
    (b.parent != "" ==> b.parent in store) && (b.base != "" ==> b.base in store)
  }

  /** If the step takes a backup away, no unmarked one refers to it. */
  ghost predicate Careful(s: State, step: Step) {
    step.Drop? || step.Remove? ==>
      forall m :: m in s.store && m != step.name && !s.store[m].marked ==> !Refers(s.store[m], step.name)
  }

  lemma TakingKeepsClosedIff(s: State, n: string)
    requires Closed(s) && n in s.store
    ensures Closed(s.(store := s.store - {n})) <==>
            forall m :: m in s.store && m != n && !s.store[m].marked ==> !Refers(s.store[m], n)
  {
    var t := s.(store := s.store - {n});
    forall m | m in s.store && m != n && !s.store[m].marked
      ensures LinksStored(t.store[m], t.store) <==> !Refers(s.store[m], n)
    {
    }
    if Closed(t) {
      forall m | m in s.store && m != n && !s.store[m].marked
        ensures !Refers(s.store[m], n)
      {
        assert m in t.store;
      }
    }
  }

  /** Whatever names are used again, a step keeps the closure exactly when it is careful. */
  lemma StepKeepsClosedIff(s: State, step: Step, methods: Methods)
    requires Closed(s) && Enabled(s, step, methods)
    ensures Closed(Apply(s, step, methods)) <==> Careful(s, step)
  {
    var t := Apply(s, step, methods);
    if step.Drop? || step.Remove? {
      TakingKeepsClosedIff(s, step.name);
    } else {
      forall n | n in t.store && !t.store[n].marked
        ensures LinksStored(t.store[n], t.store)
      {
        OtherStepKeepsLinks(s, step, n, methods);
      }
    }
  }

  lemma OtherStepKeepsLinks(s: State, step: Step, n: string, methods: Methods)
    requires Closed(s) && Enabled(s, step, methods) && !step.Drop? && !step.Remove?
    requires n in Apply(s, step, methods).store && !Apply(s, step, methods).store[n].marked
    ensures LinksStored(Apply(s, step, methods).store[n], Apply(s, step, methods).store)
  {
    if n in s.store {
      assert !s.store[n].marked && LinksStored(s.store[n], s.store);
    }
    if step.StartIncremental? {
      assert step.parent in step.all && step.base in step.all;
    }
  }

  ghost predicate CarefulRun(s: State, steps: seq<Step>, methods: Methods)
    requires Run(s, steps, methods)
    decreases |steps|
  {
    steps == [] || (Careful(s, steps[0]) && CarefulRun(Apply(s, steps[0], methods), steps[1..], methods))
  }

  /** Closure over every run, name reuse included, whose steps are careful. */
  lemma {:induction false} CarefulRunKeepsClosed(s: State, steps: seq<Step>, methods: Methods)
    requires Closed(s) && Run(s, steps, methods) && CarefulRun(s, steps, methods)
    ensures Closed(After(s, steps, methods))
    decreases |steps|
  {
    if steps != [] {
      StepKeepsClosedIff(s, steps[0], methods);
      CarefulRunKeepsClosed(Apply(s, steps[0], methods), steps[1..], methods);
    }
  }

  /** As long as no referenced name is reused, every step is careful. */
  lemma ReachableIsCareful(s: State, step: Step, methods: Methods)
    requires Reachable(s, methods) && Enabled(s, step, methods)
    ensures Careful(s, step)
  {
    ReachableInv(s, methods);
    if step.Remove? {
      ReferrersAreRelated(s, step.name, methods);
    } else if step.Drop? {
      assert Good(s, step.name, methods);
      UnsettledIsUnreferenced(s, step.name, methods);
    }
  }

  lemma RunOne(s: State, step: Step, methods: Methods)
    requires Enabled(s, step, methods)
    ensures Run(s, [step], methods) && After(s, [step], methods) == Apply(s, step, methods)
  {
    assert [step][1..] == [];
  }

  lemma RunCons(s: State, step: Step, rest: seq<Step>, methods: Methods)
    requires Enabled(s, step, methods) && Run(Apply(s, step, methods), rest, methods)
    ensures Run(s, [step] + rest, methods)
    ensures After(s, [step] + rest, methods) == After(Apply(s, step, methods), rest, methods)
  {
    assert ([step] + rest)[1..] == rest;
  }

  /** A backup that is being deleted, whose base is gone. */
  lemma ReachOrphan() returns (s: State)
    ensures Reachable(s, METHODS)
    ensures s.store == map["p" := Taken("p", "i", Incremental, "F", "F").(marked := true)]
  {
    var full := Taken("F", "f", Full, "", "");
    s := ReachFull();
    s := ReachIncremental(s, [full], "p", full, full);
    ReachDeleted(s, "F", {"p"}, METHODS);
    s := s.(store := Marked(s.store, {"p"}) - {"F"});
  }

  /** The start of n on p, which is marked but still Completed, with the new F as base. */
  function StartOnOrphan(p: Backup, f: Backup, n: Backup): (step: Step) {
    StartIncremental("n", Wanted(n, "f", "r", {}), [p, f, n], p, f)
  }

  lemma OrphanIsStackable(s: State, p: Backup, f: Backup, n: Backup)
    requires p == Taken("p", "i", Incremental, "F", "F").(marked := true)
    requires f == Request("F", "f", "") && n == Request("n", "i", "p")
    requires s.store == map["p" := p, "F" := f, "n" := n]
    ensures Enabled(s, StartOnOrphan(p, f, n), METHODS)
  {
    var all, w := [p, f, n], Wanted(n, "f", "r", {});
    assert MayBeParent(p, all, w);
    assert Lists(all, s.store);
    assert Derived(p, f, all, w, METHODS);
  }

  /** Dropping a base that has not been started leaves its backup without one. */
  lemma DropLosesBase(s: State, step: Step)
    requires step.StartIncremental? && Enabled(s, step, METHODS) && !step.base.finalizer
    requires step.base.name != step.name && step.base.name != ""
    ensures Run(s, [step] + [Drop(step.base.name)], METHODS)
    ensures !Closed(After(s, [step] + [Drop(step.base.name)], METHODS))
  {
    var t, f := Apply(s, step, METHODS), step.base.name;
    assert step.base in step.all;
    RunOne(t, Drop(f), METHODS);
    RunCons(s, step, [Drop(f)], METHODS);
    var u := Apply(t, Drop(f), METHODS);
    assert step.name in u.store && !u.store[step.name].marked && u.store[step.name].base == f && f !in u.store;
  }

  /** With name reuse the closure fails: the name of a removed full backup is taken again, an
      incremental is started on the old one's dying child, with the new one as base, and the new
      one, not yet started, is deleted. */
  lemma ReuseBreaksClosure() returns (s: State, steps: seq<Step>)
    ensures Reachable(s, METHODS) && Closed(s) && Run(s, steps, METHODS)
    ensures !Closed(After(s, steps, METHODS))
  {
    s := ReachOrphan();
    var f, n := Request("F", "f", ""), Request("n", "i", "p");
    var two := Put(Put(s, f), n);
    var start := StartOnOrphan(s.store["p"], f, n);
    OrphanIsStackable(two, s.store["p"], f, n);
    DropLosesBase(two, start);
    steps := [start] + [Drop("F")];
    RunCons(Put(s, f), Create(n), steps, METHODS);
    RunCons(s, Create(f), [Create(n)] + steps, METHODS);
    steps := [Create(f)] + ([Create(n)] + steps);
  }

  /** Before that, an unmarked incremental has a base that never was a backup at all: with name
      reuse chains do not end in a completed full backup. */
  lemma ReusedNameBreaksChain() returns (s: State, steps: seq<Step>)
    ensures Reachable(s, METHODS) && Run(s, steps, METHODS)
    ensures var t := After(s, steps, METHODS);
            "n" in t.store && !t.store["n"].marked && t.store["n"].base in t.store &&
            t.store[t.store["n"].base].phase == New && !Inv(t, METHODS)
  {
    s := ReachOrphan();
    var f, n := Request("F", "f", ""), Request("n", "i", "p");
    var two := Put(Put(s, f), n);
    var start := StartOnOrphan(s.store["p"], f, n);
    OrphanIsStackable(two, s.store["p"], f, n);
    RunOne(two, start, METHODS);
    RunCons(Put(s, f), Create(n), [start], METHODS);
    RunCons(s, Create(f), [Create(n)] + [start], METHODS);
    steps := [Create(f)] + ([Create(n)] + [start]);
    var t := Apply(two, start, METHODS);
    assert !Good(t, "n", METHODS);
  }

  // ---------------------------------------------------- the cascade arrives

  /** Steps of deletions that have begun. */
  predicate Finishing(step: Step) {
    step.BeginDelete? || step.Cascade? || step.Remove?
  }

  /** Finishing deletions leads from s to t. */
  ghost predicate Leads(s: State, t: State, methods: Methods) {
    exists steps :: Run(s, steps, methods) && (forall x :: x in steps ==> Finishing(x)) && After(s, steps, methods) == t
  }

  lemma LeadsNowhere(s: State, methods: Methods)
    ensures Leads(s, s, methods)
  {
    assert Run(s, [], methods) && After(s, [], methods) == s;
  }

  lemma LeadsOn(s: State, step: Step, t: State, methods: Methods)
    requires Enabled(s, step, methods) && Finishing(step) && Leads(Apply(s, step, methods), t, methods)
    ensures Leads(s, t, methods)
  {
    var next := Apply(s, step, methods);
    var steps :| Run(next, steps, methods) && (forall x :: x in steps ==> Finishing(x)) && After(next, steps, methods) == t;
    RunCons(s, step, steps, methods);
    assert forall x :: x in [step] + steps ==> Finishing(x);
  }

  function Deleted(s: State, n: string): (t: State)
    requires n in s.store
  {
    s.(store := Marked(s.store, Related(s.store, s.store[n].policy, n)) - {n})
  }

  /** A marked backup can be deleted, with the marks that this leaves. */
  lemma DeletedIsReached(s: State, n: string, methods: Methods)
    requires Reachable(s, methods) && n in s.store && s.store[n].marked
    ensures Reachable(Deleted(s, n), methods)
  {
    ReachableInv(s, methods);
    assert Good(s, n, methods);
    ReachDeleted(s, n, Related(s.store, s.store[n].policy, n), methods);
  }

  /** What finishing deletions leads to after that, it leads to. */
  lemma LeadsThroughDeleted(s: State, n: string, t: State, methods: Methods)
    requires Inv(s, methods) && n in s.store && s.store[n].marked && Leads(Deleted(s, n), t, methods)
    ensures Leads(s, t, methods)
  {
    var dying := s.(store := Dying(s.store, n));
    var related := Related(s.store, s.store[n].policy, n);
    RelatedToDying(s.store, n);
    RestOfDying(s.store, n, related);
    LeadsFromDying(dying, n, related, t, methods);
    LeadsOn(s, BeginDelete(n), t, methods);
  }

  lemma LeadsFromDying(s: State, n: string, related: set<string>, t: State, methods: Methods)
    requires n in s.store && s.store[n].phase == Deleting && related == Related(s.store, s.store[n].policy, n)
    requires Leads(s.(store := Marked(s.store, related) - {n}), t, methods)
    ensures Leads(s, t, methods)
  {
    var cascaded := s.(store := Marked(s.store, related));
    assert Related(cascaded.store, cascaded.store[n].policy, n) == related;
    LeadsOn(cascaded, Remove(n), t, methods);
    LeadsOn(s, Cascade(n, related), t, methods);
  }

  /** No stored backup that n needs, nor n itself, is being deleted. */
  ghost predicate Clean(s: State, n: string, methods: Methods)
    requires Inv(s, methods) && n in s.store
  {
    forall m :: m in Chain(s, n, methods) ==> m in s.store && !s.store[m].marked
  }

  lemma CleanParent(s: State, n: string, methods: Methods)
    requires Inv(s, methods) && n in s.store
    ensures var p := s.store[n].parent;
            if p != "" && p in s.store then Clean(s, n, methods) <==> !s.store[n].marked && Clean(s, p, methods)
            else Clean(s, n, methods) <==> !s.store[n].marked
  {
    var p := s.store[n].parent;
    if p != "" && p in s.store {
      LinkIsSound(s, n, methods);
      assert Chain(s, n, methods) == [n] + Chain(s, p, methods);
    } else {
      assert Chain(s, n, methods) == [n];
    }
  }

  /** What deleting n does to another backup: it is marked exactly if it refers to n. */
  lemma DeletedAt(s: State, n: string, m: string, methods: Methods)
    requires Inv(s, methods) && n in s.store && m in s.store && m != n
    ensures var t := Deleted(s, n);
            m in t.store && t.order == s.order &&
            t.store[m] == if Refers(s.store[m], n) then s.store[m].(marked := true) else s.store[m]
  {
    ReferrersAreRelated(s, n, methods);
  }

  /** Who refers to n, or has a parent that does, is child of n or based on it. */
  lemma SparedWithParent(s: State, n: string, m: string, methods: Methods)
    requires Inv(s, methods) && n in s.store && m in s.store && s.store[m].parent != "" && s.store[m].parent in s.store
    requires s.store[m].parent != n && !Refers(s.store[s.store[m].parent], n)
    ensures !Refers(s.store[m], n)
  {
    LinkIsSound(s, m, methods);
    assert Good(s, s.store[m].parent, methods) && Good(s, n, methods);
  }

  /** Deleting a marked backup leaves clean backups alone. */
  lemma {:induction false} CleanStays(s: State, t: State, n: string, m: string, methods: Methods)
    requires Inv(s, methods) && Inv(t, methods) && n in s.store && s.store[n].marked && t == Deleted(s, n)
    requires m in s.store && Clean(s, m, methods)
    ensures m in t.store && !Refers(s.store[m], n) && t.store[m] == s.store[m] && Clean(t, m, methods)
    decreases if s.store[m].parent != "" && m in s.order then s.order[m] + 1 else 0
  {
    CleanParent(s, m, methods);
    DeletedAt(s, n, m, methods);
    var p := s.store[m].parent;
    if p == "" {
      assert Good(s, m, methods) && Good(s, n, methods);
    } else {
      assert p in s.store by {
        assert Good(s, m, methods);
      }
      LinkIsSound(s, m, methods);
      CleanStays(s, t, n, p, methods);
      CleanParent(s, p, methods);
      SparedWithParent(s, n, m, methods);
    }
    CleanParent(t, m, methods);
  }

  /** And makes no others clean. */
  lemma {:induction false} CleanWasClean(s: State, t: State, n: string, m: string, methods: Methods)
    requires Inv(s, methods) && Inv(t, methods) && n in s.store && s.store[n].marked && t == Deleted(s, n)
    requires m in t.store && Clean(t, m, methods)
    ensures m in s.store && Clean(s, m, methods)
    decreases if s.store[m].parent != "" && m in s.order then s.order[m] + 1 else 0
  {
    CleanParent(t, m, methods);
    CleanParent(s, m, methods);
    DeletedAt(s, n, m, methods);
    var p := s.store[m].parent;
    if p != "" && p in s.store {
      LinkIsSound(s, m, methods);
      DeletedAt(s, n, p, methods);
      CleanWasClean(s, t, n, p, methods);
    }
  }

  /** In s nothing is being deleted. */
  ghost predicate Unmarked(s: State) {
    forall n :: n in s.store ==> !s.store[n].marked
  }

  /** t holds exactly the clean backups of s, unchanged. */
  ghost predicate Survivors(s: State, t: State, methods: Methods)
    requires Inv(s, methods)
  {
    forall m :: (m in t.store <==> m in s.store && Clean(s, m, methods)) && (m in t.store ==> t.store[m] == s.store[m])
  }

  lemma UnmarkedIsDone(s: State, methods: Methods)
    requires Inv(s, methods) && Unmarked(s)
    ensures Survivors(s, s, methods) && forall n :: n in s.store ==> Restorable(s, n, methods)
  {
    forall m | m in s.store
      ensures Clean(s, m, methods) && Restorable(s, m, methods)
    {
      ChainShape(s, m, methods);
      RestorableIffNotCut(s, m, methods);
    }
  }

  lemma DeletedIsSmaller(s: State, n: string)
    requires n in s.store
    ensures |Deleted(s, n).store| < |s.store|
  {
    var next := Deleted(s, n);
    assert next.store.Keys == s.store.Keys - {n};
    assert |next.store| == |next.store.Keys| < |s.store.Keys| == |s.store|;
  }

  lemma SurvivorsCompose(s: State, n: string, t: State, u: State, methods: Methods)
    requires Inv(s, methods) && Inv(t, methods) && n in s.store && s.store[n].marked && t == Deleted(s, n)
    requires Survivors(t, u, methods)
    ensures Survivors(s, u, methods)
  {
    forall m
      ensures m in u.store <==> m in s.store && Clean(s, m, methods)
      ensures m in u.store ==> u.store[m] == s.store[m]
    {
      if m in s.store && Clean(s, m, methods) {
        CleanStays(s, t, n, m, methods);
      }
      if m in u.store {
        CleanWasClean(s, t, n, m, methods);
        CleanStays(s, t, n, m, methods);
      }
    }
  }

  /** The cascade arrives: from every state reached without name reuse, finishing the deletions
      leads to one in which nothing is being deleted. What is left are exactly the backups whose
      whole chain was free of deletion marks, and every incremental among them has its chain
      complete. */
  lemma {:induction false} CascadeArrives(s: State, methods: Methods) returns (t: State)
    requires Reachable(s, methods)
    ensures Inv(s, methods) && Leads(s, t, methods) && Reachable(t, methods) && Unmarked(t)
    ensures Survivors(s, t, methods)
    ensures Inv(t, methods) && forall n :: n in t.store ==> Restorable(t, n, methods)
    decreases |s.store|
  {
    ReachableInv(s, methods);
    if Unmarked(s) {
      t := s;
      LeadsNowhere(s, methods);
      UnmarkedIsDone(s, methods);
    } else {
      var n :| n in s.store && s.store[n].marked;
      var next := Deleted(s, n);
      DeletedIsReached(s, n, methods);
      ReachableInv(next, methods);
      DeletedIsSmaller(s, n);
      t := CascadeArrives(next, methods);
      LeadsThroughDeleted(s, n, t, methods);
      SurvivorsCompose(s, n, next, t, methods);
    }
  }
}
