/** Garbage collection of expired backups.

    Sources: controllers/dataprotection/gc_controller.go, backup_controller.go. Backups of one
    namespace; the answers of the API server for policies and action sets are parameters. */
module BackupGc {
  import opened Common
  import opened Backups

  /** The answer to a Get: an object, not found, or another error. */
  datatype Answer<T> = Found(value: T) | NotFound | Error

  /** What the collector reads of a backup policy: the retention policy, and for each method the
      name-resolved type of its backups (the action set may be missing or unreadable). */
  datatype Policy = Policy(retainLatest: bool, methodTypes: map<string, Answer<Option<BackupType>>>)

  type Policies = map<string, Answer<Policy>>

  function PolicyOf(policies: Policies, name: string): (r: Answer<Policy>) {
    if name in policies then policies[name] else NotFound
  }

  /** getRelatedBackups selects by cluster label, policy label and method. */
  predicate RelatedTo(x: Backup, b: Backup) {
    b.clusterLabel != "" && x.clusterLabel == b.clusterLabel && x.policyLabel == b.policy &&
    x.backupMethod != "" && x.backupMethod == b.backupMethod
  }

  /** client.List and the method filter of getRelatedBackups. */
  method GetRelatedBackups(all: seq<Backup>, b: Backup) returns (filtered: seq<Backup>)
    ensures forall x :: x in filtered <==> x in all && RelatedTo(x, b)
  {
    filtered := [];
    if b.clusterLabel == "" {
      return;
    }
    for i := 0 to |all|
      invariant forall x :: x in filtered <==> x in all[..i] && RelatedTo(x, b)
    {
      var x := all[i];
      assert all[..i + 1] == all[..i] + [x];
      if x.clusterLabel == b.clusterLabel && x.policyLabel == b.policy {
        if |x.backupMethod| != 0 && x.backupMethod == b.backupMethod {
          filtered := filtered + [x];
        }
      }
    }
    assert all[..|all|] == all;
  }

  /** b is the latest completed backup among those related to it. */
  ghost predicate LatestOfGroup(all: seq<Backup>, b: Backup) {
    b in all && b.phase == Completed && RelatedTo(b, b) &&
    forall x :: x in all && RelatedTo(x, b) && x.phase == Completed ==> !Before(b, x)
  }

  /** Another completed backup of the group did not stop earlier than b, or b is in no group. */
  ghost predicate Superseded(all: seq<Backup>, b: Backup) {
    !RelatedTo(b, b) ||
    exists x :: x in all && x != b && RelatedTo(x, b) && x.phase == Completed && !Before(x, b)
  }

  /** x is of the same cluster, policy and method as b, all of them known. */
  predicate InGroup(x: Backup, b: Backup) {
    x.clusterLabel == b.clusterLabel != "" && x.policyLabel == b.policy && x.backupMethod == b.backupMethod != ""
  }

  /** isLatestCompletedBackup; the two answers only overlap for backups without a stop time. */
  method IsLatestCompletedBackup(all: seq<Backup>, b: Backup) returns (r: bool)
    requires b in all && DistinctNames(all)
    ensures r ==> LatestOfGroup(all, b)
    ensures !r && b.phase == Completed ==> Superseded(all, b)
    ensures r && b.end.Some? ==>
              forall x :: x in all && InGroup(x, b) && x.phase == Completed ==> x.end.Some? && x.end.value <= b.end.value
    ensures !r && b.phase == Completed && InGroup(b, b) && b.end.Some? ==>
              exists x :: x in all && InGroup(x, b) && x.phase == Completed && x != b &&
                          (x.end.Some? ==> b.end.value <= x.end.value)
  {
    if b.phase != Completed {
      return false;
    }
    var related := GetRelatedBackups(all, b);
    if |related| == 0 {
      return false;
    }
    var completed := [];
    for i := 0 to |related|
      invariant forall x :: x in completed <==> x in related[..i] && x.phase == Completed
    {
      assert related[..i + 1] == related[..i] + [related[i]];
      if related[i].phase == Completed {
        completed := completed + [related[i]];
      }
    }
    assert related[..|related|] == related;
    if |completed| == 0 {
      return false;
    }
    HeadIsLatest(completed);
    var first := SortDescending(completed)[0];
    r := first.name == b.name;
    forall x | x in all && InGroup(x, b) && x.phase == Completed && r && b.end.Some?
      ensures x.end.Some? && x.end.value <= b.end.value
    {
      NotBeforeByTime(b, x);
    }
    if !r && InGroup(b, b) && b.end.Some? && first.end.Some? {
      NotBeforeByTime(first, b);
    }
  }

  /** The type label, or what the policy's method resolves to. */
  function TypeOf(b: Backup, p: Policy): (r: Answer<Option<BackupType>>) {
    if b.typeLabel.Some? then Found(b.typeLabel)
    else if b.backupMethod in p.methodTypes then p.methodTypes[b.backupMethod]
    else Found(None)
  }

  /** When garbage collection may delete an expired backup. */
  ghost predicate MayCollect(all: seq<Backup>, b: Backup, policies: Policies) {
    b.phase != Completed ||
    match PolicyOf(policies, b.policy)
    case NotFound => true
    case Error => false
    case Found(p) =>
      match TypeOf(b, p)
      case NotFound => true
      case Error => false
      case Found(kind) => kind != Some(Incremental) && (p.retainLatest ==> Superseded(all, b))
  }

  /** When it may leave one alone: an API read failed, or the backup is completed and either
      incremental or the latest of its group under a retaining policy. */
  ghost predicate MayKeep(all: seq<Backup>, b: Backup, policies: Policies, listFails: bool) {
    b.phase == Completed &&
    match PolicyOf(policies, b.policy)
    case NotFound => false
    case Error => true
    case Found(p) =>
      match TypeOf(b, p)
      case NotFound => false
      case Error => true
      case Found(kind) => kind == Some(Incremental) || (p.retainLatest && (listFails || LatestOfGroup(all, b)))
  }

  /** isBackupDeletable. */
  method IsBackupDeletable(all: seq<Backup>, b: Backup, policies: Policies, listFails: bool)
    returns (deletable: bool, failed: bool)
    requires b in all && DistinctNames(all)
    ensures deletable && !failed ==> MayCollect(all, b, policies)
    ensures !deletable || failed ==> MayKeep(all, b, policies, listFails)
  {
    if b.phase != Completed {
      return true, false;
    }
    var policy := PolicyOf(policies, b.policy);
    if policy.NotFound? {
      return true, false;
    }
    if policy.Error? {
      return true, true;
    }
    var kind := b.typeLabel;
    if kind.None? {
      if b.backupMethod in policy.value.methodTypes {
        match policy.value.methodTypes[b.backupMethod] {
          case NotFound => return true, false;
          case Error => return false, true;
          case Found(resolved) => kind := resolved;
        }
      }
    }
    if kind == Some(Incremental) {
      return false, false;
    }
    if policy.value.retainLatest {
      if listFails {
        return true, true;
      }
      var latest := IsLatestCompletedBackup(all, b);
      if latest {
        return false, false;
      }
    }
    return true, false;
  }

  predicate Expired(b: Backup, now: int) {
    b.expiration.Some? && b.expiration.value <= now
  }

  /** The stored backups, as the collector sees and changes them. */
  class Collector {
    var store: Store

    constructor (backups: Store)
      ensures store == backups
    {
      store := backups;
    }

    /** Reconcile of the garbage collector. */
    method Reconcile(name: string, now: int, all: seq<Backup>, policies: Policies,
                     getFails: bool, listFails: bool, deleteRefused: bool)
      requires Lists(all, store) && forall n :: n in store ==> store[n].name == n
      modifies this
      ensures store == old(store) ||
              (Collects(old(store), name, now, all, policies) &&
               store == old(store)[name := old(store)[name].(marked := true)])
      ensures store != old(store) ==>
                name in old(store) && old(store)[name].expiration.Some? && old(store)[name].expiration.value <= now
      ensures name in store && store[name].expiration.Some? && store[name].expiration.value <= now && !store[name].marked ==>
                getFails || deleteRefused || MayKeep(all, store[name], policies, listFails)
    {
      if getFails || name !in store {
        return;
      }
      var b := store[name];
      if b.marked {
        return;
      }
      if b.expiration.None? || b.expiration.value > now {
        return;
      }
      assert b in all;
      var deletable, failed := IsBackupDeletable(all, b, policies, listFails);
      if !deletable || failed {
        return;
      }
      if deleteRefused {
        return;
      }
      store := store[name := b.(marked := true)];
    }
  }

  ghost predicate Collects(store: Store, name: string, now: int, all: seq<Backup>, policies: Policies) {
    name in store && !store[name].marked && Expired(store[name], now) && Lists(all, store) &&
    MayCollect(all, store[name], policies)
  }

  // ------------------------------------------------------------------- runs

  datatype Step =
    | Begin(backup: Backup)
    | Finish(name: string, end: int)
    | Fail(name: string)
    | Gc(name: string, now: int, all: seq<Backup>)
    | BeginDelete(name: string)
    | Cascade(name: string, deleted: string)
    | Remove(name: string)

  /** The labels PatchBackupObjectMeta sets before a backup runs. */
  predicate Labelled(b: Backup) {
    b.clusterLabel != "" && b.policyLabel == b.policy && b.backupMethod != "" && b.typeLabel.Some?
  }

  /** Only incrementals have a parent and a base. */
  predicate LinksFit(b: Backup) {
    b.parent != "" || b.base != "" ==> b.typeLabel == Some(Incremental)
  }

  /** The type of a backup is that of its method. */
  predicate SameKind(a: Backup, b: Backup) {
    a.policy == b.policy && a.backupMethod == b.backupMethod ==> a.typeLabel == b.typeLabel
  }

  ghost predicate KindsAgree(store: Store) {
    forall n, m :: n in store && m in store ==> SameKind(store[n], store[m])
  }

  /** The collector, the start and end of backups, and deletions as they go on: a marked backup
      turns to Deleting, marks the backups that refer to it, and is removed. */
  ghost predicate Enabled(store: Store, step: Step, policies: Policies) {
    match step
    case Begin(b) =>
      b.name !in store && b.name != "" && b.phase == Running && !b.marked && Labelled(b) && LinksFit(b) &&
      KindsAgree(store[b.name := b])
    case Finish(n, end) => n in store && store[n].phase == Running && !store[n].marked
    case Fail(n) => n in store && store[n].phase == Running && !store[n].marked
    case Gc(n, now, all) => Collects(store, n, now, all, policies)
    case BeginDelete(n) => n in store && store[n].marked
    case Cascade(n, d) =>
      n in store && d in store && store[d].phase == Deleting && store[n].policyLabel == store[d].policy &&
      Refers(store[n], d)
    case Remove(n) => n in store && store[n].phase == Deleting
  }

  function Apply(store: Store, step: Step): (r: Store)
    requires !step.Begin? ==> step.name in store
  {
    match step
    case Begin(b) => store[b.name := b]
    case Finish(n, end) => store[n := store[n].(phase := Completed, end := Some(end))]
    case Fail(n) => store[n := store[n].(phase := Failed)]
    case Gc(n, now, all) => store[n := store[n].(marked := true)]
    case BeginDelete(n) => store[n := store[n].(phase := Deleting)]
    case Cascade(n, d) => store[n := store[n].(marked := true)]
    case Remove(n) => store - {n}
  }

  ghost predicate Run(store: Store, steps: seq<Step>, policies: Policies)
    decreases |steps|
  {
    steps == [] ||
    (Enabled(store, steps[0], policies) && Run(Apply(store, steps[0]), steps[1..], policies))
  }

  ghost function After(store: Store, steps: seq<Step>, policies: Policies): (r: Store)
    requires Run(store, steps, policies)
    decreases |steps|
  {
    if steps == [] then store else After(Apply(store, steps[0]), steps[1..], policies)
  }

  predicate Rivals(x: Backup, b: Backup) {
    RelatedTo(x, b) && x.phase == Completed
  }

  /** b is stored, completed, and no completed backup of its group stopped later. */
  ghost predicate Latest(store: Store, b: Backup) {
    b.name in store && store[b.name] == b && b.phase == Completed &&
    forall n :: n in store && Rivals(store[n], b) ==> !Before(b, store[n])
  }

  predicate Retaining(policies: Policies, b: Backup) {
    var p := PolicyOf(policies, b.policy);
    p.Found? && p.value.retainLatest
  }

  /** In a non-incremental group under a retaining policy. */
  predicate Retained(policies: Policies, b: Backup) {
    Retaining(policies, b) && b.typeLabel != Some(Incremental)
  }

  predicate Sound(n: string, b: Backup) {
    b.name == n && n != "" && Labelled(b) && LinksFit(b) && (b.phase == Completed ==> b.end.Some?)
  }

  /** Every backup is labelled, and the latest of a retained group is unmarked. */
  ghost predicate Inv(store: Store, policies: Policies) {
    (forall n :: n in store ==> Sound(n, store[n])) && KindsAgree(store) &&
    (forall n :: n in store && store[n].marked && Retained(policies, store[n]) ==> !Latest(store, store[n]))
  }

  /** The collector never picks the latest backup of a group under a retaining policy. */
  lemma LatestIsNotCollected(store: Store, b: Backup, all: seq<Backup>, policies: Policies)
    requires Inv(store, policies) && Lists(all, store) && Latest(store, b) && Retaining(policies, b)
    ensures !MayCollect(all, b, policies)
  {
    assert Sound(b.name, b);
    forall x | x in all && x != b && RelatedTo(x, b) && x.phase == Completed
      ensures Before(x, b)
    {
      assert Sound(x.name, x) && Rivals(store[x.name], b);
      BeforeIsTotal(x, b);
    }
  }

  /** m stays the latest of its group, or gives way to one that stopped later. */
  ghost predicate Heir(m: Backup, x: Backup, store: Store) {
    Latest(store, x) && !x.marked && (x == m || (RelatedTo(x, m) && Before(m, x)))
  }

  /** In terms of the group and of time: x is the stored, completed and unmarked backup of the
      group of m that stopped last, and not before m. */
  ghost predicate StillProtected(m: Backup, x: Backup, store: Store) {
    x.name in store && store[x.name] == x && x.phase == Completed && !x.marked && InGroup(x, m) &&
    m.end.Some? && x.end.Some? && m.end.value <= x.end.value &&
    forall n :: n in store && InGroup(store[n], m) && store[n].phase == Completed ==>
                  store[n].end.Some? && store[n].end.value <= x.end.value
  }

  lemma HeirIsProtected(m: Backup, x: Backup, store: Store)
    requires Heir(m, x, store) && m.end.Some? && x.end.Some? && Labelled(m) && Labelled(x)
    ensures StillProtected(m, x, store)
  {
    forall n | n in store && InGroup(store[n], m) && store[n].phase == Completed
      ensures store[n].end.Some? && store[n].end.value <= x.end.value
    {
      assert Rivals(store[n], x);
      NotBeforeByTime(x, store[n]);
    }
    BeforeIsTotal(m, x);
    if x != m {
      NotBeforeByTime(x, m);
    }
  }

  /** What was not the latest does not become the latest if every rival it had is still matched
      by one that is not older. */
  lemma NotLatestAfter(store: Store, next: Store, y: Backup, z: Backup)
    requires !Latest(store, y) && y == z.(marked := y.marked) && y.name in store && store[y.name] == y
    requires forall n :: n in store && Rivals(store[n], y) ==>
                           exists m :: m in next && Rivals(next[m], z) && !Before(next[m], store[n])
    ensures !Latest(next, z)
  {
    if y.phase == Completed {
      var n :| n in store && Rivals(store[n], y) && Before(y, store[n]);
      var m :| m in next && Rivals(next[m], z) && !Before(next[m], store[n]);
      if !Before(z, next[m]) {
        NotBeforeTransitive(z, next[m], store[n]);
        assert false;
      }
    }
  }

  /** A step that keeps the completed backups up to marks keeps their rivalry. */
  lemma RivalsStay(store: Store, next: Store, y: Backup, z: Backup)
    requires y == z.(marked := y.marked)
    requires forall n :: n in store && store[n].phase == Completed ==>
                           n in next && store[n] == next[n].(marked := store[n].marked)
    ensures forall n :: n in store && Rivals(store[n], y) ==>
                          exists m :: m in next && Rivals(next[m], z) && !Before(next[m], store[n])
  {
    forall n | n in store && Rivals(store[n], y)
      ensures exists m :: m in next && Rivals(next[m], z) && !Before(next[m], store[n])
    {
      BeforeIsTotal(store[n], store[n]);
      assert Rivals(next[n], z) && !Before(next[n], store[n]);
    }
  }

  /** Marking is safe for anything but the latest of a retained group. */
  lemma MarkKeepsInv(store: Store, name: string, policies: Policies)
    requires Inv(store, policies) && name in store
    requires Retained(policies, store[name]) ==> !Latest(store, store[name])
    ensures Inv(store[name := store[name].(marked := true)], policies)
  {
    var next := store[name := store[name].(marked := true)];
    forall n | n in next
      ensures Sound(n, next[n])
    {
      assert Sound(n, store[n]);
    }
    forall n | n in next && next[n].marked && Retained(policies, next[n])
      ensures !Latest(next, next[n])
    {
      assert Sound(n, store[n]);
      RivalsStay(store, next, store[n], next[n]);
      NotLatestAfter(store, next, store[n], next[n]);
    }
  }

  lemma GcKeepsInv(store: Store, step: Step, policies: Policies)
    requires Inv(store, policies) && step.Gc? && Enabled(store, step, policies)
    ensures Inv(Apply(store, step), policies)
  {
    var b := store[step.name];
    if Retained(policies, b) && Latest(store, b) {
      LatestIsNotCollected(store, b, step.all, policies);
      assert false;
    }
    MarkKeepsInv(store, step.name, policies);
  }

  /** A cascade only reaches incrementals. */
  lemma CascadeKeepsInv(store: Store, step: Step, policies: Policies)
    requires Inv(store, policies) && step.Cascade? && Enabled(store, step, policies)
    ensures store[step.name].typeLabel == Some(Incremental)
    ensures Inv(Apply(store, step), policies)
  {
    assert Sound(step.name, store[step.name]) && Sound(step.deleted, store[step.deleted]);
    MarkKeepsInv(store, step.name, policies);
  }

  /** A step that adds or changes one unmarked backup that was not completed, or removes one. */
  ghost predicate Grows(store: Store, next: Store) {
    (forall n :: n in next ==> Sound(n, next[n])) && KindsAgree(next) &&
    (forall n :: n in store && store[n].phase == Completed ==> n in next && next[n] == store[n]) &&
    (forall n :: n in next && next[n].marked ==> n in store && next[n] == store[n])
  }

  /** A new, finished or failed backup takes no completed one away. */
  lemma GrowthIsOne(store: Store, step: Step, policies: Policies)
    requires Inv(store, policies) && Enabled(store, step, policies)
    requires step.Begin? || step.Finish? || step.Fail? || step.Remove?
    ensures Grows(store, Apply(store, step))
  {
    var next := Apply(store, step);
    forall n | n in next
      ensures Sound(n, next[n])
    {
      assert n in store ==> Sound(n, store[n]);
    }
  }

  lemma GrowthKeepsInv(store: Store, next: Store, policies: Policies)
    requires Inv(store, policies) && Grows(store, next)
    ensures Inv(next, policies)
  {
    forall n | n in next && next[n].marked && Retained(policies, next[n])
      ensures !Latest(next, next[n])
    {
      assert Sound(n, store[n]);
      RivalsStay(store, next, store[n], next[n]);
      NotLatestAfter(store, next, store[n], next[n]);
    }
  }

  /** The backup being deleted was not the latest, so the one that beat it still beats the others. */
  lemma DeleteKeepsInv(store: Store, step: Step, policies: Policies)
    requires Inv(store, policies) && step.BeginDelete? && Enabled(store, step, policies)
    ensures Inv(Apply(store, step), policies)
  {
    var next, gone := Apply(store, step), store[step.name];
    assert Sound(step.name, gone);
    forall n | n in next
      ensures Sound(n, next[n])
    {
      assert Sound(n, store[n]);
    }
    forall n | n in next && next[n].marked && Retained(policies, next[n])
      ensures !Latest(next, next[n])
    {
      var y := store[n];
      assert Sound(n, y);
      if n != step.name {
        forall k | k in store && Rivals(store[k], y)
          ensures exists m :: m in next && Rivals(next[m], y) && !Before(next[m], store[k])
        {
          StillBeaten(store, step.name, y, k, policies);
        }
        NotLatestAfter(store, next, y, y);
      }
    }
  }

  lemma StillBeaten(store: Store, gone: string, y: Backup, k: string, policies: Policies)
    requires Inv(store, policies) && gone in store && store[gone].marked
    requires y.name in store && store[y.name] == y && y.name != gone && Retained(policies, y)
    requires k in store && Rivals(store[k], y)
    ensures var next := store[gone := store[gone].(phase := Deleting)];
            exists m :: m in next && Rivals(next[m], y) && !Before(next[m], store[k])
  {
    var next := store[gone := store[gone].(phase := Deleting)];
    assert Sound(y.name, y) && Sound(k, store[k]);
    if k != gone {
      BeforeIsTotal(store[k], store[k]);
      assert Rivals(next[k], y);
    } else {
      assert Retained(policies, store[gone]);
      var m :| m in store && Rivals(store[m], store[gone]) && Before(store[gone], store[m]);
      BeforeIsTotal(store[gone], store[m]);
      assert Sound(m, store[m]) && Rivals(next[m], y);
    }
  }

  lemma StepKeepsInv(store: Store, step: Step, policies: Policies)
    requires Inv(store, policies) && Enabled(store, step, policies)
    ensures Inv(Apply(store, step), policies)
  {
    match step
    case Gc(n, now, all) => GcKeepsInv(store, step, policies);
    case BeginDelete(n) => DeleteKeepsInv(store, step, policies);
    case Cascade(n, d) => CascadeKeepsInv(store, step, policies);
    case _ =>
      GrowthIsOne(store, step, policies);
      GrowthKeepsInv(store, Apply(store, step), policies);
  }

  /** A backup that stopped later than the latest of its group is the latest now. */
  lemma NewLatest(store: Store, next: Store, m: Backup, n: string)
    requires Latest(store, m) && n in next && next == store[n := next[n]] && next[n].name == n
    requires Rivals(next[n], m) && Before(m, next[n]) && Labelled(m) && Labelled(next[n])
    ensures Latest(next, next[n])
  {
    var x := next[n];
    forall k | k in next && Rivals(next[k], x)
      ensures !Before(x, next[k])
    {
      BeforeIsTotal(m, x);
      if k == n {
        BeforeIsTotal(x, x);
      } else {
        assert Rivals(store[k], m);
        NotBeforeTransitive(x, m, store[k]);
      }
    }
  }

  /** No step touches the latest of a retained group. */
  lemma LatestStays(store: Store, step: Step, m: Backup, policies: Policies)
    requires Inv(store, policies) && Enabled(store, step, policies)
    requires Latest(store, m) && Retained(policies, m)
    ensures m.name in Apply(store, step) && Apply(store, step)[m.name] == m
  {
    if step.Gc? && step.name == m.name {
      LatestIsNotCollected(store, m, step.all, policies);
      assert false;
    }
    if step.Cascade? {
      CascadeKeepsInv(store, step, policies);
    }
  }

  /** One step: the latest of a retained group stays, unless a later one completes. */
  lemma StepKeepsLatest(store: Store, step: Step, m: Backup, policies: Policies) returns (x: Backup)
    requires Inv(store, policies) && Enabled(store, step, policies)
    requires Latest(store, m) && Retained(policies, m)
    ensures Heir(m, x, Apply(store, step))
  {
    var next := Apply(store, step);
    LatestStays(store, step, m, policies);
    assert Sound(m.name, m) && !m.marked;
    if step.Finish? && Rivals(next[step.name], m) && Before(m, next[step.name]) {
      x := next[step.name];
      assert Sound(step.name, store[step.name]);
      NewLatest(store, next, m, step.name);
    } else {
      x := m;
      forall n | n in next && Rivals(next[n], m)
        ensures !Before(m, next[n])
      {
        if n in store && store[n].phase == Completed {
          assert Rivals(store[n], m);
        }
      }
    }
  }

  /** Keep-latest over whole runs: whatever the collector, new backups, completions and cascading
      deletions do, the latest completed backup of a non-incremental group under a retaining
      policy is still there, completed and unmarked, or a later one of the group is. */
  lemma {:induction false} LatestSurvives(store: Store, steps: seq<Step>, m: Backup, policies: Policies)
    returns (x: Backup)
    requires Inv(store, policies) && Run(store, steps, policies)
    requires Latest(store, m) && Retained(policies, m)
    ensures Inv(After(store, steps, policies), policies)
    ensures Heir(m, x, After(store, steps, policies))
    ensures StillProtected(m, x, After(store, steps, policies))
    decreases |steps|
  {
    if steps == [] {
      x := m;
      assert Sound(m.name, m);
      HeirIsProtected(m, x, store);
    } else {
      var next := Apply(store, steps[0]);
      StepKeepsInv(store, steps[0], policies);
      var y := StepKeepsLatest(store, steps[0], m, policies);
      assert Sound(m.name, m) && Sound(y.name, y);
      x := LatestSurvives(next, steps[1..], y, policies);
      assert Sound(x.name, x) by {
        assert x.name in After(store, steps, policies);
      }
      if Before(m, y) && Before(y, x) {
        BeforeIsTotal(m, y);
        BeforeIsTotal(y, x);
        BeforeIsTotal(m, x);
        if !Before(m, x) {
          NotBeforeTransitive(m, x, y);
        }
      }
      HeirIsProtected(m, x, After(store, steps, policies));
    }
  }

  /** Under a retaining policy an expired, completed, non-incremental backup goes as soon as a later
      completed one of its cluster, policy and method is stored: nothing keeps it. */
  lemma LaterBackupReleases(all: seq<Backup>, b: Backup, later: Backup, policies: Policies)
    requires b in all && later in all && b.phase == Completed && later.phase == Completed
    requires InGroup(b, b) && InGroup(later, b) && b.end.Some? && later.end.Some? && b.end.value < later.end.value
    requires Retaining(policies, b) && b.typeLabel.Some? && b.typeLabel != Some(Incremental)
    ensures MayCollect(all, b, policies) && !MayKeep(all, b, policies, false)
  {
    assert RelatedTo(later, b) && Before(b, later);
    BeforeIsTotal(b, later);
  }

  /** In every run from the empty namespace the latest of each retained group is unmarked. */
  lemma {:induction false} RunKeepsInv(store: Store, steps: seq<Step>, policies: Policies)
    requires Inv(store, policies) && Run(store, steps, policies)
    ensures Inv(map[], policies) && Inv(After(store, steps, policies), policies)
    decreases |steps|
  {
    if steps != [] {
      StepKeepsInv(store, steps[0], policies);
      RunKeepsInv(Apply(store, steps[0]), steps[1..], policies);
    }
  }

  /** A backup in the store that n names as parent or base is being deleted. */
  predicate AtRisk(store: Store, n: string)
    requires n in store
  {
    exists d :: d in store && store[d].phase == Deleting && store[n].policyLabel == store[d].policy && Refers(store[n], d)
  }

  predicate IsKept(store: Store, n: string, policies: Policies) {
    n in store && !store[n].marked && store[n].phase == Completed && store[n].typeLabel == Some(Incremental) &&
    PolicyOf(policies, store[n].policy).Found?
  }

  /** n is still there, unchanged. */
  predicate Same(store: Store, next: Store, n: string)
    requires n in store
  {
    n in next && next[n] == store[n]
  }

  /** A completed, unmarked incremental can be changed by a step exactly while a backup that it
      names as parent or base is being deleted: the collector itself never deletes it, as long as
      its policy can be read. */
  lemma IncrementalAtRiskIff(store: Store, n: string, policies: Policies)
    requires IsKept(store, n, policies)
    ensures (exists step :: Enabled(store, step, policies) && !Same(store, Apply(store, step), n)) <==> AtRisk(store, n)
  {
    forall step | Enabled(store, step, policies) && !Same(store, Apply(store, step), n)
      ensures AtRisk(store, n)
    {
      OnlyCascadeChanges(store, step, n, policies);
    }
    if AtRisk(store, n) {
      var d :| d in store && store[d].phase == Deleting && store[n].policyLabel == store[d].policy && Refers(store[n], d);
      var cascade := Cascade(n, d);
      assert Enabled(store, cascade, policies) && Apply(store, cascade)[n].marked;
    }
  }

  lemma OnlyCascadeChanges(store: Store, step: Step, n: string, policies: Policies)
    requires IsKept(store, n, policies) && Enabled(store, step, policies) && !Same(store, Apply(store, step), n)
    ensures step.Cascade? && step.name == n
  {
  }

  /** No state of the run puts n at risk. */
  ghost predicate NeverAtRisk(store: Store, steps: seq<Step>, n: string, policies: Policies)
    requires Run(store, steps, policies)
    decreases |steps|
  {
    steps == [] ||
    ((n in store ==> !AtRisk(store, n)) && NeverAtRisk(Apply(store, steps[0]), steps[1..], n, policies))
  }

  /** Through every run a completed incremental stays as it is unless it comes to be at risk. */
  lemma {:induction false} IncrementalStays(store: Store, steps: seq<Step>, n: string, policies: Policies)
    requires Run(store, steps, policies) && IsKept(store, n, policies) && NeverAtRisk(store, steps, n, policies)
    ensures Same(store, After(store, steps, policies), n)
    decreases |steps|
  {
    if steps != [] {
      IncrementalAtRiskIff(store, n, policies);
      IncrementalStays(Apply(store, steps[0]), steps[1..], n, policies);
    }
  }

  /** A completed backup of policy p in repo r that has expired. */
  function Old(name: string, backupMethod: string, kind: BackupType, parent: string, end: int): (b: Backup) {
    Backup(name, "p", backupMethod, "", "p", "r", "c", "", Some(kind), Completed, "r", parent, parent,
           Some(end), Some(5), "", false, true)
  }

  /** An incremental between two full backups, based on the first. */
  const BETWEEN: Store := map["f" := Old("f", "full", Full, "", 1), "i" := Old("i", "inc", Incremental, "f", 2),
                              "g" := Old("g", "full", Full, "", 3)]

  lemma BetweenIsSound(policies: Policies)
    ensures Inv(BETWEEN, policies) && Latest(BETWEEN, BETWEEN["i"])
  {
    BeforeIsTotal(BETWEEN["i"], BETWEEN["i"]);
    forall n | n in BETWEEN
      ensures Sound(n, BETWEEN[n]) && !BETWEEN[n].marked
    {
    }
  }

  lemma OlderFullIsCollected(policies: Policies) returns (collect: Step)
    requires PolicyOf(policies, "p") == Found(Policy(true, map[]))
    ensures collect.Gc? && collect.name == "f" && Enabled(BETWEEN, collect, policies)
  {
    var f, g := BETWEEN["f"], BETWEEN["g"];
    var all := [f, BETWEEN["i"], g];
    assert !Before(g, f);
    assert g in all && Superseded(all, f);
    collect := Gc("f", 9, all);
  }

  /** Keep-latest does not extend to incremental groups: collecting an old full backup takes with
      it the incremental based on it, the latest of its group. */
  lemma LatestIncrementalIsCascaded(policies: Policies) returns (steps: seq<Step>)
    requires PolicyOf(policies, "p") == Found(Policy(true, map[]))
    ensures Inv(BETWEEN, policies) && Latest(BETWEEN, BETWEEN["i"]) && Retaining(policies, BETWEEN["i"])
    ensures Run(BETWEEN, steps, policies) && forall s :: s in steps ==> s.Gc? || s.BeginDelete? || s.Cascade?
    ensures "i" in After(BETWEEN, steps, policies) && After(BETWEEN, steps, policies)["i"].marked
  {
    BetweenIsSound(policies);
    var collect := OlderFullIsCollected(policies);
    var begin, cascade := BeginDelete("f"), Cascade("i", "f");
    var one := Apply(BETWEEN, collect);
    var two := Apply(one, begin);
    assert one["f"].marked && Enabled(two, cascade, policies);
    RunOne(two, cascade, policies);
    RunCons(one, begin, [cascade], policies);
    RunCons(BETWEEN, collect, [begin] + [cascade], policies);
    steps := [collect] + ([begin] + [cascade]);
  }

  lemma RunOne(store: Store, step: Step, policies: Policies)
    requires Enabled(store, step, policies)
    ensures Run(store, [step], policies) && After(store, [step], policies) == Apply(store, step)
  {
    assert [step][1..] == [];
  }

  lemma RunCons(store: Store, step: Step, rest: seq<Step>, policies: Policies)
    requires Enabled(store, step, policies) && Run(Apply(store, step), rest, policies)
    ensures Run(store, [step] + rest, policies)
    ensures After(store, [step] + rest, policies) == After(Apply(store, step), rest, policies)
  {
    assert ([step] + rest)[1..] == rest;
  }

  /** A user may delete the latest backup too; as long as it is still Completed it goes on hiding
      the next one. The latest unmarked backup of a retained group can be collected exactly when
      such a marked backup exists. */
  lemma UnmarkedLatestIsCollectedIff(store: Store, b: Backup, all: seq<Backup>, policies: Policies)
    requires (forall n :: n in store ==> Sound(n, store[n])) && Lists(all, store)
    requires b.name in store && store[b.name] == b && b.phase == Completed && !b.marked
    requires Retaining(policies, b) && b.typeLabel != Some(Incremental)
    requires forall n :: n in store && Rivals(store[n], b) && !store[n].marked ==> !Before(b, store[n])
    ensures MayCollect(all, b, policies) <==>
              exists n :: n in store && Rivals(store[n], b) && store[n].marked && Before(b, store[n])
  {
    assert Sound(b.name, b);
    forall x | x in all && x != b && RelatedTo(x, b) && x.phase == Completed
      ensures Before(x, b) <==> !Before(b, x)
    {
      assert Sound(x.name, store[x.name]);
      BeforeIsTotal(x, b);
    }
    if n :| n in store && Rivals(store[n], b) && store[n].marked && Before(b, store[n]) {
      assert store[n] in all by {
        assert Sound(n, store[n]);
      }
    }
  }

  /** Two expired backups of a retained group; the user has deleted the later one. */
  lemma HiddenBackupIsCollected(policies: Policies) returns (store: Store, all: seq<Backup>, b: Backup)
    requires PolicyOf(policies, "p") == Found(Policy(true, map[]))
    ensures (forall n :: n in store ==> Sound(n, store[n])) && Lists(all, store)
    ensures b in all && b.phase == Completed && !b.marked
    ensures forall n :: n in store && Rivals(store[n], b) && !store[n].marked ==> !Before(b, store[n])
    ensures Retaining(policies, b) && Collects(store, b.name, 9, all, policies)
  {
    b := Backup("a", "p", "f", "", "p", "r", "c", "", Some(Full), Completed, "r", "", "", Some(1), Some(5), "", false, true);
    var later := b.(name := "z", end := Some(2), marked := true);
    store := map["a" := b, "z" := later];
    all := [b, later];
    BeforeIsTotal(b, b);
    assert Before(b, later) && !Before(later, b) && Rivals(later, b);
    assert later in all && Superseded(all, b);
  }
}
