/** How an incremental backup finds its parent and its base.

    Sources: controllers/dataprotection/utils.go, controllers/dataprotection/backup_controller.go.
    API reads that can fail are Boolean parameters; `usable` is the set of encryption
    configurations whose secret can be read. */
module ParentChoice {
  import opened Common
  import opened Backups

  /** A backup method of a policy: the full method it builds on, and the type of its backups. */
  datatype Method = Method(compatible: string, kind: BackupType)

  /** What a search for a parent needs to know about the backup being taken. */
  datatype Wanted = Wanted(target: Backup, compatible: string, repo: string, usable: set<string>)

  datatype Choice = Parent(backup: Backup) | NoParent | Fails

  datatype Preparation = Prepared(parent: Backup, base: Backup) | Rejected

  /** ValidateParentBackup. */
  predicate ValidParent(p: Backup, w: Wanted) {
    p.phase == Completed &&
    p.policy == w.target.policy &&
    (p.backupMethod == w.target.backupMethod || p.backupMethod == w.compatible) &&
    p.end.Some? &&
    p.repo == w.repo &&
    (p.encryption == "" || p.encryption in w.usable)
  }

  /** A backup that may be considered as automatic parent: right labels, valid, right method. */
  predicate Candidate(p: Backup, w: Wanted, kind: BackupType) {
    p.policyLabel == w.target.policy && p.repoLabel == w.repo && p.typeLabel == Some(kind) &&
    ValidParent(p, w) &&
    p.backupMethod == (if kind == Incremental then w.target.backupMethod else w.compatible)
  }

  /** p is a candidate and no candidate of its type stopped later. */
  ghost predicate LatestCandidate(p: Backup, all: seq<Backup>, w: Wanted, kind: BackupType) {
    p in all && Candidate(p, w, kind) &&
    forall x :: x in all && Candidate(x, w, kind) ==> !Before(p, x)
  }

  ghost predicate HasCandidate(all: seq<Backup>, w: Wanted, kind: BackupType) {
    exists x :: x in all && Candidate(x, w, kind)
  }

  lemma LatestCandidateIsUnique(a: Backup, b: Backup, all: seq<Backup>, w: Wanted, kind: BackupType)
    requires DistinctNames(all)
    requires LatestCandidate(a, all, w, kind) && LatestCandidate(b, all, w, kind)
    ensures a == b
  {
    BeforeIsTotal(a, b);
  }

  /** The automatic choice the design asks for: the latest full backup, or the latest incremental
      if that is based on it and did not stop before it. */
  ghost predicate IsChosen(p: Backup, full: Backup, all: seq<Backup>, w: Wanted) {
    LatestCandidate(full, all, w, Full) &&
    if Continues(all, w, full) then LatestCandidate(p, all, w, Incremental) else p == full
  }

  /** Some latest incremental continues the chain of full. */
  ghost predicate Continues(all: seq<Backup>, w: Wanted, full: Backup) {
    exists inc :: LatestCandidate(inc, all, w, Incremental) && inc.base == full.name && !Before(inc, full)
  }

  /** client.List with the labels of policy, repo and type. */
  function Listed(all: seq<Backup>, policy: string, repo: string, kind: BackupType): (r: seq<Backup>)
    ensures forall b :: b in r <==>
              b in all && b.policyLabel == policy && b.repoLabel == repo && b.typeLabel == Some(kind)
  {
    if all == [] then []
    else
      var rest := Listed(all[1..], policy, repo, kind);
      assert all == [all[0]] + all[1..];
      if all[0].policyLabel == policy && all[0].repoLabel == repo && all[0].typeLabel == Some(kind)
      then [all[0]] + rest else rest
  }

  /** FilterParentBackups. */
  method FilterParentBackups(listed: seq<Backup>, w: Wanted, incremental: bool) returns (res: seq<Backup>)
    ensures forall b :: b in res <==>
              b in listed && ValidParent(b, w) &&
              b.backupMethod == (if incremental then w.target.backupMethod else w.compatible)
  {
    res := [];
    for i := 0 to |listed|
      invariant forall b :: b in res <==>
                  b in listed[..i] && ValidParent(b, w) &&
                  b.backupMethod == (if incremental then w.target.backupMethod else w.compatible)
    {
      var b := listed[i];
      assert listed[..i + 1] == listed[..i] + [b];
      if !ValidParent(b, w) {
        continue;
      }
      if incremental {
        if b.backupMethod != w.target.backupMethod {
          continue;
        }
      } else if b.backupMethod != w.compatible {
        continue;
      }
      res := res + [b];
    }
    assert listed[..|listed|] == listed;
  }

  /** x stopped no later than m; at the same time, m has the greater name. */
  predicate StoppedBy(x: Backup, m: Backup) {
    x.end.Some? && m.end.Some? && x.end.value <= m.end.value &&
    (x.end.value == m.end.value && x.name != m.name ==> Less(x.name, m.name))
  }

  /** The closure getLatestParentBackup: list, filter, sort, take the first. */
  method LatestParentBackup(all: seq<Backup>, w: Wanted, kind: BackupType) returns (latest: Option<Backup>)
    requires kind == Full || kind == Incremental
    ensures latest.None? <==> !HasCandidate(all, w, kind)
    ensures latest.Some? ==> LatestCandidate(latest.value, all, w, kind)
    ensures latest.Some? ==> forall x :: x in all && Candidate(x, w, kind) ==> StoppedBy(x, latest.value)
  {
    var filtered := FilterParentBackups(Listed(all, w.target.policy, w.repo, kind), w, kind == Incremental);
    assert forall b :: b in filtered <==> b in all && Candidate(b, w, kind);
    if |filtered| == 0 {
      return None;
    }
    assert filtered[0] in filtered;
    HeadIsLatest(filtered);
    latest := Some(SortDescending(filtered)[0]);
    forall x | x in all && Candidate(x, w, kind)
      ensures StoppedBy(x, latest.value)
    {
      NotBeforeByTime(latest.value, x);
    }
  }

  /** At one and the same time, the incremental must have the greater name. */
  predicate FollowsAt(inc: Backup, full: Backup) {
    inc.end == full.end ==> !Less(inc.name, full.name)
  }

  /** FindParentBackupIfNotSet. */
  method FindParentBackupIfNotSet(all: seq<Backup>, w: Wanted, incListFails: bool, fullListFails: bool)
    returns (r: Choice)
    requires DistinctNames(all)
    ensures r.NoParent? <==>
              !incListFails && !fullListFails && !HasCandidate(all, w, Incremental) && !HasCandidate(all, w, Full)
    ensures r.Fails? <==>
              incListFails || fullListFails || (HasCandidate(all, w, Incremental) && !HasCandidate(all, w, Full))
    ensures r.Parent? ==> exists full :: IsChosen(r.backup, full, all, w)
    ensures r.Parent? ==> r.backup.end.Some?
    ensures r.Parent? ==> forall x :: x in all && Candidate(x, w, Full) ==> x.end.Some? && x.end.value <= r.backup.end.value
    ensures !incListFails && !fullListFails ==> forall inc, full ::
              LatestCandidate(inc, all, w, Incremental) && LatestCandidate(full, all, w, Full) ==>
              r == Parent(if full.end.value <= inc.end.value && inc.base == full.name && FollowsAt(inc, full) then inc else full)
  {
    if incListFails {
      return Fails;
    }
    var inc := LatestParentBackup(all, w, Incremental);
    if fullListFails {
      return Fails;
    }
    var full := LatestParentBackup(all, w, Full);
    if inc.Some? && full.Some? {
      forall other | LatestCandidate(other, all, w, Incremental)
        ensures other == inc.value
      {
        LatestCandidateIsUnique(other, inc.value, all, w, Incremental);
      }
      forall other | LatestCandidate(other, all, w, Full)
        ensures other == full.value
      {
        LatestCandidateIsUnique(other, full.value, all, w, Full);
      }
      if !Before(inc.value, full.value) && inc.value.base == full.value.name {
        assert Continues(all, w, full.value);
        assert IsChosen(inc.value, full.value, all, w);
        return Parent(inc.value);
      }
      assert IsChosen(full.value, full.value, all, w);
      return Parent(full.value);
    }
    if full.Some? {
      assert !Continues(all, w, full.value);
      assert IsChosen(full.value, full.value, all, w);
      return Parent(full.value);
    }
    if inc.Some? {
      return Fails;
    }
    return NoParent;
  }

  function ParentName(b: Backup): (name: string) {
    if b.specParent != "" then b.specParent else b.parent
  }

  /** p may be the result of GetParentBackup; a scheduled backup must not name a parent itself. */
  ghost predicate MayBeParent(p: Backup, all: seq<Backup>, w: Wanted) {
    p in all && ValidParent(p, w) && (w.target.specParent == "" || w.target.scheduleLabel == "") &&
    if ParentName(w.target) != "" then p.name == ParentName(w.target) else exists full :: IsChosen(p, full, all, w)
  }

  /** There is never more than one backup GetParentBackup can return. */
  lemma ParentIsUnique(a: Backup, b: Backup, all: seq<Backup>, w: Wanted)
    requires DistinctNames(all) && MayBeParent(a, all, w) && MayBeParent(b, all, w)
    ensures a == b
  {
    if ParentName(w.target) == "" {
      var fullA :| IsChosen(a, fullA, all, w);
      var fullB :| IsChosen(b, fullB, all, w);
      LatestCandidateIsUnique(fullA, fullB, all, w, Full);
      if Continues(all, w, fullA) {
        LatestCandidateIsUnique(a, b, all, w, Incremental);
      }
    }
  }

  /** client.Get by name. */
  function Lookup(all: seq<Backup>, name: string): (r: Option<Backup>)
    ensures r.None? <==> forall b :: b in all ==> b.name != name
    ensures r.Some? ==> r.value in all && r.value.name == name
  {
    if all == [] then None
    else
      assert all == [all[0]] + all[1..];
      if all[0].name == name then Some(all[0]) else Lookup(all[1..], name)
  }

  /** GetParentBackup: a parent named by the spec (not for scheduled backups) or the status is
      read and validated, otherwise one is chosen; finding none is an error. */
  method GetParentBackup(all: seq<Backup>, w: Wanted, getFails: bool, incListFails: bool, fullListFails: bool)
    returns (r: Choice)
    requires DistinctNames(all)
    ensures !r.NoParent?
    ensures r.Parent? ==> MayBeParent(r.backup, all, w)
    ensures r.Parent? ==> var p := r.backup;
              p.phase == Completed && p.policy == w.target.policy && p.repo == w.repo && p.end.Some? &&
              (p.backupMethod == w.target.backupMethod || p.backupMethod == w.compatible) &&
              (p.encryption == "" || p.encryption in w.usable) &&
              (if w.target.specParent != "" then p.name == w.target.specParent && w.target.scheduleLabel == ""
               else w.target.parent != "" ==> p.name == w.target.parent)
    ensures !getFails && w.target.specParent != "" && w.target.scheduleLabel == "" ==>
              forall p |
                p in all && p.name == w.target.specParent &&
                p.phase == Completed && p.policy == w.target.policy && p.repo == w.repo && p.end.Some? &&
                (p.backupMethod == w.target.backupMethod || p.backupMethod == w.compatible) &&
                (p.encryption == "" || p.encryption in w.usable) ::
                r == Parent(p)
    ensures r.Fails? && !getFails && !incListFails && !fullListFails ==>
              forall p :: !MayBeParent(p, all, w)
  {
    var name := "";
    if w.target.specParent != "" {
      if w.target.scheduleLabel != "" {
        return Fails;
      }
      name := w.target.specParent;
    } else if w.target.parent != "" {
      name := w.target.parent;
    }
    if name != "" {
      var found := Lookup(all, name);
      if getFails || found.None? || !ValidParent(found.value, w) {
        return Fails;
      }
      return Parent(found.value);
    }
    r := FindParentBackupIfNotSet(all, w, incListFails, fullListFails);
    if r.NoParent? {
      r := Fails;
    }
    if r.Fails? && !incListFails && !fullListFails {
      forall p, full
        ensures !IsChosen(p, full, all, w)
      {
        assert !HasCandidate(all, w, Full);
      }
    }
  }

  /** What prepare4Incremental establishes about the parent and the base. */
  ghost predicate Derived(parent: Backup, base: Backup, all: seq<Backup>, w: Wanted,
                          methods: map<(string, string), Method>) {
    MayBeParent(parent, all, w) && base in all &&
    (parent.policy, parent.backupMethod) in methods &&
    match methods[(parent.policy, parent.backupMethod)].kind
    case Full => base == parent
    case Incremental => parent.base != "" && base.name == parent.base
    case _ => false
  }

  /** prepare4Incremental. */
  method Prepare4Incremental(all: seq<Backup>, w: Wanted, noRepo: bool, methods: map<(string, string), Method>,
                             getFails: bool, incListFails: bool, fullListFails: bool, baseGetFails: bool)
    returns (r: Preparation)
    requires DistinctNames(all)
    ensures r.Prepared? ==> !noRepo && Derived(r.parent, r.base, all, w, methods)
    ensures r.Rejected? && !noRepo && !getFails && !incListFails && !fullListFails && !baseGetFails ==>
              forall parent, base :: !Derived(parent, base, all, w, methods)
  {
    if noRepo {
      return Rejected;
    }
    var choice := GetParentBackup(all, w, getFails, incListFails, fullListFails);
    if !choice.Parent? {
      return Rejected;
    }
    var parent := choice.backup;
    forall other, base | Derived(other, base, all, w, methods)
      ensures other == parent
    {
      ParentIsUnique(other, parent, all, w);
    }
    if (parent.policy, parent.backupMethod) !in methods {
      return Rejected;
    }
    match methods[(parent.policy, parent.backupMethod)].kind {
      case Full =>
        return Prepared(parent, parent);
      case Incremental =>
        if parent.base == "" {
          return Rejected;
        }
        var base := Lookup(all, parent.base);
        if baseGetFails || base.None? {
          return Rejected;
        }
        return Prepared(parent, base.value);
      case _ =>
        return Rejected;
    }
  }

  /** Type labels agree with the types of the methods. */
  ghost predicate LabelsAgree(all: seq<Backup>, methods: map<(string, string), Method>) {
    forall b :: b in all && b.typeLabel.Some? ==>
                  (b.policy, b.backupMethod) in methods &&
                  methods[(b.policy, b.backupMethod)].kind == b.typeLabel.value
  }

  /** An automatically chosen parent always leads to one and the same base, the latest full
      backup, whether the parent is that backup or an incremental. */
  lemma ChosenBaseIsLatestFull(parent: Backup, base: Backup, full: Backup, all: seq<Backup>, w: Wanted,
                               methods: map<(string, string), Method>)
    requires DistinctNames(all) && LabelsAgree(all, methods)
    requires ParentName(w.target) == ""
    requires Derived(parent, base, all, w, methods)
    requires LatestCandidate(full, all, w, Full)
    ensures base == full
  {
    var latest :| IsChosen(parent, latest, all, w);
    LatestCandidateIsUnique(latest, full, all, w, Full);
    if Continues(all, w, full) {
      var inc :| LatestCandidate(inc, all, w, Incremental) && inc.base == full.name && !Before(inc, full);
      LatestCandidateIsUnique(inc, parent, all, w, Incremental);
    }
  }
}
