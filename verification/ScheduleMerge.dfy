/** Reconciling the schedule list of a BackupSchedule with its template and with the automatic
    backup settings of the cluster.

    Sources: controllers/dataprotection/backuppolicydriver_controller.go. */
module ScheduleMerge {
  import opened Common

  datatype Schedule = Schedule(
    name: string, backupMethod: string, cron: string, enabled: Option<bool>, retention: string, parameters: string)

  datatype Method = Method(name: string, compatible: string, actionSet: string, snapshot: Option<bool>)

  datatype BackupType = Full | Continuous | Incremental | OtherType

  /** The cluster's backup settings; an absent cron expression or retention period is "". */
  datatype ClusterBackup = ClusterBackup(
    enabled: Option<bool>, retention: string, backupMethod: string, cron: string, pitr: Option<bool>,
    continuousMethod: string, incremental: Option<bool>, incrementalCron: string)

  /** What a merge reads: the cluster's settings, the methods of the backup policy, and the types
      of the action sets that can be fetched. */
  datatype Env = Env(backup: ClusterBackup, methods: seq<Method>, actionSets: map<string, BackupType>)

  const DEFAULT_CRON := "0 18 * * *"

  function FindMethod(methods: seq<Method>, name: string): Option<Method> {
    if methods == [] then None
    else if methods[0].name == name then Some(methods[0])
    else FindMethod(methods[1..], name)
  }

  // ------------------------------------------------------------------ merge

  /** mergeSchedulePolicy: set fields of src override. */
  function Override(src: Schedule, dst: Schedule): Schedule {
    dst.(enabled := if src.enabled.Some? then src.enabled else dst.enabled,
         retention := if src.retention != "" then src.retention else dst.retention,
         backupMethod := if src.backupMethod != "" then src.backupMethod else dst.backupMethod,
         cron := if src.cron != "" then src.cron else dst.cron)
  }

  function ClusterSchedule(b: ClusterBackup): Schedule {
    Schedule("", b.backupMethod, b.cron, b.enabled, b.retention, "")
  }

  function IncrementalSchedule(b: ClusterBackup): Schedule {
    Schedule("", "", b.incrementalCron, b.incremental, b.retention, "")
  }

  /** The flags of the loop: cluster method seen, PITR method synced, incremental method synced. */
  datatype Flags = Flags(exist: bool, pitr: bool, inc: bool)

  const NO_FLAGS := Flags(false, false, false)

  /** How an entry that does not use the cluster's method resolves. */
  datatype Resolution = Unresolved | Snapshot | NoAction | Typed(compatible: string, backupType: BackupType)

  function Resolve(env: Env, backupMethod: string): Resolution {
    var m := FindMethod(env.methods, backupMethod);
    if m.None? then Unresolved
    else if m.value.actionSet == "" then (if m.value.snapshot == Some(true) then Snapshot else NoAction)
    else if m.value.actionSet !in env.actionSets then Unresolved
    else Typed(m.value.compatible, env.actionSets[m.value.actionSet])
  }

  function Disabled(s: Schedule): Schedule {
    s.(enabled := Some(false))
  }

  function MergeContinuous(b: ClusterBackup, s: Schedule, f: Flags): (Schedule, Flags) {
    if b.pitr.None? then (s, f)
    else if b.pitr == Some(false) || f.pitr || (b.continuousMethod != "" && b.continuousMethod != s.backupMethod)
    then (Disabled(s), f)
    else (s.(enabled := b.pitr, retention := if b.retention != "" then b.retention else s.retention), f.(pitr := true))
  }

  function MergeIncremental(b: ClusterBackup, compatible: string, s: Schedule, f: Flags): (Schedule, Flags) {
    if b.backupMethod == "" || compatible != b.backupMethod then (Disabled(s), f)
    else if b.incremental.Some? && !f.inc then (Override(IncrementalSchedule(b), s), f.(inc := true))
    else (s, f)
  }

  /** One pass of the merge loop over one entry. */
  function MergeEntry(env: Env, s: Schedule, f: Flags): (Schedule, Flags) {
    var b := env.backup;
    if s.backupMethod == b.backupMethod then (Override(ClusterSchedule(b), s), f.(exist := true))
    else match Resolve(env, s.backupMethod)
      case Unresolved => (s, f)
      case NoAction => (s, f)
      case Snapshot => (if b.enabled == Some(true) then Disabled(s) else s, f)
      case Typed(compatible, backupType) =>
        match backupType
        case Continuous => MergeContinuous(b, s, f)
        case Incremental => MergeIncremental(b, compatible, s, f)
        case Full => (if b.enabled == Some(true) then Disabled(s) else s, f)
        case OtherType => (s, f)
  }

  function MergeAll(env: Env, entries: seq<Schedule>, f: Flags): (r: (seq<Schedule>, Flags))
    ensures |r.0| == |entries|
  {
    if entries == [] then ([], f)
    else
      var (e, g) := MergeEntry(env, entries[0], f);
      var (rest, h) := MergeAll(env, entries[1..], g);
      ([e] + rest, h)
  }

  /** The entry that is appended when no entry uses the cluster's method. */
  function Appended(b: ClusterBackup): Schedule {
    ClusterSchedule(b).(cron := if b.cron == "" then DEFAULT_CRON else b.cron)
  }

  /** The list after the merge loop and the append. */
  function Merge(env: Env, entries: seq<Schedule>): seq<Schedule> {
    var (r, f) := MergeAll(env, entries, NO_FLAGS);
    if f.exist then r else r + [Appended(env.backup)]
  }

  /** The merge does nothing unless the cluster has backup settings, and the backup policy has
      the method they name. */
  function Merged(env: Option<Env>, entries: seq<Schedule>): seq<Schedule> {
    if env.Some? && FindMethod(env.value.methods, env.value.backup.backupMethod).Some?
    then Merge(env.value, entries) else entries
  }

  // ------------------------------------------------------------------- sync

  /** GetScheduleName. */
  function ScheduleName(s: Schedule): string {
    if s.name != "" then s.name else s.backupMethod
  }

  function Named(s: Schedule): Schedule {
    s.(name := ScheduleName(s))
  }

  function NamedAll(entries: seq<Schedule>): (r: seq<Schedule>)
    ensures |r| == |entries| && forall i :: 0 <= i < |r| ==> r[i] == Named(entries[i])
  {
    if entries == [] then [] else [Named(entries[0])] + NamedAll(entries[1..])
  }

  function Names(entries: seq<Schedule>): set<string> {
    set s | s in entries :: s.name
  }

  /** The template schedules whose name is missing. */
  function Missing(template: seq<Schedule>, names: set<string>): seq<Schedule> {
    if template == [] then []
    else (if ScheduleName(template[0]) in names then [] else [Named(template[0])]) + Missing(template[1..], names)
  }

  function Synced(template: seq<Schedule>, entries: seq<Schedule>): seq<Schedule> {
    NamedAll(entries) + Missing(template, Names(NamedAll(entries)))
  }

  lemma MissingFrom(template: seq<Schedule>, i: nat, names: set<string>, front: seq<Schedule>)
    requires i < |template|
    ensures front + Missing(template[i..], names) ==
            (if ScheduleName(template[i]) in names then front else front + [Named(template[i])])
            + Missing(template[i + 1..], names)
  {
    var later := Missing(template[i + 1..], names);
    assert template[i..][0] == template[i] && template[i..][1..] == template[i + 1..];
    if ScheduleName(template[i]) !in names {
      assert front + ([Named(template[i])] + later) == (front + [Named(template[i])]) + later;
    }
  }

  // ------------------------------------------------------- the schedule object

  class BackupSchedule {
    var schedules: seq<Schedule>

    constructor (schedules: seq<Schedule>)
      ensures this.schedules == schedules
    {
      this.schedules := schedules;
    }

    /** Give unnamed entries the name of their method, and collect the names. */
    method FillNames() returns (names: set<string>)
      modifies this
      ensures schedules == NamedAll(old(schedules)) && names == Names(schedules)
    {
      names := {};
      for i := 0 to |schedules|
        invariant |schedules| == |old(schedules)|
        invariant forall j :: 0 <= j < i ==> schedules[j] == Named(old(schedules)[j])
        invariant forall j :: i <= j < |schedules| ==> schedules[j] == old(schedules)[j]
        invariant names == Names(schedules[..i])
      {
        ghost var before := schedules;
        if schedules[i].name == "" {
          schedules := schedules[i := schedules[i].(name := schedules[i].backupMethod)];
        }
        assert schedules[..i + 1] == before[..i] + [schedules[i]];
        names := names + {schedules[i].name};
      }
      assert schedules[..|schedules|] == schedules;
    }

    method SyncBackupSchedule(template: seq<Schedule>)
      modifies this
      ensures schedules == Synced(template, old(schedules))
    {
      var names := FillNames();
      ghost var base := schedules;
      for i := 0 to |template|
        invariant base + Missing(template, names) == schedules + Missing(template[i..], names)
      {
        MissingFrom(template, i, names, schedules);
        if ScheduleName(template[i]) !in names {
          schedules := schedules + [Named(template[i])];
        }
      }
      assert template[|template|..] == [];
    }

    /** The body of the merge loop for entry i. */
    method MergeAt(env: Env, i: nat, flags: Flags) returns (next: Flags)
      requires i < |schedules|
      modifies this
      ensures schedules == old(schedules)[i := MergeEntry(env, old(schedules)[i], flags).0]
      ensures next == MergeEntry(env, old(schedules)[i], flags).1
    {
      var b, s := env.backup, schedules[i];
      next := flags;
      if s.backupMethod == b.backupMethod {
        schedules := schedules[i := Override(ClusterSchedule(b), s)];
        next := next.(exist := true);
        return;
      }
      var m := FindMethod(env.methods, s.backupMethod);
      if m.None? {
        return;
      }
      if m.value.actionSet == "" {
        if m.value.snapshot == Some(true) && b.enabled == Some(true) {
          schedules := schedules[i := s.(enabled := Some(false))];
        }
        return;
      }
      if m.value.actionSet !in env.actionSets {
        return;
      }
      match env.actionSets[m.value.actionSet] {
        case Continuous =>
          if b.pitr.None? {
            return;
          }
          if b.pitr == Some(false) || flags.pitr || (b.continuousMethod != "" && b.continuousMethod != s.backupMethod) {
            schedules := schedules[i := s.(enabled := Some(false))];
            return;
          }
          s := s.(enabled := b.pitr);
          if b.retention != "" {
            s := s.(retention := b.retention);
          }
          schedules := schedules[i := s];
          next := next.(pitr := true);
        case Incremental =>
          if b.backupMethod == "" || m.value.compatible != b.backupMethod {
            schedules := schedules[i := s.(enabled := Some(false))];
          } else if b.incremental.Some? && !flags.inc {
            schedules := schedules[i := Override(IncrementalSchedule(b), s)];
            next := next.(inc := true);
          }
        case Full =>
          if b.enabled == Some(true) {
            schedules := schedules[i := s.(enabled := Some(false))];
          }
        case OtherType =>
      }
    }

    method MergeLoop(env: Env) returns (flags: Flags)
      modifies this
      ensures schedules == MergeAll(env, old(schedules), NO_FLAGS).0
      ensures flags == MergeAll(env, old(schedules), NO_FLAGS).1
    {
      flags := NO_FLAGS;
      for i := 0 to |schedules|
        invariant |schedules| == |old(schedules)|
        invariant forall j :: i <= j < |schedules| ==> schedules[j] == old(schedules)[j]
        invariant schedules[..i] == MergeAll(env, old(schedules)[..i], NO_FLAGS).0
        invariant flags == MergeAll(env, old(schedules)[..i], NO_FLAGS).1
      {
        ghost var before := schedules;
        MergeAllSnoc(env, old(schedules)[..i], old(schedules)[i], NO_FLAGS);
        assert old(schedules)[..i + 1] == old(schedules)[..i] + [old(schedules)[i]];
        flags := MergeAt(env, i, flags);
        assert schedules[..i + 1] == before[..i] + [schedules[i]];
      }
      assert old(schedules)[..|schedules|] == old(schedules) && schedules[..|schedules|] == schedules;
    }

    method MergeClusterBackup(env: Option<Env>)
      modifies this
      ensures schedules == Merged(env, old(schedules))
    {
      if env.None? || FindMethod(env.value.methods, env.value.backup.backupMethod).None? {
        return;
      }
      var flags := MergeLoop(env.value);
      if !flags.exist {
        var sp := ClusterSchedule(env.value.backup);
        if sp.cron == "" {
          sp := sp.(cron := DEFAULT_CRON);
        }
        schedules := schedules + [sp];
      }
    }
  }

  // ---------------------------------------------------------------- stability

  /** Merging keeps the entries in place, with their names and methods. */
  lemma {:induction false} MergeAllKeeps(env: Env, entries: seq<Schedule>, f: Flags, i: nat)
    requires i < |entries|
    ensures var r := MergeAll(env, entries, f).0;
      r[i].name == entries[i].name && r[i].backupMethod == entries[i].backupMethod && r[i].parameters == entries[i].parameters
  {
    if i > 0 {
      MergeAllKeeps(env, entries[1..], MergeEntry(env, entries[0], f).1, i - 1);
    }
  }

  lemma MergeEntryIdempotent(env: Env, s: Schedule, f: Flags)
    ensures MergeEntry(env, MergeEntry(env, s, f).0, f) == MergeEntry(env, s, f)
  {
  }

  lemma {:induction false} MergeAllIdempotent(env: Env, entries: seq<Schedule>, f: Flags)
    ensures MergeAll(env, MergeAll(env, entries, f).0, f) == MergeAll(env, entries, f)
  {
    if entries != [] {
      var (e, g) := MergeEntry(env, entries[0], f);
      MergeEntryIdempotent(env, entries[0], f);
      MergeAllIdempotent(env, entries[1..], g);
      assert MergeAll(env, entries, f).0[1..] == MergeAll(env, entries[1..], g).0;
    }
  }

  lemma {:induction false} MergeAllAppend(env: Env, a: seq<Schedule>, b: seq<Schedule>, f: Flags)
    ensures MergeAll(env, a + b, f) ==
      (MergeAll(env, a, f).0 + MergeAll(env, b, MergeAll(env, a, f).1).0,
       MergeAll(env, b, MergeAll(env, a, f).1).1)
  {
    if a == [] {
      assert a + b == b;
      assert [] + MergeAll(env, b, f).0 == MergeAll(env, b, f).0;
    } else {
      var (e, g) := MergeEntry(env, a[0], f);
      assert (a + b)[1..] == a[1..] + b;
      MergeAllAppend(env, a[1..], b, g);
      var (x, h) := MergeAll(env, a[1..], g);
      assert [e] + (x + MergeAll(env, b, h).0) == ([e] + x) + MergeAll(env, b, h).0;
    }
  }

  lemma MergeOne(env: Env, s: Schedule, f: Flags)
    ensures MergeAll(env, [s], f) == ([MergeEntry(env, s, f).0], MergeEntry(env, s, f).1)
  {
    var (e, g) := MergeEntry(env, s, f);
    assert [s][1..] == [];
    assert MergeAll(env, [], g) == ([], g);
    assert [e] + [] == [e];
  }

  lemma MergeAllSnoc(env: Env, a: seq<Schedule>, s: Schedule, f: Flags)
    ensures var (r, g) := MergeAll(env, a, f);
      MergeAll(env, a + [s], f) == (r + [MergeEntry(env, s, g).0], MergeEntry(env, s, g).1)
  {
    MergeAllAppend(env, a, [s], f);
    MergeOne(env, s, MergeAll(env, a, f).1);
  }

  /** An entry with the cluster's method makes the flag, and nothing else does. */
  lemma {:induction false} ExistIff(env: Env, entries: seq<Schedule>, f: Flags)
    ensures MergeAll(env, entries, f).1.exist <==>
            f.exist || exists s :: s in entries && s.backupMethod == env.backup.backupMethod
  {
    if entries != [] {
      ExistIff(env, entries[1..], MergeEntry(env, entries[0], f).1);
      assert forall s :: s in entries <==> s == entries[0] || s in entries[1..];
    }
  }

  /** Merging twice is merging once. */
  lemma MergeIdempotent(env: Option<Env>, entries: seq<Schedule>)
    ensures Merged(env, Merged(env, entries)) == Merged(env, entries)
  {
    if env.Some? && FindMethod(env.value.methods, env.value.backup.backupMethod).Some? {
      var e := env.value;
      var (r, f) := MergeAll(e, entries, NO_FLAGS);
      MergeAllIdempotent(e, entries, NO_FLAGS);
      if !f.exist {
        var last := Appended(e.backup);
        MergeAllAppend(e, r, [last], NO_FLAGS);
        assert MergeEntry(e, last, f) == (last, f.(exist := true));
        assert MergeAll(e, [last], f).0 == [last];
      }
    }
  }

  /** One reconcile of the schedule list. */
  function Round(template: seq<Schedule>, env: Option<Env>, entries: seq<Schedule>): seq<Schedule> {
    Merged(env, Synced(template, entries))
  }

  predicate AllNamed(entries: seq<Schedule>) {
    forall i :: 0 <= i < |entries| ==> Named(entries[i]) == entries[i]
  }

  lemma {:induction false} MissingNothing(template: seq<Schedule>, names: set<string>)
    requires forall t :: t in template ==> ScheduleName(t) in names
    ensures Missing(template, names) == []
  {
    if template != [] {
      MissingNothing(template[1..], names);
    }
  }

  lemma {:induction false} MissingAddsNames(template: seq<Schedule>, names: set<string>, t: Schedule)
    requires t in template
    ensures ScheduleName(t) in names || Named(t) in Missing(template, names)
  {
    if t != template[0] {
      MissingAddsNames(template[1..], names, t);
    }
  }

  lemma {:induction false} MissingAreNamed(template: seq<Schedule>, names: set<string>)
    ensures AllNamed(Missing(template, names))
  {
    if template != [] {
      MissingAreNamed(template[1..], names);
    }
  }

  lemma {:induction false} MissingIs(template: seq<Schedule>, names: set<string>, s: Schedule)
    ensures s in Missing(template, names) <==>
            exists t :: t in template && s == t.(name := if t.name != "" then t.name else t.backupMethod) && s.name !in names
  {
    if template != [] {
      MissingIs(template[1..], names, s);
      assert forall t :: t in template <==> t == template[0] || t in template[1..];
    }
  }

  /** Syncing keeps the entries in front, with names where they had none; what it adds are the
      template's schedules whose name no entry has. */
  lemma SyncedIs(template: seq<Schedule>, entries: seq<Schedule>, s: Schedule)
    ensures var r := Synced(template, entries);
      && |r| >= |entries|
      && (forall i :: 0 <= i < |entries| ==>
            r[i] == entries[i].(name := if entries[i].name != "" then entries[i].name else entries[i].backupMethod))
      && (s in r[|entries|..] <==>
            (exists t :: t in template && s == t.(name := if t.name != "" then t.name else t.backupMethod)) &&
            forall i :: 0 <= i < |entries| ==> r[i].name != s.name)
  {
    var named := NamedAll(entries);
    var r := Synced(template, entries);
    MissingIs(template, Names(named), s);
    assert r[|entries|..] == Missing(template, Names(named));
    assert forall i :: 0 <= i < |entries| ==> r[i] == named[i];
  }

  /** Every template schedule has an entry of its name. */
  ghost predicate Covers(entries: seq<Schedule>, template: seq<Schedule>) {
    forall t :: t in template ==> exists i :: 0 <= i < |entries| && entries[i].name == ScheduleName(t) && Named(entries[i]) == entries[i]
  }

  lemma SyncedCovers(template: seq<Schedule>, entries: seq<Schedule>)
    ensures Covers(Synced(template, entries), template) && AllNamed(Synced(template, entries))
  {
    var named := NamedAll(entries);
    var names := Names(named);
    var r := Synced(template, entries);
    MissingAreNamed(template, names);
    forall t | t in template
      ensures exists i :: 0 <= i < |r| && r[i].name == ScheduleName(t) && Named(r[i]) == r[i]
    {
      MissingAddsNames(template, names, t);
      if ScheduleName(t) in names {
        var s :| s in named && s.name == ScheduleName(t);
        var i :| 0 <= i < |named| && named[i] == s;
        assert r[i] == s;
      } else {
        assert Named(t) in r;
      }
    }
  }

  lemma MergedKeeps(env: Option<Env>, entries: seq<Schedule>, i: nat)
    requires i < |entries|
    ensures |Merged(env, entries)| >= |entries|
    ensures Merged(env, entries)[i].name == entries[i].name
    ensures Merged(env, entries)[i].backupMethod == entries[i].backupMethod
  {
    if env.Some? {
      MergeAllKeeps(env.value, entries, NO_FLAGS, i);
    }
  }

  lemma MergedCovers(template: seq<Schedule>, env: Option<Env>, entries: seq<Schedule>)
    requires Covers(entries, template)
    ensures Covers(Merged(env, entries), template)
  {
    var r := Merged(env, entries);
    forall t | t in template
      ensures exists i :: 0 <= i < |r| && r[i].name == ScheduleName(t) && Named(r[i]) == r[i]
    {
      var i :| 0 <= i < |entries| && entries[i].name == ScheduleName(t) && Named(entries[i]) == entries[i];
      MergedKeeps(env, entries, i);
    }
  }

  /** Once the template is covered, syncing only fills in names. */
  lemma SyncedWhenCovered(template: seq<Schedule>, entries: seq<Schedule>)
    requires Covers(entries, template)
    ensures Synced(template, entries) == NamedAll(entries)
  {
    var names := Names(NamedAll(entries));
    forall t | t in template
      ensures ScheduleName(t) in names
    {
      var i :| 0 <= i < |entries| && entries[i].name == ScheduleName(t) && Named(entries[i]) == entries[i];
      assert NamedAll(entries)[i] in NamedAll(entries);
    }
    MissingNothing(template, names);
  }

  /** The merge is active, and no entry uses the cluster's method yet. */
  ghost predicate Appends(env: Option<Env>, entries: seq<Schedule>) {
    && env.Some? && FindMethod(env.value.methods, env.value.backup.backupMethod).Some?
    && forall s :: s in entries ==> s.backupMethod != env.value.backup.backupMethod
  }

  lemma MergedShape(env: Option<Env>, entries: seq<Schedule>)
    ensures !Appends(env, entries) ==> |Merged(env, entries)| == |entries|
    ensures Appends(env, entries) ==>
      |Merged(env, entries)| == |entries| + 1 && Merged(env, entries)[|entries|] == Appended(env.value.backup)
  {
    if env.Some? {
      ExistIff(env.value, entries, NO_FLAGS);
    }
  }

  lemma MergedNeverAppendsAgain(env: Option<Env>, entries: seq<Schedule>)
    ensures !Appends(env, NamedAll(Merged(env, entries)))
  {
    var r := Merged(env, entries);
    MergedShape(env, entries);
    if Appends(env, entries) {
      assert NamedAll(r)[|entries|].backupMethod == env.value.backup.backupMethod;
    } else if env.Some? && FindMethod(env.value.methods, env.value.backup.backupMethod).Some? {
      var i :| 0 <= i < |entries| && entries[i].backupMethod == env.value.backup.backupMethod;
      MergedKeeps(env, entries, i);
      assert NamedAll(r)[i].backupMethod == env.value.backup.backupMethod;
    }
  }

  /** A round on a list that is complete and named changes nothing but merged fields. */
  lemma SecondRound(template: seq<Schedule>, env: Option<Env>, entries: seq<Schedule>)
    ensures var one := Round(template, env, entries);
      Round(template, env, one) == Merged(env, NamedAll(one)) && AllNamed(Round(template, env, one))
      && Covers(Round(template, env, one), template)
  {
    var synced := Synced(template, entries);
    var one := Round(template, env, entries);
    SyncedCovers(template, entries);
    MergedCovers(template, env, synced);
    SyncedWhenCovered(template, one);
    MergedNeverAppendsAgain(env, synced);
    MergedShape(env, NamedAll(one));
    var two := Merged(env, NamedAll(one));
    forall i | 0 <= i < |two|
      ensures Named(two[i]) == two[i]
    {
      MergedKeeps(env, NamedAll(one), i);
    }
    SyncedCovers(template, one);
    MergedCovers(template, env, Synced(template, one));
  }

  /** Schedule reconcile stability: for unchanged cluster, template and action sets, the list is a
      fixed point after at most two rounds. */
  lemma StableAfterTwoRounds(template: seq<Schedule>, env: Option<Env>, entries: seq<Schedule>)
    ensures var two := Round(template, env, Round(template, env, entries));
      Round(template, env, two) == two
  {
    var one := Round(template, env, entries);
    var two := Round(template, env, one);
    SecondRound(template, env, entries);
    SyncedWhenCovered(template, two);
    assert NamedAll(two) == two;
    MergeIdempotent(env, NamedAll(one));
  }

  lemma AppendedNeedsName(template: seq<Schedule>, env: Option<Env>, entries: seq<Schedule>)
    requires Appends(env, Synced(template, entries)) && env.value.backup.backupMethod != ""
    ensures Round(template, env, Round(template, env, entries)) != Round(template, env, entries)
  {
    var synced, one := Synced(template, entries), Round(template, env, entries);
    MergedShape(env, synced);
    assert one[|synced|].name == "";
    SecondRound(template, env, entries);
    MergedKeeps(env, NamedAll(one), |synced|);
  }

  lemma NothingLeftToName(template: seq<Schedule>, env: Option<Env>, entries: seq<Schedule>)
    requires !Appends(env, Synced(template, entries)) || env.value.backup.backupMethod == ""
    ensures Round(template, env, Round(template, env, entries)) == Round(template, env, entries)
  {
    var synced, one := Synced(template, entries), Round(template, env, entries);
    SyncedCovers(template, entries);
    MergedShape(env, synced);
    forall i | 0 <= i < |one|
      ensures Named(one[i]) == one[i]
    {
      if i < |synced| {
        MergedKeeps(env, synced, i);
      }
    }
    assert NamedAll(one) == one;
    SecondRound(template, env, entries);
    MergeIdempotent(env, synced);
  }

  /** One round is enough exactly when it appends no entry, or one whose method is empty: the
      appended entry gets its name a round later. */
  lemma StableAfterOneRoundIff(template: seq<Schedule>, env: Option<Env>, entries: seq<Schedule>)
    ensures Round(template, env, Round(template, env, entries)) == Round(template, env, entries) <==>
      !Appends(env, Synced(template, entries)) || env.value.backup.backupMethod == ""
  {
    if Appends(env, Synced(template, entries)) && env.value.backup.backupMethod != "" {
      AppendedNeedsName(template, env, entries);
    } else {
      NothingLeftToName(template, env, entries);
    }
  }

  // --------------------------------------------------------------- selection

  /** The entry is enabled and does not use the cluster's method. */
  predicate EnabledOther(env: Env, s: Schedule) {
    s.enabled == Some(true) && s.backupMethod != env.backup.backupMethod
  }

  /** Number of enabled continuous entries other than the cluster's method. */
  function ContinuousCount(env: Env, entries: seq<Schedule>): nat {
    if entries == [] then 0
    else
      (if EnabledOther(env, entries[0]) && IsContinuous(env, entries[0]) then 1 else 0)
      + ContinuousCount(env, entries[1..])
  }

  /** What may stay enabled beside the cluster's method. */
  predicate MayStay(env: Env, s: Schedule) {
    EnabledOther(env, s) ==>
      match Resolve(env, s.backupMethod)
      case Snapshot => false
      case Typed(compatible, backupType) =>
        !backupType.Full? && (backupType.Incremental? ==> compatible == env.backup.backupMethod != "")
      case _ => true
  }

  predicate IsContinuous(env: Env, s: Schedule) {
    Resolve(env, s.backupMethod).Typed? && Resolve(env, s.backupMethod).backupType.Continuous?
  }

  lemma MergeEntrySelects(env: Env, s: Schedule, f: Flags)
    requires env.backup.enabled == Some(true)
    ensures var (e, g) := MergeEntry(env, s, f);
      && MayStay(env, e)
      && (EnabledOther(env, e) && IsContinuous(env, e) ==>
            && env.backup.pitr != Some(false)
            && (env.backup.pitr == Some(true) ==> !f.pitr && g.pitr))
      && (f.pitr ==> g.pitr)
  {
  }

  lemma {:induction false} MergeAllSelects(env: Env, entries: seq<Schedule>, f: Flags)
    requires env.backup.enabled == Some(true)
    ensures forall s :: s in MergeAll(env, entries, f).0 ==> MayStay(env, s)
    ensures env.backup.pitr == Some(false) ==> ContinuousCount(env, MergeAll(env, entries, f).0) == 0
    ensures env.backup.pitr == Some(true) ==>
              ContinuousCount(env, MergeAll(env, entries, f).0) <= if f.pitr then 0 else 1
  {
    if entries != [] {
      var (e, g) := MergeEntry(env, entries[0], f);
      MergeEntrySelects(env, entries[0], f);
      MergeAllSelects(env, entries[1..], g);
      assert MergeAll(env, entries, f).0[1..] == MergeAll(env, entries[1..], g).0;
    }
  }

  lemma {:induction false} CountAppend(env: Env, a: seq<Schedule>, s: Schedule)
    requires s.backupMethod == env.backup.backupMethod
    ensures ContinuousCount(env, a + [s]) == ContinuousCount(env, a)
  {
    if a != [] {
      assert (a + [s])[1..] == a[1..] + [s];
      CountAppend(env, a[1..], s);
    } else {
      assert a + [s] == [s];
    }
  }

  /** Schedule selection with automatic backup on: enabled full and snapshot entries use the
      cluster's method, enabled incrementals are compatible with it, and besides it at most one
      continuous entry is enabled with PITR on, none with PITR off. */
  lemma MergeSelects(env: Env, entries: seq<Schedule>)
    requires env.backup.enabled == Some(true)
    ensures forall s :: s in Merge(env, entries) ==> MayStay(env, s)
    ensures env.backup.pitr == Some(false) ==> ContinuousCount(env, Merge(env, entries)) == 0
    ensures env.backup.pitr == Some(true) ==> ContinuousCount(env, Merge(env, entries)) <= 1
    ensures exists s :: s in Merge(env, entries) && s.backupMethod == env.backup.backupMethod && s.enabled == Some(true)
  {
    var (r, f) := MergeAll(env, entries, NO_FLAGS);
    MergeAllSelects(env, entries, NO_FLAGS);
    ExistIff(env, entries, NO_FLAGS);
    if f.exist {
      ClusterEntryEnabled(env, entries, NO_FLAGS);
    } else {
      var last := Appended(env.backup);
      CountAppend(env, r, last);
      assert last in Merge(env, entries);
    }
  }

  lemma {:induction false} ClusterEntryEnabled(env: Env, entries: seq<Schedule>, f: Flags)
    requires env.backup.enabled == Some(true)
    requires exists s :: s in entries && s.backupMethod == env.backup.backupMethod
    ensures exists s :: s in MergeAll(env, entries, f).0 && s.backupMethod == env.backup.backupMethod && s.enabled == Some(true)
  {
    var (e, g) := MergeEntry(env, entries[0], f);
    assert e in MergeAll(env, entries, f).0;
    if entries[0].backupMethod != env.backup.backupMethod {
      ClusterEntryEnabled(env, entries[1..], g);
    }
  }

  // ---------------------------------------------------------- exact selection

  /** The first method of that name is at k. */
  predicate MethodAt(methods: seq<Method>, name: string, k: nat) {
    k < |methods| && methods[k].name == name && forall j :: 0 <= j < k ==> methods[j].name != name
  }

  lemma {:induction false} FindMethodIs(methods: seq<Method>, name: string) returns (k: nat)
    ensures FindMethod(methods, name).Some? <==> exists m :: m in methods && m.name == name
    ensures FindMethod(methods, name).Some? ==> MethodAt(methods, name, k) && FindMethod(methods, name).value == methods[k]
  {
    k := 0;
    if methods != [] && methods[0].name != name {
      var rest := methods[1..];
      k := FindMethodIs(rest, name);
      k := k + 1;
      assert forall j :: 1 <= j < |methods| ==> methods[j] == rest[j - 1];
    }
  }

  /** The method of that name runs an action set of that type. */
  ghost predicate HasType(env: Env, name: string, compatible: string, backupType: BackupType) {
    exists k: nat :: MethodAt(env.methods, name, k) && env.methods[k].compatible == compatible &&
                env.methods[k].actionSet != "" && env.methods[k].actionSet in env.actionSets &&
                env.actionSets[env.methods[k].actionSet] == backupType
  }

  lemma ResolveIs(env: Env, name: string, compatible: string, backupType: BackupType)
    ensures Resolve(env, name) == Typed(compatible, backupType) <==> HasType(env, name, compatible, backupType)
  {
    var k := FindMethodIs(env.methods, name);
    forall a: nat, b: nat | MethodAt(env.methods, name, a) && MethodAt(env.methods, name, b)
      ensures a == b
    {
    }
  }

  /** What the merge does to entry i depends on the entries before it through the flags only. */
  lemma MergedAt(env: Env, entries: seq<Schedule>, i: nat)
    requires i < |entries|
    ensures MergeAll(env, entries, NO_FLAGS).0[i] ==
            MergeEntry(env, entries[i], MergeAll(env, entries[..i], NO_FLAGS).1).0
  {
    MergeAllAppend(env, entries[..i], entries[i..], NO_FLAGS);
    assert entries[..i] + entries[i..] == entries;
  }

  /** A continuous entry that the cluster's PITR setting may pick: of the named method, if one is
      named. */
  ghost predicate MayBePitr(env: Env, s: Schedule) {
    s.backupMethod != env.backup.backupMethod &&
    (exists c :: HasType(env, s.backupMethod, c, Continuous)) &&
    (env.backup.continuousMethod == "" || env.backup.continuousMethod == s.backupMethod)
  }

  /** An incremental entry that builds on the cluster's method. */
  ghost predicate MayBeIncremental(env: Env, s: Schedule) {
    s.backupMethod != env.backup.backupMethod && env.backup.backupMethod != "" &&
    HasType(env, s.backupMethod, env.backup.backupMethod, Incremental)
  }

  lemma TypesAreUnique(env: Env, s: Schedule)
    ensures Resolve(env, s.backupMethod).Typed? ==>
      var r := Resolve(env, s.backupMethod);
      HasType(env, s.backupMethod, r.compatible, r.backupType)
    ensures forall c, t :: HasType(env, s.backupMethod, c, t) ==> Resolve(env, s.backupMethod) == Typed(c, t)
  {
    forall c, t
      ensures Resolve(env, s.backupMethod) == Typed(c, t) <==> HasType(env, s.backupMethod, c, t)
    {
      ResolveIs(env, s.backupMethod, c, t);
    }
  }

  lemma ThreeSettings(o: Option<bool>)
    ensures o.None? || o == Some(true) || o == Some(false)
  {
    if o.Some? {
      var v := o.value;
      assert o == Some(v);
      if v {
        assert o == Some(true);
      } else {
        assert o == Some(false);
      }
    }
  }

  lemma FlagsAfter(env: Env, s: Schedule, f: Flags)
    ensures var g := MergeEntry(env, s, f).1;
      && (g.pitr <==> f.pitr || (env.backup.pitr == Some(true) && MayBePitr(env, s)))
      && (g.inc <==> f.inc || (env.backup.incremental.Some? && MayBeIncremental(env, s)))
  {
    ThreeSettings(env.backup.pitr);
    TypesAreUnique(env, s);
  }

  lemma {:induction false} FlagsIff(env: Env, entries: seq<Schedule>, f: Flags)
    ensures var g := MergeAll(env, entries, f).1;
      && (g.pitr <==> f.pitr || (env.backup.pitr == Some(true) && exists s :: s in entries && MayBePitr(env, s)))
      && (g.inc <==> f.inc || (env.backup.incremental.Some? && exists s :: s in entries && MayBeIncremental(env, s)))
  {
    if entries != [] {
      FlagsAfter(env, entries[0], f);
      FlagsIff(env, entries[1..], MergeEntry(env, entries[0], f).1);
      assert forall s :: s in entries <==> s == entries[0] || s in entries[1..];
    }
  }

  /** The later value, unless it is absent. */
  function Or(a: string, b: string): string {
    if a != "" then a else b
  }

  /** PITR, exactly: with it on, the first continuous entry of the right method is enabled and
      keeps its backups as long as the cluster says; all others are disabled; with it off all are;
      and without a setting none is touched. */
  lemma PitrIsExact(env: Env, entries: seq<Schedule>, i: nat)
    requires i < |entries| && entries[i].backupMethod != env.backup.backupMethod
    requires exists c :: HasType(env, entries[i].backupMethod, c, Continuous)
    ensures var s, b := entries[i], env.backup;
      |Merge(env, entries)| >= |entries| &&
      Merge(env, entries)[i] ==
        if b.pitr.None? then s
        else if b.pitr == Some(true) && MayBePitr(env, s) && !exists e :: e in entries[..i] && MayBePitr(env, e)
        then s.(enabled := Some(true), retention := Or(b.retention, s.retention))
        else s.(enabled := Some(false))
  {
    ThreeSettings(env.backup.pitr);
    MergedAt(env, entries, i);
    FlagsIff(env, entries[..i], NO_FLAGS);
    TypesAreUnique(env, entries[i]);
  }

  /** Incrementals, exactly: one that does not build on the cluster's method is disabled; the first
      that does follows the cluster's settings where there are any; the others are left alone. */
  lemma IncrementalIsExact(env: Env, entries: seq<Schedule>, i: nat)
    requires i < |entries| && entries[i].backupMethod != env.backup.backupMethod
    requires exists c :: HasType(env, entries[i].backupMethod, c, Incremental)
    ensures var s, b := entries[i], env.backup;
      |Merge(env, entries)| >= |entries| &&
      Merge(env, entries)[i] ==
        if !MayBeIncremental(env, s) then s.(enabled := Some(false))
        else if b.incremental.Some? && !exists e :: e in entries[..i] && MayBeIncremental(env, e)
        then s.(enabled := b.incremental, retention := Or(b.retention, s.retention), cron := Or(b.incrementalCron, s.cron))
        else s
  {
    MergedAt(env, entries, i);
    FlagsIff(env, entries[..i], NO_FLAGS);
    TypesAreUnique(env, entries[i]);
  }

  /** The method of that name has no action set and takes volume snapshots. */
  ghost predicate TakesSnapshots(env: Env, name: string) {
    exists k: nat :: MethodAt(env.methods, name, k) && env.methods[k].actionSet == "" &&
                     env.methods[k].snapshot == Some(true)
  }

  lemma SnapshotIs(env: Env, name: string)
    ensures Resolve(env, name).Snapshot? <==> TakesSnapshots(env, name)
  {
    var k := FindMethodIs(env.methods, name);
    forall a: nat, b: nat | MethodAt(env.methods, name, a) && MethodAt(env.methods, name, b)
      ensures a == b
    {
    }
  }

  /** Full backups and snapshots of another method are disabled exactly when automatic backup is
      on; an entry of any other kind is left alone. */
  lemma OthersAreExact(env: Env, entries: seq<Schedule>, i: nat)
    requires i < |entries| && entries[i].backupMethod != env.backup.backupMethod
    requires forall c :: !HasType(env, entries[i].backupMethod, c, Continuous)
    requires forall c :: !HasType(env, entries[i].backupMethod, c, Incremental)
    ensures var s := entries[i];
      |Merge(env, entries)| >= |entries| &&
      Merge(env, entries)[i] ==
        if env.backup.enabled == Some(true) &&
           (TakesSnapshots(env, s.backupMethod) || exists c :: HasType(env, s.backupMethod, c, Full))
        then s.(enabled := Some(false))
        else s
  {
    MergedAt(env, entries, i);
    TypesAreUnique(env, entries[i]);
    SnapshotIs(env, entries[i].backupMethod);
  }

  /** Entries of the cluster's method follow the cluster's settings; where there is none, one is
      added, with the default cron expression if the cluster has none. */
  lemma ClusterMethodIsExact(env: Env, entries: seq<Schedule>)
    ensures var r, b := Merge(env, entries), env.backup;
      && |r| >= |entries|
      && (forall i :: 0 <= i < |entries| && entries[i].backupMethod == b.backupMethod ==>
            r[i] == entries[i].(enabled := if b.enabled.Some? then b.enabled else entries[i].enabled,
                                retention := Or(b.retention, entries[i].retention), cron := Or(b.cron, entries[i].cron)))
      && r[|entries|..] ==
           if exists s :: s in entries && s.backupMethod == b.backupMethod then []
           else [Schedule("", b.backupMethod, Or(b.cron, "0 18 * * *"), b.enabled, b.retention, "")]
  {
    ExistIff(env, entries, NO_FLAGS);
    forall i | 0 <= i < |entries|
      ensures MergeAll(env, entries, NO_FLAGS).0[i] ==
              MergeEntry(env, entries[i], MergeAll(env, entries[..i], NO_FLAGS).1).0
    {
      MergedAt(env, entries, i);
    }
  }
}
