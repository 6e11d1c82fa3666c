/** The action loop that decides whether a running backup is completed.

    Source: controllers/dataprotection/backup_controller.go. What Execute answers is part of each
    action; a target's pods come in the order in which the map happens to be iterated. */
module RunningPhase {
  import opened Common

  datatype ActionPhase = Pending | Running | Completed | Failed

  datatype ActionStatus = ActionStatus(name: string, pod: string, phase: ActionPhase,
                                       failureReason: string, start: Option<int>)

  /** An error that asks for a requeue, or any other. */
  datatype Error = RequeueError | OtherError

  /** The answer of Execute: an error, or a status in one of the three phases it reports. */
  datatype Report = Errs(error: Error) | Reports(status: ActionStatus)

  type Action = r: Report | r.Reports? ==> !r.status.phase.Pending? witness Errs(OtherError)

  datatype PodActions = PodActions(pod: string, acts: seq<Action>)

  /** A target: the error in building its actions, if any, and its pods with their actions. */
  datatype Target = Target(failure: Option<Error>, pods: seq<PodActions>)

  datatype Verdict = Done | Waits | Fails | Stops(error: Error)

  // ---------------------------------------------------------------- merging

  const LOG_COLLECTOR_OUTPUT: string := "Log Collector Output"

  predicate HasPrefix(s: string, prefix: string) {
    prefix <= s
  }

  /** A new report on top of the record of that action. */
  function Overlaid(existing: ActionStatus, status: ActionStatus): (r: ActionStatus) {
    var reason := if HasPrefix(existing.failureReason, LOG_COLLECTOR_OUTPUT)
                  then existing.failureReason else status.failureReason;
    status.(failureReason := reason, start := if existing.start.Some? then existing.start else status.start)
  }

  function Merged(actions: seq<ActionStatus>, status: ActionStatus, now: int): (r: seq<ActionStatus>) {
    if actions == [] then [status.(start := Some(now))]
    else if actions[0].name == status.name then [Overlaid(actions[0], status)] + actions[1..]
    else [actions[0]] + Merged(actions[1..], status, now)
  }

  /** A record keeps its name, its start time once it has one, and collected logs. */
  predicate KeepsRecord(earlier: ActionStatus, later: ActionStatus) {
    later.name == earlier.name && (earlier.start.Some? ==> later.start == earlier.start) &&
    (HasPrefix(earlier.failureReason, "Log Collector Output") ==> later.failureReason == earlier.failureReason)
  }

  /** later still has every record of earlier, in place. */
  ghost predicate Preserves(earlier: seq<ActionStatus>, later: seq<ActionStatus>) {
    |earlier| <= |later| && forall i :: 0 <= i < |earlier| ==> KeepsRecord(earlier[i], later[i])
  }

  /** The record that a report leaves: the report itself, but for an earlier start time and
      collected logs. */
  predicate IsReport(a: ActionStatus, status: ActionStatus) {
    a.name == status.name && a.pod == status.pod && a.phase == status.phase &&
    (a.failureReason == status.failureReason || HasPrefix(a.failureReason, "Log Collector Output"))
  }

  /** The record found by the loop is the one Merged replaces. */
  lemma {:induction false} MergedAt(actions: seq<ActionStatus>, status: ActionStatus, now: int, i: nat)
    requires i <= |actions| && forall j :: 0 <= j < i ==> actions[j].name != status.name
    requires i < |actions| ==> actions[i].name == status.name
    ensures Merged(actions, status, now) ==
            if i < |actions| then actions[i := Overlaid(actions[i], status)]
            else actions + [status.(start := Some(now))]
  {
    if i > 0 {
      var rest := actions[1..];
      assert forall j :: 0 <= j < i - 1 ==> rest[j] == actions[j + 1];
      MergedAt(rest, status, now, i - 1);
      if i < |actions| {
        ConsUpdate(actions, i, Overlaid(actions[i], status));
      } else {
        ConsAppend(actions, status.(start := Some(now)));
      }
    } else if actions != [] {
      assert actions[0 := Overlaid(actions[0], status)] == [Overlaid(actions[0], status)] + actions[1..];
    }
  }

  lemma ConsUpdate(s: seq<ActionStatus>, i: nat, x: ActionStatus)
    requires 0 < i < |s|
    ensures s[i := x] == [s[0]] + s[1..][i - 1 := x]
  {
  }

  lemma ConsAppend(s: seq<ActionStatus>, x: ActionStatus)
    requires s != []
    ensures s + [x] == [s[0]] + (s[1..] + [x])
  {
  }

  lemma {:induction false} FirstNamed(actions: seq<ActionStatus>, name: string) returns (i: nat)
    ensures i <= |actions| && (i < |actions| ==> actions[i].name == name)
    ensures forall j :: 0 <= j < i ==> actions[j].name != name
  {
    i := 0;
    while i < |actions| && actions[i].name != name
      invariant i <= |actions| && forall j :: 0 <= j < i ==> actions[j].name != name
    {
      i := i + 1;
    }
  }

  /** Merging keeps every record, changes none of another name, and leaves a record of the report;
      a new one starts now. */
  lemma MergedPreserves(actions: seq<ActionStatus>, status: ActionStatus, now: int)
    ensures var merged := Merged(actions, status, now);
      && Preserves(actions, merged)
      && (forall i :: 0 <= i < |actions| && actions[i].name != status.name ==> merged[i] == actions[i])
      && (exists a :: a in merged && IsReport(a, status))
      && ((forall i :: 0 <= i < |actions| ==> actions[i].name != status.name) ==>
            merged == actions + [status.(start := Some(now))])
  {
    var merged := Merged(actions, status, now);
    var i := FirstNamed(actions, status.name);
    MergedAt(actions, status, now, i);
    assert merged[i] in merged && IsReport(merged[i], status);
  }

  lemma PreservesTransitive(a: seq<ActionStatus>, b: seq<ActionStatus>, c: seq<ActionStatus>)
    requires Preserves(a, b) && Preserves(b, c)
    ensures Preserves(a, c)
  {
    forall i | 0 <= i < |a|
      ensures KeepsRecord(a[i], c[i])
    {
      assert KeepsRecord(a[i], b[i]) && KeepsRecord(b[i], c[i]);
    }
  }

  // --------------------------------------------------------------- verdicts

  function VerdictOf(act: Action): (v: Verdict) {
    match act
    case Errs(error) => Stops(error)
    case Reports(status) =>
      if status.phase.Completed? then Done else if status.phase.Failed? then Fails else Waits
  }

  /** The first action that is not completed decides. */
  function PodVerdict(acts: seq<Action>): (v: Verdict) {
    if acts == [] then Done
    else if VerdictOf(acts[0]) == Done then PodVerdict(acts[1..])
    else VerdictOf(acts[0])
  }

  /** The first pod that is not done decides: the others of this target are not looked at. */
  function PodsVerdict(pods: seq<PodActions>): (v: Verdict) {
    if pods == [] then Done
    else if PodVerdict(pods[0].acts) == Done then PodsVerdict(pods[1..])
    else PodVerdict(pods[0].acts)
  }

  function TargetVerdict(target: Target): (v: Verdict) {
    if target.failure.Some? then Stops(target.failure.value) else PodsVerdict(target.pods)
  }

  ghost predicate AllCompleted(target: Target) {
    target.failure.None? &&
    forall pod, act :: pod in target.pods && act in pod.acts ==> act.Reports? && act.status.phase.Completed?
  }

  lemma {:induction false} PodDoneIff(acts: seq<Action>)
    ensures PodVerdict(acts) == Done <==> forall act :: act in acts ==> act.Reports? && act.status.phase.Completed?
  {
    if acts != [] {
      PodDoneIff(acts[1..]);
      assert acts == [acts[0]] + acts[1..];
    }
  }

  lemma {:induction false} PodsDoneIff(pods: seq<PodActions>)
    ensures PodsVerdict(pods) == Done <==>
            forall pod, act :: pod in pods && act in pod.acts ==> act.Reports? && act.status.phase.Completed?
  {
    if pods != [] {
      PodDoneIff(pods[0].acts);
      PodsDoneIff(pods[1..]);
      assert pods == [pods[0]] + pods[1..];
    }
  }

  /** A target is done exactly when every action of every pod reports Completed. */
  lemma TargetDoneIff(target: Target)
    ensures TargetVerdict(target) == Done <==> AllCompleted(target)
  {
    PodsDoneIff(target.pods);
  }

  // ------------------------------------------- verdicts in terms of reports

  predicate IsCompleted(act: Action) {
    act.Reports? && act.status.phase == Completed
  }

  /** All actions before the i-th report Completed. */
  ghost predicate InLine(acts: seq<Action>, i: nat) {
    forall j :: 0 <= j < i && j < |acts| ==> IsCompleted(acts[j])
  }

  /** The first action that is not Completed reports this phase. */
  ghost predicate PodReports(acts: seq<Action>, phase: ActionPhase) {
    exists i :: 0 <= i < |acts| && InLine(acts, i) && acts[i].Reports? && acts[i].status.phase == phase
  }

  /** The first action that is not Completed ends in this error. */
  ghost predicate PodErrs(acts: seq<Action>, e: Error) {
    exists i :: 0 <= i < |acts| && InLine(acts, i) && acts[i] == Errs(e)
  }

  ghost predicate PodCompleted(pod: PodActions) {
    forall act :: act in pod.acts ==> IsCompleted(act)
  }

  lemma InLineShift(acts: seq<Action>, i: nat)
    requires acts != [] && IsCompleted(acts[0]) && i < |acts[1..]|
    ensures InLine(acts, i + 1) <==> InLine(acts[1..], i)
  {
    assert forall j :: 0 <= j < |acts[1..]| ==> acts[1..][j] == acts[j + 1];
    if InLine(acts[1..], i) {
      forall j | 0 <= j < i + 1 && j < |acts|
        ensures IsCompleted(acts[j])
      {
        if j > 0 {
          assert acts[1..][j - 1] == acts[j];
        }
      }
    }
  }

  lemma {:induction false} PodReportsRest(acts: seq<Action>, phase: ActionPhase, e: Error)
    requires acts != [] && IsCompleted(acts[0]) && phase != Completed
    ensures PodReports(acts, phase) <==> PodReports(acts[1..], phase)
    ensures PodErrs(acts, e) <==> PodErrs(acts[1..], e)
  {
    forall i | 0 <= i < |acts[1..]|
      ensures acts[1..][i] == acts[i + 1] && (InLine(acts, i + 1) <==> InLine(acts[1..], i))
    {
      InLineShift(acts, i);
    }
    if i :| 0 <= i < |acts| && InLine(acts, i) && acts[i].Reports? && acts[i].status.phase == phase {
      assert i > 0 && acts[1..][i - 1] == acts[i];
    }
    if i :| 0 <= i < |acts| && InLine(acts, i) && acts[i] == Errs(e) {
      assert i > 0 && acts[1..][i - 1] == acts[i];
    }
    if i :| 0 <= i < |acts[1..]| && InLine(acts[1..], i) && acts[1..][i].Reports? && acts[1..][i].status.phase == phase {
      assert InLine(acts, i + 1) && acts[i + 1] == acts[1..][i];
    }
    if i :| 0 <= i < |acts[1..]| && InLine(acts[1..], i) && acts[1..][i] == Errs(e) {
      assert InLine(acts, i + 1) && acts[i + 1] == acts[1..][i];
    }
  }

  lemma PodReportsFirst(acts: seq<Action>, phase: ActionPhase, e: Error)
    requires acts != [] && !IsCompleted(acts[0]) && phase != Completed
    ensures PodReports(acts, phase) <==> acts[0].Reports? && acts[0].status.phase == phase
    ensures PodErrs(acts, e) <==> acts[0] == Errs(e)
  {
    assert InLine(acts, 0);
    assert forall i :: 0 < i < |acts| ==> !InLine(acts, i);
  }

  /** The verdict on a pod says what its first action that is not Completed reports. */
  lemma {:induction false} PodVerdictByReports(acts: seq<Action>, e: Error)
    ensures PodVerdict(acts) == Waits <==> PodReports(acts, Running)
    ensures PodVerdict(acts) == Fails <==> PodReports(acts, Failed)
    ensures PodVerdict(acts) == Stops(e) <==> PodErrs(acts, e)
  {
    if acts != [] {
      if IsCompleted(acts[0]) {
        PodReportsRest(acts, Running, e);
        PodReportsRest(acts, Failed, e);
        PodVerdictByReports(acts[1..], e);
      } else {
        PodReportsFirst(acts, Running, e);
        PodReportsFirst(acts, Failed, e);
      }
    }
  }

  /** The first pod that is not all Completed is the p-th. */
  ghost predicate FirstOpen(pods: seq<PodActions>, p: nat) {
    p < |pods| && !PodCompleted(pods[p]) && forall q :: 0 <= q < p ==> PodCompleted(pods[q])
  }

  lemma {:induction false} PodsVerdictAt(pods: seq<PodActions>, p: nat)
    requires FirstOpen(pods, p)
    ensures PodsVerdict(pods) == PodVerdict(pods[p].acts)
  {
    PodDoneIff(pods[0].acts);
    if p > 0 {
      assert PodCompleted(pods[0]);
      assert forall q :: 0 <= q < p - 1 ==> pods[1..][q] == pods[q + 1];
      PodsVerdictAt(pods[1..], p - 1);
    }
  }

  lemma {:induction false} SomeFirstOpen(pods: seq<PodActions>) returns (p: nat)
    requires PodsVerdict(pods) != Done
    ensures FirstOpen(pods, p)
  {
    PodDoneIff(pods[0].acts);
    if PodCompleted(pods[0]) {
      var rest := SomeFirstOpen(pods[1..]);
      p := rest + 1;
      assert forall q :: 0 < q < p ==> pods[q] == pods[1..][q - 1];
    } else {
      p := 0;
    }
  }

  /** The first open pod of the target is held up by a report of this phase. */
  ghost predicate TargetReports(target: Target, phase: ActionPhase) {
    target.failure.None? &&
    exists p: nat :: FirstOpen(target.pods, p) && PodReports(target.pods[p].acts, phase)
  }

  /** Building the actions, or the first open pod of the target, ends in this error. */
  ghost predicate TargetErrs(target: Target, e: Error) {
    if target.failure.Some? then target.failure.value == e
    else exists p: nat :: FirstOpen(target.pods, p) && PodErrs(target.pods[p].acts, e)
  }

  lemma TargetVerdictByReports(target: Target, e: Error)
    ensures TargetVerdict(target) == Waits <==> TargetReports(target, Running)
    ensures TargetVerdict(target) == Fails <==> TargetReports(target, Failed)
    ensures TargetVerdict(target) == Stops(e) <==> TargetErrs(target, e)
  {
    forall p: nat | FirstOpen(target.pods, p)
      ensures PodsVerdict(target.pods) == PodVerdict(target.pods[p].acts)
      ensures PodVerdict(target.pods[p].acts) == Waits <==> PodReports(target.pods[p].acts, Running)
      ensures PodVerdict(target.pods[p].acts) == Fails <==> PodReports(target.pods[p].acts, Failed)
      ensures PodVerdict(target.pods[p].acts) == Stops(e) <==> PodErrs(target.pods[p].acts, e)
    {
      PodsVerdictAt(target.pods, p);
      PodVerdictByReports(target.pods[p].acts, e);
    }
    if target.failure.None? && PodsVerdict(target.pods) != Done {
      var p := SomeFirstOpen(target.pods);
    }
  }

  // ------------------------------------------------------------ pod orders

  /** The same target with its pods in another order. */
  predicate SamePods(target: Target, other: Target) {
    target.failure == other.failure && multiset(target.pods) == multiset(other.pods)
  }

  /** v is the verdict of the target under some order of its pods. */
  ghost predicate Possible(target: Target, v: Verdict) {
    if target.failure.Some? then v == Stops(target.failure.value)
    else if v == Done then forall pod :: pod in target.pods ==> PodVerdict(pod.acts) == Done
    else exists pod :: pod in target.pods && PodVerdict(pod.acts) == v
  }

  lemma {:induction false} PodsVerdictIsOne(pods: seq<PodActions>)
    ensures PodsVerdict(pods) == Done <==> forall pod :: pod in pods ==> PodVerdict(pod.acts) == Done
    ensures PodsVerdict(pods) != Done ==> exists pod :: pod in pods && PodVerdict(pod.acts) == PodsVerdict(pods)
  {
    if pods != [] {
      PodsVerdictIsOne(pods[1..]);
      assert pods == [pods[0]] + pods[1..];
    }
  }

  lemma SamePodsSamePossible(target: Target, other: Target, v: Verdict)
    requires SamePods(target, other)
    ensures Possible(target, v) <==> Possible(other, v)
  {
    assert forall pod :: pod in target.pods <==> pod in multiset(target.pods);
    assert forall pod :: pod in other.pods <==> pod in multiset(other.pods);
  }

  lemma VerdictIsPossible(target: Target, other: Target)
    requires SamePods(target, other)
    ensures Possible(target, TargetVerdict(other))
  {
    SamePodsSamePossible(target, other, TargetVerdict(other));
    PodsVerdictIsOne(other.pods);
  }

  /** Any pod can come first. */
  lemma PodFirst(target: Target, i: nat) returns (other: Target)
    requires target.failure.None? && i < |target.pods| && PodVerdict(target.pods[i].acts) != Done
    ensures SamePods(target, other) && TargetVerdict(other) == PodVerdict(target.pods[i].acts)
  {
    var pods := target.pods;
    var rest := pods[..i] + pods[i + 1..];
    other := target.(pods := [pods[i]] + rest);
    assert pods == pods[..i] + [pods[i]] + pods[i + 1..];
  }

  lemma PossibleIsReached(target: Target, v: Verdict) returns (other: Target)
    requires Possible(target, v)
    ensures SamePods(target, other) && TargetVerdict(other) == v
  {
    if target.failure.Some? || v == Done {
      other := target;
      PodsVerdictIsOne(target.pods);
    } else {
      var pod :| pod in target.pods && PodVerdict(pod.acts) == v;
      var i :| 0 <= i < |target.pods| && target.pods[i] == pod;
      other := PodFirst(target, i);
    }
  }

  /** A target's verdict is the same for every order of its pods exactly when all pods that are
      not done have one and the same verdict. */
  lemma VerdictIgnoresOrderIff(target: Target)
    requires target.failure.None?
    ensures (forall other :: SamePods(target, other) ==> TargetVerdict(other) == TargetVerdict(target)) <==>
            (forall p, q :: p in target.pods && q in target.pods && PodVerdict(p.acts) != Done && PodVerdict(q.acts) != Done
                            ==> PodVerdict(p.acts) == PodVerdict(q.acts))
  {
    PodsVerdictIsOne(target.pods);
    forall other | SamePods(target, other)
      ensures Possible(target, TargetVerdict(other))
    {
      VerdictIsPossible(target, other);
    }
    forall p | p in target.pods && PodVerdict(p.acts) != Done
      ensures exists other :: SamePods(target, other) && TargetVerdict(other) == PodVerdict(p.acts)
    {
      assert Possible(target, PodVerdict(p.acts));
      var other := PossibleIsReached(target, PodVerdict(p.acts));
    }
  }

  /** With one failed and one running pod either can come first. */
  lemma FailureDependsOnOrder(failed: Action, running: Action)
    requires failed.Reports? && failed.status.phase == Failed && running.Reports? && running.status.phase == Running
    ensures var a, b := PodActions("a", [failed]), PodActions("b", [running]);
            SamePods(Target(None, [a, b]), Target(None, [b, a])) &&
            TargetReports(Target(None, [a, b]), Failed) && TargetReports(Target(None, [b, a]), Running)
  {
    assert PodVerdict([failed]) == Fails && PodVerdict([running]) == Waits;
    TargetVerdictByReports(Target(None, [PodActions("a", [failed]), PodActions("b", [running])]), OtherError);
    TargetVerdictByReports(Target(None, [PodActions("b", [running]), PodActions("a", [failed])]), OtherError);
  }

  /** Whether a target is done never depends on the order of its pods. */
  lemma DoneIgnoresOrder(target: Target, other: Target)
    requires SamePods(target, other)
    ensures TargetVerdict(target) == Done <==> TargetVerdict(other) == Done
  {
    VerdictIsPossible(target, other);
    PodsVerdictIsOne(target.pods);
    SamePodsSamePossible(target, other, TargetVerdict(target));
    PodsVerdictIsOne(other.pods);
    VerdictIsPossible(other, target);
  }

  // -------------------------------------------------------------- decisions

  /** What handleRunningPhase decides to write; nothing on a requeue error. */
  datatype Decision = WriteCompleted | Wait | WriteFailed | Requeue

  function Verdicts(targets: seq<Target>): (vs: seq<Verdict>)
    ensures |vs| == |targets| && forall i :: 0 <= i < |vs| ==> vs[i] == TargetVerdict(targets[i])
  {
    if targets == [] then [] else [TargetVerdict(targets[0])] + Verdicts(targets[1..])
  }

  ghost predicate NoStop(vs: seq<Verdict>) {
    forall i :: 0 <= i < |vs| ==> !vs[i].Stops?
  }

  /** The first error among the targets is e. */
  ghost predicate FirstStop(vs: seq<Verdict>, e: Error) {
    exists i :: 0 <= i < |vs| && vs[i] == Stops(e) && NoStop(vs[..i])
  }

  /** The first error decides; otherwise running actions count before failed ones. */
  ghost predicate Decided(vs: seq<Verdict>, d: Decision) {
    match d
    case WriteCompleted => forall i :: 0 <= i < |vs| ==> vs[i] == Done
    case Wait => NoStop(vs) && Waits in vs
    case WriteFailed => FirstStop(vs, OtherError) || (NoStop(vs) && Waits !in vs && Fails in vs)
    case Requeue => FirstStop(vs, RequeueError)
  }

  /** Completed is decided exactly when every action of every target reports Completed. */
  lemma CompletedIff(targets: seq<Target>)
    ensures Decided(Verdicts(targets), WriteCompleted) <==> forall t :: t in targets ==> AllCompleted(t)
  {
    forall i | 0 <= i < |targets|
      ensures Verdicts(targets)[i] == Done <==> AllCompleted(targets[i])
    {
      TargetDoneIff(targets[i]);
    }
  }

  ghost predicate NoneErrs(targets: seq<Target>) {
    forall t, e :: t in targets ==> !TargetErrs(t, e)
  }

  ghost predicate SomeReports(targets: seq<Target>, phase: ActionPhase) {
    exists t :: t in targets && TargetReports(t, phase)
  }

  /** The decision in terms of what the actions report. */
  ghost predicate DecidedByReports(targets: seq<Target>, d: Decision) {
    (NoneErrs(targets) ==>
       (d == Wait <==> SomeReports(targets, Running)) &&
       (d == WriteFailed <==> !SomeReports(targets, Running) && SomeReports(targets, Failed)) && d != Requeue) &&
    (forall i, e :: 0 <= i < |targets| && TargetErrs(targets[i], e) && NoneErrs(targets[..i]) ==>
                      d == if e == RequeueError then Requeue else WriteFailed)
  }

  lemma VerdictInByReports(targets: seq<Target>, v: Verdict, phase: ActionPhase)
    requires (v == Waits && phase == Running) || (v == Fails && phase == Failed)
    ensures v in Verdicts(targets) <==> SomeReports(targets, phase)
  {
    var vs := Verdicts(targets);
    if v in vs {
      var i :| 0 <= i < |vs| && vs[i] == v;
      TargetVerdictByReports(targets[i], OtherError);
      assert targets[i] in targets;
    }
    if SomeReports(targets, phase) {
      var t :| t in targets && TargetReports(t, phase);
      var i :| 0 <= i < |targets| && targets[i] == t;
      TargetVerdictByReports(t, OtherError);
      assert vs[i] == v;
    }
  }

  lemma NoStopByReports(targets: seq<Target>)
    ensures NoStop(Verdicts(targets)) <==> NoneErrs(targets)
  {
    var vs := Verdicts(targets);
    if !NoStop(vs) {
      var i :| 0 <= i < |vs| && vs[i].Stops?;
      TargetVerdictByReports(targets[i], vs[i].error);
      assert targets[i] in targets;
    }
    if !NoneErrs(targets) {
      var t, e :| t in targets && TargetErrs(t, e);
      var i :| 0 <= i < |targets| && targets[i] == t;
      TargetVerdictByReports(t, e);
      assert vs[i].Stops?;
    }
  }

  lemma DecisionByReports(targets: seq<Target>, d: Decision)
    requires forall e :: Decided(Verdicts(targets), e) <==> e == d
    ensures DecidedByReports(targets, d)
  {
    var vs := Verdicts(targets);
    VerdictInByReports(targets, Waits, Running);
    VerdictInByReports(targets, Fails, Failed);
    NoStopByReports(targets);
    if NoneErrs(targets) {
      PassedDecides(vs);
    }
    forall i, e | 0 <= i < |targets| && TargetErrs(targets[i], e) && NoneErrs(targets[..i])
      ensures d == if e == RequeueError then Requeue else WriteFailed
    {
      TargetVerdictByReports(targets[i], e);
      assert vs[i] == Stops(e);
      NoStopByReports(targets[..i]);
      VerdictsPrefix(targets, i);
      StopDecides(vs, i);
      assert Decided(vs, if e == RequeueError then Requeue else WriteFailed);
    }
  }

  lemma StopDecides(vs: seq<Verdict>, t: nat)
    requires t < |vs| && vs[t].Stops? && NoStop(vs[..t])
    ensures forall e :: Decided(vs, e) <==> e == if vs[t].error == OtherError then WriteFailed else Requeue
  {
    assert forall i :: 0 <= i < t ==> vs[i] == vs[..t][i] && !vs[i].Stops?;
    assert forall i :: t < i < |vs| ==> vs[..i][t] == vs[t] && !NoStop(vs[..i]);
  }

  /** The targets with the pods of each in some order. */
  ghost predicate Reordered(targets: seq<Target>, others: seq<Target>) {
    |targets| == |others| && forall i :: 0 <= i < |targets| ==> SamePods(targets[i], others[i])
  }

  ghost predicate AllPossible(targets: seq<Target>, vs: seq<Verdict>) {
    |targets| == |vs| && forall i :: 0 <= i < |vs| ==> Possible(targets[i], vs[i])
  }

  /** The orders of the pods give exactly the sequences of possible verdicts. */
  lemma {:induction false} OrdersOf(targets: seq<Target>, vs: seq<Verdict>) returns (others: seq<Target>)
    requires AllPossible(targets, vs)
    ensures Reordered(targets, others) && Verdicts(others) == vs
  {
    if targets == [] {
      others := [];
    } else {
      var first := PossibleIsReached(targets[0], vs[0]);
      assert forall i :: 0 <= i < |targets| - 1 ==> Possible(targets[1..][i], vs[1..][i]);
      var rest := OrdersOf(targets[1..], vs[1..]);
      others := [first] + rest;
      forall i | 0 <= i < |targets|
        ensures SamePods(targets[i], others[i])
      {
        if i > 0 {
          assert SamePods(targets[1..][i - 1], rest[i - 1]);
        }
      }
      assert others[1..] == rest;
    }
  }

  lemma OrdersArePossible(targets: seq<Target>, others: seq<Target>)
    requires Reordered(targets, others)
    ensures AllPossible(targets, Verdicts(others))
  {
    forall i | 0 <= i < |targets|
      ensures Possible(targets[i], Verdicts(others)[i])
    {
      VerdictIsPossible(targets[i], others[i]);
    }
  }

  /** d is decided under some order of the pods. */
  ghost predicate MayDecide(targets: seq<Target>, d: Decision) {
    exists others :: Reordered(targets, others) && Decided(Verdicts(others), d)
  }

  lemma MayDecideVia(targets: seq<Target>, vs: seq<Verdict>, d: Decision)
    requires AllPossible(targets, vs) && Decided(vs, d)
    ensures MayDecide(targets, d)
  {
    var others := OrdersOf(targets, vs);
  }

  /** Some order lets the loop go on to the next target. */
  ghost predicate MayPass(target: Target) {
    Possible(target, Done) || Possible(target, Waits) || Possible(target, Fails)
  }

  ghost function Passing(target: Target): (v: Verdict)
    requires MayPass(target)
    ensures Possible(target, v) && !v.Stops?
  {
    if Possible(target, Done) then Done else if Possible(target, Waits) then Waits else Fails
  }

  lemma WaitNeeds(targets: seq<Target>, vs: seq<Verdict>)
    requires AllPossible(targets, vs) && NoStop(vs) && Waits in vs
    ensures (forall t :: t in targets ==> MayPass(t)) && exists t :: t in targets && Possible(t, Waits)
  {
    var i :| 0 <= i < |vs| && vs[i] == Waits;
    assert targets[i] in targets && Possible(targets[i], Waits);
    forall t | t in targets
      ensures MayPass(t)
    {
      var k :| 0 <= k < |targets| && targets[k] == t;
      assert Possible(targets[k], vs[k]) && !vs[k].Stops?;
    }
  }

  lemma WaitIsReached(targets: seq<Target>, i: nat)
    requires (forall t :: t in targets ==> MayPass(t)) && i < |targets| && Possible(targets[i], Waits)
    ensures MayDecide(targets, Wait)
  {
    var vs := seq(|targets|, k requires 0 <= k < |targets| => if k == i then Waits else Passing(targets[k]));
    assert vs[i] == Waits;
    MayDecideVia(targets, vs, Wait);
  }

  /** Waiting can be the decision exactly when no target stops in every order and one can wait. */
  lemma MayWaitIff(targets: seq<Target>)
    ensures MayDecide(targets, Wait) <==>
            (forall t :: t in targets ==> MayPass(t)) && exists t :: t in targets && Possible(t, Waits)
  {
    if MayDecide(targets, Wait) {
      var others :| Reordered(targets, others) && Decided(Verdicts(others), Wait);
      OrdersArePossible(targets, others);
      WaitNeeds(targets, Verdicts(others));
    } else if forall t :: t in targets ==> MayPass(t) {
      forall t | t in targets
        ensures !Possible(t, Waits)
      {
        var i :| 0 <= i < |targets| && targets[i] == t;
        if Possible(t, Waits) {
          WaitIsReached(targets, i);
        }
      }
    }
  }

  /** Some order neither stops nor waits. */
  ghost predicate MayEnd(target: Target) {
    Possible(target, Done) || Possible(target, Fails)
  }

  ghost function Ending(target: Target): (v: Verdict)
    requires MayEnd(target)
    ensures Possible(target, v) && (v == Done || v == Fails)
  {
    if Possible(target, Done) then Done else Fails
  }

  /** A target before which all others can be passed stops with an error of the given kind. */
  ghost predicate MayStopWith(targets: seq<Target>, i: nat, e: Error)
    requires i < |targets|
  {
    Possible(targets[i], Stops(e)) && forall k :: 0 <= k < i ==> MayPass(targets[k])
  }

  lemma StopNeeds(targets: seq<Target>, vs: seq<Verdict>, e: Error) returns (i: nat)
    requires AllPossible(targets, vs) && FirstStop(vs, e)
    ensures i < |targets| && MayStopWith(targets, i, e)
  {
    i :| 0 <= i < |vs| && vs[i] == Stops(e) && NoStop(vs[..i]);
    forall k | 0 <= k < i
      ensures MayPass(targets[k])
    {
      assert Possible(targets[k], vs[k]) && vs[k] == vs[..i][k];
    }
  }

  lemma StopIsReached(targets: seq<Target>, i: nat, e: Error) returns (vs: seq<Verdict>)
    requires i < |targets| && MayStopWith(targets, i, e)
    ensures AllPossible(targets, vs) && FirstStop(vs, e)
  {
    vs := seq(|targets|, k requires 0 <= k < |targets| =>
      if k < i then Passing(targets[k]) else if k == i then Stops(e) else TargetVerdict(targets[k]));
    forall k | 0 <= k < |targets|
      ensures Possible(targets[k], vs[k])
    {
      VerdictIsPossible(targets[k], targets[k]);
    }
    assert NoStop(vs[..i]);
  }

  /** Requeuing without a write can be the decision exactly when such a target can come first. */
  lemma MayRequeueIff(targets: seq<Target>)
    ensures MayDecide(targets, Requeue) <==>
            exists i :: 0 <= i < |targets| && MayStopWith(targets, i, RequeueError)
  {
    if MayDecide(targets, Requeue) {
      var others :| Reordered(targets, others) && Decided(Verdicts(others), Requeue);
      OrdersArePossible(targets, others);
      var i := StopNeeds(targets, Verdicts(others), RequeueError);
    }
    if i :| 0 <= i < |targets| && MayStopWith(targets, i, RequeueError) {
      var vs := StopIsReached(targets, i, RequeueError);
      MayDecideVia(targets, vs, Requeue);
    }
  }

  /** Every target can end without waiting and one of them can fail. */
  ghost predicate MayEndFailing(targets: seq<Target>) {
    (forall t :: t in targets ==> MayEnd(t)) && exists t :: t in targets && Possible(t, Fails)
  }

  lemma FailureIsReached(targets: seq<Target>)
    requires MayEndFailing(targets)
    ensures MayDecide(targets, WriteFailed)
  {
    var t :| t in targets && Possible(t, Fails);
    var i :| 0 <= i < |targets| && targets[i] == t;
    var vs := seq(|targets|, k requires 0 <= k < |targets| => if k == i then Fails else Ending(targets[k]));
    assert vs[i] == Fails && Waits !in vs;
    MayDecideVia(targets, vs, WriteFailed);
  }

  /** Failure can be the decision exactly when an error that is no requeue can come first, or when
      every target can end without waiting and one can fail. With the lemma on waiting this tells
      exactly when the order of the pods chooses between the two. */
  lemma MayFailIff(targets: seq<Target>)
    ensures MayDecide(targets, WriteFailed) <==>
            (exists i :: 0 <= i < |targets| && MayStopWith(targets, i, OtherError)) || MayEndFailing(targets)
  {
    if MayDecide(targets, WriteFailed) {
      var others :| Reordered(targets, others) && Decided(Verdicts(others), WriteFailed);
      OrdersArePossible(targets, others);
      if FirstStop(Verdicts(others), OtherError) {
        var i := StopNeeds(targets, Verdicts(others), OtherError);
      } else {
        EndsFailing(targets, Verdicts(others));
      }
    }
    if i :| 0 <= i < |targets| && MayStopWith(targets, i, OtherError) {
      var vs := StopIsReached(targets, i, OtherError);
      MayDecideVia(targets, vs, WriteFailed);
    }
    if MayEndFailing(targets) {
      FailureIsReached(targets);
    }
  }

  lemma EndsFailing(targets: seq<Target>, vs: seq<Verdict>)
    requires AllPossible(targets, vs) && NoStop(vs) && Waits !in vs && Fails in vs
    ensures MayEndFailing(targets)
  {
    var i :| 0 <= i < |vs| && vs[i] == Fails;
    assert targets[i] in targets && Possible(targets[i], Fails);
    forall t | t in targets
      ensures MayEnd(t)
    {
      var k :| 0 <= k < |targets| && targets[k] == t;
      assert Possible(targets[k], vs[k]) && vs[k] in vs;
    }
  }

  // -------------------------------------- possible decisions and the reports

  /** Some pod of the target is held up by a report of this phase. */
  ghost predicate MayReport(target: Target, phase: ActionPhase) {
    target.failure.None? && exists pod :: pod in target.pods && PodReports(pod.acts, phase)
  }

  /** Building the actions, or some pod of the target, ends in this error. */
  ghost predicate MayErr(target: Target, e: Error) {
    if target.failure.Some? then target.failure.value == e
    else exists pod :: pod in target.pods && PodErrs(pod.acts, e)
  }

  /** A pod whose verdict is v can decide for its target. */
  ghost predicate SomePod(target: Target, v: Verdict) {
    exists pod :: pod in target.pods && PodVerdict(pod.acts) == v
  }

  lemma SomePodByReports(target: Target, e: Error)
    ensures SomePod(target, Waits) <==> exists pod :: pod in target.pods && PodReports(pod.acts, Running)
    ensures SomePod(target, Fails) <==> exists pod :: pod in target.pods && PodReports(pod.acts, Failed)
    ensures SomePod(target, Stops(e)) <==> exists pod :: pod in target.pods && PodErrs(pod.acts, e)
  {
    forall pod | pod in target.pods
      ensures PodVerdict(pod.acts) == Waits <==> PodReports(pod.acts, Running)
      ensures PodVerdict(pod.acts) == Fails <==> PodReports(pod.acts, Failed)
      ensures PodVerdict(pod.acts) == Stops(e) <==> PodErrs(pod.acts, e)
    {
      PodVerdictByReports(pod.acts, e);
    }
  }

  lemma PossibleByReports(target: Target, e: Error)
    ensures Possible(target, Done) <==> AllCompleted(target)
    ensures Possible(target, Waits) <==> MayReport(target, Running)
    ensures Possible(target, Fails) <==> MayReport(target, Failed)
    ensures Possible(target, Stops(e)) <==> MayErr(target, e)
  {
    SomePodByReports(target, e);
    TargetDoneIff(target);
    PodsVerdictIsOne(target.pods);
  }

  /** Some order of the pods leads to waiting exactly when one target has a pod held up by a Running
      action and every target is completed or has a pod held up by a Running or Failed one. */
  lemma MayWaitByReports(targets: seq<Target>)
    ensures MayDecide(targets, Wait) <==>
            (exists t :: t in targets && MayReport(t, Running)) &&
            forall t :: t in targets ==> AllCompleted(t) || MayReport(t, Running) || MayReport(t, Failed)
  {
    MayWaitIff(targets);
    forall t | t in targets
      ensures Possible(t, Waits) <==> MayReport(t, Running)
      ensures MayPass(t) <==> AllCompleted(t) || MayReport(t, Running) || MayReport(t, Failed)
    {
      PossibleByReports(t, OtherError);
    }
  }

  /** Some order leads to failure exactly when an error that is no requeue can come first, or one
      target has a pod held up by a Failed action and every target is completed or has such a pod. */
  lemma MayFailByReports(targets: seq<Target>)
    ensures MayDecide(targets, WriteFailed) <==>
            (exists i :: 0 <= i < |targets| && MayErr(targets[i], OtherError) &&
                         forall k :: 0 <= k < i ==> AllCompleted(targets[k]) || MayReport(targets[k], Running) ||
                                                    MayReport(targets[k], Failed)) ||
            ((exists t :: t in targets && MayReport(t, Failed)) &&
             forall t :: t in targets ==> AllCompleted(t) || MayReport(t, Failed))
  {
    MayFailIff(targets);
    forall i | 0 <= i < |targets|
      ensures MayStopWith(targets, i, OtherError) <==>
              MayErr(targets[i], OtherError) &&
              forall k :: 0 <= k < i ==> AllCompleted(targets[k]) || MayReport(targets[k], Running) ||
                                         MayReport(targets[k], Failed)
    {
      forall k | 0 <= k <= i
        ensures Possible(targets[k], Stops(OtherError)) <==> MayErr(targets[k], OtherError)
        ensures MayPass(targets[k]) <==>
                AllCompleted(targets[k]) || MayReport(targets[k], Running) || MayReport(targets[k], Failed)
      {
        PossibleByReports(targets[k], OtherError);
      }
    }
    forall t | t in targets
      ensures Possible(t, Fails) <==> MayReport(t, Failed)
      ensures MayEnd(t) <==> AllCompleted(t) || MayReport(t, Failed)
    {
      PossibleByReports(t, OtherError);
    }
  }

  /** A backup all of whose actions report Completed or Running is never failed, under any order. */
  lemma RunningIsNeverFailed(targets: seq<Target>)
    requires forall t :: t in targets ==> t.failure.None?
    requires forall t, pod, act :: t in targets && pod in t.pods && act in pod.acts ==>
               act.Reports? && (act.status.phase == Completed || act.status.phase == Running)
    ensures !MayDecide(targets, WriteFailed)
  {
    MayFailByReports(targets);
    forall t, pod, i | t in targets && pod in t.pods && 0 <= i < |pod.acts|
      ensures pod.acts[i].Reports? && pod.acts[i].status.phase != Failed
    {
      assert pod.acts[i] in pod.acts;
    }
  }

  // ---------------------------------------------------------------- running

  /** Target, pod and position of an executed action. */
  datatype Place = Place(target: nat, pod: nat, act: nat)

  predicate Exists(place: Place, targets: seq<Target>) {
    place.target < |targets| && place.pod < |targets[place.target].pods| &&
    place.act < |targets[place.target].pods[place.pod].acts|
  }

  function At(place: Place, targets: seq<Target>): (act: Action)
    requires Exists(place, targets)
  {
    targets[place.target].pods[place.pod].acts[place.act]
  }

  /** Each executed action comes after all earlier ones of its pod, which were all executed and
      reported Completed. */
  ghost predicate InTurn(executed: seq<Place>, targets: seq<Target>) {
    forall k :: 0 <= k < |executed| ==>
                  Exists(executed[k], targets) && Preceded(executed[..k], executed[k], targets)
  }

  ghost predicate Preceded(earlier: seq<Place>, place: Place, targets: seq<Target>)
    requires Exists(place, targets)
  {
    forall j :: 0 <= j < place.act ==>
                  place.(act := j) in earlier && VerdictOf(At(place.(act := j), targets)) == Done
  }

  lemma InTurnSnoc(executed: seq<Place>, place: Place, targets: seq<Target>)
    requires InTurn(executed, targets) && Exists(place, targets) && Preceded(executed, place, targets)
    ensures InTurn(executed + [place], targets)
  {
    var longer := executed + [place];
    forall k | 0 <= k < |longer|
      ensures Exists(longer[k], targets) && Preceded(longer[..k], longer[k], targets)
    {
      if k < |executed| {
        assert longer[..k] == executed[..k] && longer[k] == executed[k];
      } else {
        assert longer[..k] == executed;
      }
    }
  }

  /** The first n actions of a pod have been executed and reported Completed. */
  ghost predicate RanUpTo(executed: seq<Place>, t: nat, p: nat, n: nat, targets: seq<Target>)
    requires t < |targets| && p < |targets[t].pods| && n <= |targets[t].pods[p].acts|
  {
    forall j :: 0 <= j < n ==> Place(t, p, j) in executed && VerdictOf(targets[t].pods[p].acts[j]) == Done
  }

  lemma RanIsPreceded(executed: seq<Place>, t: nat, p: nat, n: nat, targets: seq<Target>)
    requires t < |targets| && p < |targets[t].pods| && n < |targets[t].pods[p].acts|
    requires RanUpTo(executed, t, p, n, targets)
    ensures Preceded(executed, Place(t, p, n), targets)
  {
    var place := Place(t, p, n);
    forall j | 0 <= j < n
      ensures place.(act := j) in executed && VerdictOf(At(place.(act := j), targets)) == Done
    {
      assert place.(act := j) == Place(t, p, j);
    }
  }

  lemma RanSnoc(executed: seq<Place>, t: nat, p: nat, n: nat, targets: seq<Target>)
    requires t < |targets| && p < |targets[t].pods| && n < |targets[t].pods[p].acts|
    requires RanUpTo(executed, t, p, n, targets) && VerdictOf(targets[t].pods[p].acts[n]) == Done
    ensures RanUpTo(executed + [Place(t, p, n)], t, p, n + 1, targets)
  {
  }

  lemma PodVerdictFrom(acts: seq<Action>, i: nat)
    requires i < |acts|
    ensures PodVerdict(acts[i..]) == if VerdictOf(acts[i]) == Done then PodVerdict(acts[i + 1..]) else VerdictOf(acts[i])
  {
    assert acts[i..][0] == acts[i] && acts[i..][1..] == acts[i + 1..];
  }

  /** The place is reached in its target: its actions could be built, all earlier pods are all
      Completed, and so are all earlier actions of its pod. */
  ghost predicate DueIn(target: Target, place: Place) {
    target.failure.None? && place.pod < |target.pods| && place.act < |target.pods[place.pod].acts| &&
    (forall q :: 0 <= q < place.pod ==> PodCompleted(target.pods[q])) && InLine(target.pods[place.pod].acts, place.act)
  }

  lemma PodsVerdictFrom(pods: seq<PodActions>, p: nat)
    requires p < |pods|
    ensures PodsVerdict(pods[p..]) ==
            if PodVerdict(pods[p].acts) == Done then PodsVerdict(pods[p + 1..]) else PodVerdict(pods[p].acts)
    ensures PodVerdict(pods[p].acts) == Done <==> PodCompleted(pods[p])
  {
    PodDoneIff(pods[p].acts);
    assert pods[p..][0] == pods[p] && pods[p..][1..] == pods[p + 1..];
  }

  /** The first n actions of a pod. */
  ghost function Places(t: nat, p: nat, n: nat): (r: seq<Place>)
    ensures |r| == n && forall i :: 0 <= i < n ==> r[i] == Place(t, p, i)
  {
    if n == 0 then [] else Places(t, p, n - 1) + [Place(t, p, n - 1)]
  }

  lemma PlacesSnoc(before: seq<Place>, t: nat, p: nat, n: nat)
    ensures (before + Places(t, p, n)) + [Place(t, p, n)] == before + Places(t, p, n + 1)
  {
  }

  lemma PlacesHave(before: seq<Place>, t: nat, p: nat, n: nat)
    ensures forall place :: place in before + Places(t, p, n) <==>
              place in before || (place.target == t && place.pod == p && place.act < n)
  {
    forall place: Place
      ensures place in Places(t, p, n) <==> place.target == t && place.pod == p && place.act < n
    {
      if place.target == t && place.pod == p && place.act < n {
        assert Places(t, p, n)[place.act] == place;
      }
    }
  }

  /** An action is among the first n exactly when all before it report Completed. */
  ghost predicate RunsTo(acts: seq<Action>, n: nat) {
    n <= |acts| && forall i :: 0 <= i < |acts| ==> (i < n <==> InLine(acts, i))
  }

  lemma RanToHere(executed: seq<Place>, t: nat, p: nat, i: nat, targets: seq<Target>)
    requires t < |targets| && p < |targets[t].pods| && i < |targets[t].pods[p].acts|
    requires RanUpTo(executed, t, p, i, targets)
    ensures var acts := targets[t].pods[p].acts; VerdictOf(acts[i]) != Done ==> RunsTo(acts, i + 1)
  {
    var acts := targets[t].pods[p].acts;
    if VerdictOf(acts[i]) != Done {
      forall k | 0 <= k < |acts|
        ensures k < i + 1 <==> InLine(acts, k)
      {
        assert k > i ==> !IsCompleted(acts[i]);
      }
    }
  }

  lemma RanToEnd(executed: seq<Place>, t: nat, p: nat, targets: seq<Target>)
    requires t < |targets| && p < |targets[t].pods|
    requires RanUpTo(executed, t, p, |targets[t].pods[p].acts|, targets)
    ensures RunsTo(targets[t].pods[p].acts, |targets[t].pods[p].acts|)
  {
  }

  /** Of the first p pods of target t exactly what is due has been executed since before. */
  ghost predicate TargetRan(before: seq<Place>, executed: seq<Place>, t: nat, target: Target, p: nat) {
    forall place :: place in executed <==>
                      place in before || (place.target == t && place.pod < p && DueIn(target, place))
  }

  lemma TargetRanStep(before: seq<Place>, middle: seq<Place>, t: nat, target: Target, p: nat, n: nat)
    requires target.failure.None? && p < |target.pods| && forall q :: 0 <= q < p ==> PodCompleted(target.pods[q])
    requires TargetRan(before, middle, t, target, p) && RunsTo(target.pods[p].acts, n)
    ensures TargetRan(before, middle + Places(t, p, n), t, target, p + 1)
    ensures !PodCompleted(target.pods[p]) ==> TargetRan(before, middle + Places(t, p, n), t, target, |target.pods|)
  {
    var after := middle + Places(t, p, n);
    PlacesHave(middle, t, p, n);
    forall place: Place
      ensures place in after <==> place in before || (place.target == t && place.pod < p + 1 && DueIn(target, place))
    {
      if place.target == t && place.pod == p && place.act < |target.pods[p].acts| {
        assert place.act < n <==> InLine(target.pods[p].acts, place.act);
      }
    }
    if !PodCompleted(target.pods[p]) {
      forall place: Place | place.pod > p
        ensures !DueIn(target, place)
      {
      }
    }
  }

  /** Of the first t targets exactly what is due has been executed. */
  ghost predicate AllRan(executed: seq<Place>, targets: seq<Target>, t: nat)
    requires t <= |targets|
  {
    forall place :: place in executed <==> place.target < t && DueIn(targets[place.target], place)
  }

  lemma AllRanStep(before: seq<Place>, executed: seq<Place>, targets: seq<Target>, t: nat)
    requires t < |targets| && AllRan(before, targets, t)
    requires TargetRan(before, executed, t, targets[t], |targets[t].pods|)
    ensures AllRan(executed, targets, t + 1)
  {
  }

  /** An action is executed exactly when no earlier target ends in an error, the actions of its
      own could be built, and all earlier pods and all earlier actions of its pod are Completed. */
  ghost predicate ExecutedExactly(executed: seq<Place>, targets: seq<Target>) {
    forall place :: place in executed <==>
                      place.target < |targets| && DueIn(targets[place.target], place) &&
                      NoneErrs(targets[..place.target])
  }

  lemma StoppedAt(executed: seq<Place>, targets: seq<Target>, t: nat)
    requires t < |targets| && AllRan(executed, targets, t + 1) && TargetVerdict(targets[t]).Stops?
    requires forall k :: 0 <= k <= t ==> NoneErrs(targets[..k])
    ensures ExecutedExactly(executed, targets)
  {
    ErrorHidesRest(targets, t);
  }

  lemma RanThrough(executed: seq<Place>, targets: seq<Target>)
    requires AllRan(executed, targets, |targets|) && forall k :: 0 <= k <= |targets| ==> NoneErrs(targets[..k])
    ensures ExecutedExactly(executed, targets)
  {
  }

  ghost predicate AllExist(executed: seq<Place>, targets: seq<Target>) {
    forall place :: place in executed ==> Exists(place, targets)
  }

  /** The records after the executed actions have reported, one merge after the other. */
  ghost function Recorded(recorded: seq<ActionStatus>, executed: seq<Place>, targets: seq<Target>, now: int)
    : (r: seq<ActionStatus>)
    requires AllExist(executed, targets)
    ensures Preserves(recorded, r)
    decreases |executed|
  {
    if executed == [] then recorded
    else
      var place := executed[|executed| - 1];
      var earlier := executed[..|executed| - 1];
      assert place in executed && forall e :: e in earlier ==> e in executed;
      var before := Recorded(recorded, earlier, targets, now);
      match At(place, targets)
      case Errs(_) => before
      case Reports(status) =>
        var full := status.(pod := targets[place.target].pods[place.pod].pod);
        MergedPreserves(before, full, now);
        PreservesTransitive(recorded, before, Merged(before, full, now));
        Merged(before, full, now)
  }

  /** The status of a running backup, and which actions this reconcile has executed so far. */
  class RunningBackup {
    var actions: seq<ActionStatus>
    var executed: seq<Place>

    constructor (recorded: seq<ActionStatus>)
      ensures actions == recorded && executed == []
    {
      actions, executed := recorded, [];
    }

    /** mergeActionStatus. */
    method MergeActionStatus(status: ActionStatus, now: int)
      modifies this`actions
      ensures actions == Merged(old(actions), status, now)
    {
      var exist := false;
      var i := 0;
      while i < |actions|
        invariant i <= |actions| && actions == old(actions) && !exist
        invariant forall j :: 0 <= j < i ==> actions[j].name != status.name
      {
        if actions[i].name == status.name {
          var merged := status;
          if HasPrefix(actions[i].failureReason, LOG_COLLECTOR_OUTPUT) {
            merged := merged.(failureReason := actions[i].failureReason);
          }
          if actions[i].start.Some? {
            merged := merged.(start := actions[i].start);
          }
          MergedAt(actions, status, now, i);
          actions := actions[i := merged];
          exist := true;
          break;
        }
        i := i + 1;
      }
      if !exist {
        MergedAt(actions, status, now, i);
        actions := actions + [status.(start := Some(now))];
      }
    }

    /** What the loops keep: executed in turn, every report merged. */
    ghost predicate Consistent(recorded: seq<ActionStatus>, targets: seq<Target>, now: int)
      reads this
    {
      InTurn(executed, targets) && AllExist(executed, targets) &&
      actions == Recorded(recorded, executed, targets, now)
    }

    /** Execute one action and merge its report. */
    method ExecuteAct(place: Place, targets: seq<Target>, now: int, ghost recorded: seq<ActionStatus>) returns (v: Verdict)
      requires Consistent(recorded, targets, now)
      requires Exists(place, targets) && Preceded(executed, place, targets)
      modifies this
      ensures Consistent(recorded, targets, now) && executed == old(executed) + [place]
      ensures v == VerdictOf(At(place, targets))
      ensures match At(place, targets)
        case Errs(error) => v == Stops(error)
        case Reports(status) =>
          (v.Done? <==> status.phase.Completed?) && (v.Fails? <==> status.phase.Failed?) &&
          (v.Waits? <==> status.phase.Running? || status.phase.Pending?)
    {
      InTurnSnoc(executed, place, targets);
      var act := At(place, targets);
      ghost var longer := executed + [place];
      assert longer[..|longer| - 1] == executed;
      assert AllExist(longer, targets);
      executed := executed + [place];
      match act {
        case Errs(error) =>
          v := Stops(error);
        case Reports(status) =>
          var full := status.(pod := targets[place.target].pods[place.pod].pod);
          MergeActionStatus(full, now);
          v := if status.phase.Completed? then Done else if status.phase.Failed? then Fails else Waits;
      }
    }

    /** The innermost loop: the actions of one pod, until one is not completed. */
    method RunPod(t: nat, p: nat, targets: seq<Target>, now: int, ghost recorded: seq<ActionStatus>)
      returns (v: Verdict, ghost n: nat)
      requires Consistent(recorded, targets, now)
      requires t < |targets| && p < |targets[t].pods|
      modifies this
      ensures Consistent(recorded, targets, now)
      ensures v == PodVerdict(targets[t].pods[p].acts)
      ensures executed == old(executed) + Places(t, p, n) && RunsTo(targets[t].pods[p].acts, n)
    {
      var acts := targets[t].pods[p].acts;
      assert acts[0..] == acts;
      n := 0;
      for i := 0 to |acts|
        invariant Consistent(recorded, targets, now) && n == i
        invariant executed == old(executed) + Places(t, p, i)
        invariant RanUpTo(executed, t, p, i, targets)
        invariant PodVerdict(acts) == PodVerdict(acts[i..])
      {
        RanIsPreceded(executed, t, p, i, targets);
        PodVerdictFrom(acts, i);
        RanToHere(executed, t, p, i, targets);
        PlacesSnoc(old(executed), t, p, i);
        ghost var before := executed;
        n := n + 1;
        v := ExecuteAct(Place(t, p, i), targets, now, recorded);
        if v != Done {
          return;
        }
        RanSnoc(before, t, p, i, targets);
      }
      RanToEnd(executed, t, p, targets);
      v := Done;
    }

    /** The loop over the pods of one target, left at the first pod that is not done. */
    method RunTarget(t: nat, targets: seq<Target>, now: int, ghost recorded: seq<ActionStatus>) returns (v: Verdict)
      requires Consistent(recorded, targets, now) && t < |targets|
      modifies this
      ensures Consistent(recorded, targets, now) && old(executed) <= executed
      ensures v == TargetVerdict(targets[t])
      ensures TargetRan(old(executed), executed, t, targets[t], |targets[t].pods|)
    {
      if targets[t].failure.Some? {
        return Stops(targets[t].failure.value);
      }
      var pods := targets[t].pods;
      assert pods[0..] == pods;
      for p := 0 to |pods|
        invariant Consistent(recorded, targets, now) && old(executed) <= executed
        invariant PodsVerdict(pods) == PodsVerdict(pods[p..])
        invariant forall q :: 0 <= q < p ==> PodCompleted(pods[q])
        invariant TargetRan(old(executed), executed, t, targets[t], p)
      {
        ghost var before := executed;
        ghost var n;
        v, n := RunPod(t, p, targets, now, recorded);
        PodsVerdictFrom(pods, p);
        TargetRanStep(old(executed), before, t, targets[t], p, n);
        if v != Done {
          return;
        }
      }
      v := Done;
    }

    /** handleRunningPhase from the loop over the targets on: Completed is written exactly when
        every action of every target reports Completed. */
    method HandleRunningPhase(targets: seq<Target>, now: int) returns (d: Decision)
      requires executed == []
      modifies this
      ensures Consistent(old(actions), targets, now)
      ensures forall e :: Decided(Verdicts(targets), e) <==> e == d
      ensures d == WriteCompleted <==> forall t :: t in targets ==> AllCompleted(t)
      ensures DecidedByReports(targets, d)
      ensures ExecutedExactly(executed, targets)
    {
      ghost var recorded, vs := actions, Verdicts(targets);
      CompletedIff(targets);
      var existFailedAction, waiting := false, false;
      for t := 0 to |targets|
        invariant Consistent(recorded, targets, now)
        invariant Seen(vs[..t], existFailedAction, waiting)
        invariant AllRan(executed, targets, t)
      {
        PrefixByReports(targets, t);
        ghost var before := executed;
        var v := RunTarget(t, targets, now, recorded);
        AllRanStep(before, executed, targets, t);
        if v.Stops? {
          StopDecides(vs, t);
          // updateStatusIfFailed
          d := if v.error == RequeueError then Requeue else WriteFailed;
          DecisionByReports(targets, d);
          StoppedAt(executed, targets, t);
          return;
        }
        SeenSnoc(vs, t, existFailedAction, waiting);
        if v == Fails {
          existFailedAction := true;
        } else if v == Waits {
          waiting := true;
        }
      }
      assert vs[..|targets|] == vs;
      PassedDecides(vs);
      PrefixByReports(targets, |targets|);
      if waiting {
        d := Wait;
      } else if existFailedAction {
        d := WriteFailed;
      } else {
        d := WriteCompleted;
      }
      DecisionByReports(targets, d);
      RanThrough(executed, targets);
    }
  }

  lemma VerdictsPrefix(targets: seq<Target>, k: nat)
    requires k <= |targets|
    ensures Verdicts(targets[..k]) == Verdicts(targets)[..k]
  {
  }

  lemma {:induction false} PrefixHasNoErr(targets: seq<Target>, t: nat, k: nat)
    requires k <= t <= |targets| && NoStop(Verdicts(targets)[..t])
    ensures NoneErrs(targets[..k])
  {
    forall target, e | target in targets[..k]
      ensures !TargetErrs(target, e)
    {
      var i :| 0 <= i < k && targets[i] == target;
      assert Verdicts(targets)[..t][i] == TargetVerdict(target);
      TargetVerdictByReports(target, e);
    }
  }

  /** No error in the targets seen so far, when none has stopped the loop. */
  lemma PrefixByReports(targets: seq<Target>, t: nat)
    requires t <= |targets| && NoStop(Verdicts(targets)[..t])
    ensures forall k :: 0 <= k <= t ==> NoneErrs(targets[..k])
  {
    forall k | 0 <= k <= t
      ensures NoneErrs(targets[..k])
    {
      PrefixHasNoErr(targets, t, k);
    }
  }

  /** Behind a target that ends in an error none is looked at. */
  lemma ErrorHidesRest(targets: seq<Target>, t: nat)
    requires t < |targets| && TargetVerdict(targets[t]).Stops?
    ensures forall k :: t < k <= |targets| ==> !NoneErrs(targets[..k])
  {
    var e := TargetVerdict(targets[t]).error;
    TargetVerdictByReports(targets[t], e);
    forall k | t < k <= |targets|
      ensures !NoneErrs(targets[..k])
    {
      assert targets[..k][t] == targets[t];
    }
  }

  /** What the two flags say about the targets seen so far. */
  ghost predicate Seen(vs: seq<Verdict>, failed: bool, waiting: bool) {
    NoStop(vs) && (failed <==> Fails in vs) && (waiting <==> Waits in vs)
  }

  lemma SeenSnoc(vs: seq<Verdict>, t: nat, failed: bool, waiting: bool)
    requires t < |vs| && Seen(vs[..t], failed, waiting) && !vs[t].Stops?
    ensures Seen(vs[..t + 1], failed || vs[t] == Fails, waiting || vs[t] == Waits)
  {
    assert vs[..t + 1] == vs[..t] + [vs[t]];
  }

  lemma PassedDecides(vs: seq<Verdict>)
    requires NoStop(vs)
    ensures !Decided(vs, Requeue)
    ensures Decided(vs, Wait) <==> Waits in vs
    ensures Decided(vs, WriteFailed) <==> Waits !in vs && Fails in vs
    ensures Decided(vs, WriteCompleted) <==> Waits !in vs && Fails !in vs
  {
    if Waits !in vs && Fails !in vs {
      forall i | 0 <= i < |vs|
        ensures vs[i] == Done
      {
        assert vs[i] in vs;
      }
    }
  }
}
