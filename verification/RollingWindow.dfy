/** Rolling reconfiguration of the pods of a component: the sliding window, one upgrade
    step, whole runs, and the size of the window.

    Sources: controllers/parameters/rolling_upgrade_policy.go,
    controllers/parameters/reconfigure_policy.go. */
module RollingWindow {
  import opened Common

  /** IsPodAvailable implies IsPodReady; the three cases of classifyPodByStats. */
  datatype Health = NotReady | ReadyOnly | Available

  /** carried is the value of the config-version label, if the pod has one. */
  datatype Pod = Pod(name: string, carried: Option<string>, health: Health)

  predicate Matches(p: Pod, version: string) {
    p.carried == Some(version)
  }

  predicate Done(p: Pod, version: string) {
    Matches(p, version) && p.health.Available?
  }

  predicate IsReady(p: Pod) {
    !p.health.NotReady?
  }

  ghost predicate DistinctNames(pods: seq<Pod>) {
    forall i, j :: 0 <= i < j < |pods| ==> pods[i].name != pods[j].name
  }

  function NamesOf(pods: seq<Pod>): set<string> {
    set p | p in pods :: p.name
  }

  /** Names of the pods in pods[lo..hi] that carry the version. */
  function MatchingNames(pods: seq<Pod>, version: string, lo: nat, hi: nat): set<string>
    requires lo <= hi <= |pods|
  {
    set i | lo <= i < hi && Matches(pods[i], version) :: pods[i].name
  }

  // ------------------------------------------------------------- window

  /** One past the highest pod that is not both updated and available. */
  function WindowEnd(pods: seq<Pod>, version: string): (end: nat)
    ensures end <= |pods|
    ensures forall j :: end <= j < |pods| ==> Done(pods[j], version)
    ensures end > 0 ==> !Done(pods[end - 1], version)
  {
    if pods == [] then 0
    else if Done(pods[|pods| - 1], version) then WindowEnd(pods[..|pods| - 1], version)
    else |pods|
  }

  function WindowBegin(end: nat, k: int): (begin: nat)
    requires k >= 1
    ensures begin <= end && end - begin <= k
  {
    Max(end - k, 0)
  }

  /** componentPodStats: name sets that the classification and the window fill in place. */
  class PodStats {
    var ready: set<string>
    var available: set<string>
    var updated: set<string>
    var updating: set<string>
    const targetReplica: nat

    constructor (target: nat)
      ensures targetReplica == target
      ensures ready == {} && available == {} && updated == {} && updating == {}
    {
      targetReplica := target;
      ready, available, updated, updating := {}, {}, {}, {};
    }
  }

  method ClassifyPodByStats(pods: seq<Pod>, target: nat) returns (stats: PodStats)
    ensures fresh(stats) && stats.targetReplica == target
    ensures stats.available == AvailableNames(pods)
    ensures stats.ready == ReadyNames(pods)
    ensures stats.updated == {} && stats.updating == {}
  {
    stats := new PodStats(target);
    for i := 0 to |pods|
      invariant stats.available == set p | p in pods[..i] && p.health.Available? :: p.name
      invariant stats.ready == set p | p in pods[..i] && p.health.ReadyOnly? :: p.name
      invariant stats.updated == {} && stats.updating == {}
    {
      assert pods[..i + 1] == pods[..i] + [pods[i]];
      if pods[i].health.Available? {
        stats.available := stats.available + {pods[i].name};
      } else if pods[i].health.ReadyOnly? {
        stats.ready := stats.ready + {pods[i].name};
      }
    }
    assert pods[..|pods|] == pods;
  }

  function AvailableNames(pods: seq<Pod>): set<string> {
    set p | p in pods && p.health.Available? :: p.name
  }

  function ReadyNames(pods: seq<Pod>): set<string> {
    set p | p in pods && p.health.ReadyOnly? :: p.name
  }

  /** With distinct names, membership by name is membership by pod. */
  lemma NameDecides(pods: seq<Pod>, i: nat)
    requires DistinctNames(pods) && i < |pods|
    ensures pods[i].name in AvailableNames(pods) <==> pods[i].health.Available?
    ensures pods[i].name in ReadyNames(pods) <==> pods[i].health.ReadyOnly?
  {
    forall p | p in pods && p.name == pods[i].name
      ensures p == pods[i]
    {
      var j :| 0 <= j < |pods| && pods[j] == p;
    }
  }

  /** The names are those of the available pods. */
  ghost predicate TellsAvailable(names: set<string>, pods: seq<Pod>) {
    forall i :: 0 <= i < |pods| ==> (pods[i].name in names <==> pods[i].health.Available?)
  }

  lemma NamesTell(pods: seq<Pod>)
    requires DistinctNames(pods)
    ensures TellsAvailable(AvailableNames(pods), pods)
  {
    forall i | 0 <= i < |pods|
      ensures pods[i].name in AvailableNames(pods) <==> pods[i].health.Available?
    {
      NameDecides(pods, i);
    }
  }

  predicate DoneFrom(pods: seq<Pod>, version: string, end: nat) {
    forall j :: end <= j < |pods| ==> Done(pods[j], version)
  }

  lemma WindowEndIs(pods: seq<Pod>, version: string, end: nat)
    requires end <= |pods| && DoneFrom(pods, version, end)
    requires end > 0 ==> !Done(pods[end - 1], version)
    ensures end == WindowEnd(pods, version)
  {
  }

  lemma NamesFrom(pods: seq<Pod>, i: nat)
    requires i < |pods|
    ensures NamesOf(pods[i..]) == NamesOf(pods[i + 1..]) + {pods[i].name}
  {
    assert pods[i..] == [pods[i]] + pods[i + 1..];
  }

  lemma NamesFromEnd(pods: seq<Pod>)
    ensures NamesOf(pods[|pods|..]) == {}
  {
  }

  /** The downward scan of markDynamicSwitchWindow. */
  method ScanDown(pods: seq<Pod>, stats: PodStats, version: string) returns (end: nat)
    requires stats.targetReplica == |pods| && TellsAvailable(stats.available, pods)
    requires stats.updated == {} && stats.updating == {}
    modifies stats`updated, stats`updating
    ensures end == WindowEnd(pods, version)
    ensures stats.updated == NamesOf(pods[end..])
    ensures stats.updating ==
      if end > 0 && Matches(pods[end - 1], version) then {pods[end - 1].name} else {}
  {
    var i := stats.targetReplica - 1;
    NamesFromEnd(pods);
    while i >= 0
      invariant -1 <= i < |pods|
      invariant stats.updating == {}
      invariant DoneFrom(pods, version, i + 1)
      invariant stats.updated == NamesOf(pods[i + 1..])
    {
      if !Matches(pods[i], version) {
        WindowEndIs(pods, version, i + 1);
        return i + 1;
      }
      if pods[i].name !in stats.available {
        stats.updating := stats.updating + {pods[i].name};
        WindowEndIs(pods, version, i + 1);
        return i + 1;
      }
      NamesFrom(pods, i);
      stats.updated := stats.updated + {pods[i].name};
      i := i - 1;
    }
    WindowEndIs(pods, version, 0);
    return 0;
  }

  method MarkDynamicSwitchWindow(pods: seq<Pod>, stats: PodStats, version: string, k: int)
    returns (begin: nat, end: nat)
    requires DistinctNames(pods) && stats.targetReplica == |pods| && k >= 1
    requires stats.available == AvailableNames(pods)
    requires stats.updated == {} && stats.updating == {}
    modifies stats`updated, stats`updating
    ensures end == WindowEnd(pods, version) && begin == WindowBegin(end, k)
    ensures stats.updated == NamesOf(pods[end..])
    ensures stats.updating == MatchingNames(pods, version, begin, end)
  {
    NamesTell(pods);
    end := ScanDown(pods, stats, version);
    begin := Max(end - k, 0);
    for j := begin to end
      invariant stats.updated == NamesOf(pods[end..])
      invariant MatchingNames(pods, version, begin, j) <= stats.updating
      invariant stats.updating <= MatchingNames(pods, version, begin, end)
    {
      if Matches(pods[j], version) {
        stats.updating := stats.updating + {pods[j].name};
      }
    }
  }

  method CanSafeUpdatePods(pods: seq<Pod>, stats: PodStats, begin: nat) returns (safe: bool)
    requires DistinctNames(pods) && begin <= |pods|
    requires stats.available == AvailableNames(pods)
    requires stats.ready == ReadyNames(pods)
    ensures safe <==> forall i :: 0 <= i < begin ==> IsReady(pods[i])
  {
    for i := 0 to begin
      invariant forall j :: 0 <= j < i ==> IsReady(pods[j])
    {
      NameDecides(pods, i);
      if !(pods[i].name in stats.ready || pods[i].name in stats.available) {
        return false;
      }
    }
    return true;
  }

  // ---------------------------------------------------------- one upgrade

  datatype Exec = ESNone | ESRetry | ESFailedAndRetry

  /** Counts are -1 while unconfirmed. */
  datatype Returned = Returned(exec: Exec, succeed: int, expected: int)

  const UNCONFIRMED := -1

  function Disturb(p: Pod, outcome: Outcome): Pod {
    if outcome.Stored() then p.(health := NotReady) else p
  }

  function Relabel(p: Pod, version: string, outcome: Outcome): Pod {
    if outcome.Stored() then p.(carried := Some(version)) else p
  }

  type Faults = nat -> Outcome

  /** The pods after the restart loop has run over [i, end), and whether it hit an error.
      A restart may disturb the pod and still report an error. */
  function UpgradeRange(pods: seq<Pod>, i: nat, end: nat, version: string, restart: Faults, relabel: Faults)
    : (seq<Pod>, bool)
    requires i <= end <= |pods|
    decreases end - i
  {
    if i == end then (pods, false)
    else if Matches(pods[i], version) then UpgradeRange(pods, i + 1, end, version, restart, relabel)
    else
      var down := Disturb(pods[i], restart(i));
      if restart(i).Error() then (pods[i := down], true)
      else
        var marked := Relabel(down, version, relabel(i));
        if relabel(i).Error() then (pods[i := marked], true)
        else UpgradeRange(pods[i := marked], i + 1, end, version, restart, relabel)
  }

  /** The pods that this loop asks to restart, whatever comes of it. */
  function RestartsIn(pods: seq<Pod>, i: nat, end: nat, version: string, restart: Faults, relabel: Faults): set<nat>
    requires i <= end <= |pods|
    decreases end - i
  {
    if i == end then {}
    else if Matches(pods[i], version) then RestartsIn(pods, i + 1, end, version, restart, relabel)
    else if restart(i).Error() || relabel(i).Error() then {i}
    else {i} + RestartsIn(pods, i + 1, end, version, restart, relabel)
  }

  predicate ReadyBefore(pods: seq<Pod>, begin: nat)
    requires begin <= |pods|
  {
    forall i :: 0 <= i < begin ==> IsReady(pods[i])
  }

  /** What one call of performRollingUpgrade returns, and the pods it leaves. */
  function Rolling(pods: seq<Pod>, target: nat, version: string, k: int, restart: Faults, relabel: Faults)
    : (Returned, seq<Pod>)
    requires k >= 1
  {
    if |pods| != target then (Returned(ESRetry, UNCONFIRMED, UNCONFIRMED), pods)
    else
      var end := WindowEnd(pods, version);
      var begin := WindowBegin(end, k);
      if !ReadyBefore(pods, begin) then (Returned(ESRetry, UNCONFIRMED, UNCONFIRMED), pods)
      else if begin == end then (Returned(ESNone, target, target), pods)
      else
        var (after, failed) := UpgradeRange(pods, begin, end, version, restart, relabel);
        if failed then (Returned(ESFailedAndRetry, UNCONFIRMED, UNCONFIRMED), after)
        else
          var succeed := |NamesOf(pods[end..])| + |MatchingNames(pods, version, begin, end)|;
          (Returned(ESRetry, succeed, target), after)
  }

  /** The pods that one call asks to restart. */
  function Restarts(pods: seq<Pod>, target: nat, version: string, k: int, restart: Faults, relabel: Faults): set<nat>
    requires k >= 1
  {
    var end := WindowEnd(pods, version);
    var begin := WindowBegin(end, k);
    if |pods| == target && ReadyBefore(pods, begin) then RestartsIn(pods, begin, end, version, restart, relabel) else {}
  }

  /** Restart comes before label: a pod whose version has changed was asked to restart, did, and is
      not ready. */
  ghost predicate LabelsFollow(before: seq<Pod>, after: seq<Pod>, version: string, restart: Faults, restarted: set<nat>) {
    |after| == |before| &&
    forall j: nat :: j < |before| && after[j].carried != before[j].carried ==>
      j in restarted && restart(j).Applied? && after[j].health.NotReady? && after[j].carried == Some(version)
  }

  /** The pods of one component, as the API server holds them. */
  class Component {
    var pods: seq<Pod>

    constructor (pods: seq<Pod>)
      ensures this.pods == pods
    {
      this.pods := pods;
    }

    /** The restart loop: skip pods that are updating, restart and relabel the others. */
    method RestartWindow(updating: set<string>, begin: nat, end: nat, version: string,
                         restart: Faults, relabel: Faults)
      returns (failed: bool, restarted: set<nat>)
      requires DistinctNames(pods) && begin <= end <= |pods|
      requires updating == MatchingNames(pods, version, begin, end)
      modifies this
      ensures (pods, failed) == UpgradeRange(old(pods), begin, end, version, restart, relabel)
      ensures restarted == RestartsIn(old(pods), begin, end, version, restart, relabel)
      ensures LabelsFollow(old(pods), pods, version, restart, restarted)
    {
      restarted := {};
      for i := begin to end
        invariant |pods| == |old(pods)| && forall j :: i <= j < end ==> pods[j] == old(pods)[j]
        invariant UpgradeRange(old(pods), begin, end, version, restart, relabel) ==
                  UpgradeRange(pods, i, end, version, restart, relabel)
        invariant RestartsIn(old(pods), begin, end, version, restart, relabel) ==
                  restarted + RestartsIn(old(pods), i, end, version, restart, relabel)
      {
        ghost var before := pods;
        UpdatingIsMatching(old(pods), version, begin, end, i);
        if pods[i].name in updating {
          continue;
        }
        pods := pods[i := Disturb(pods[i], restart(i))];
        restarted := restarted + {i};
        if restart(i).Error() {
          RelabelsNeedRestarts(old(pods), begin, end, version, restart, relabel);
          return true, restarted;
        }
        pods := pods[i := Relabel(pods[i], version, relabel(i))];
        assert pods == before[i := Relabel(Disturb(before[i], restart(i)), version, relabel(i))];
        if relabel(i).Error() {
          RelabelsNeedRestarts(old(pods), begin, end, version, restart, relabel);
          return true, restarted;
        }
      }
      RelabelsNeedRestarts(old(pods), begin, end, version, restart, relabel);
      return false, restarted;
    }

    method PerformRollingUpgrade(target: nat, version: string, k: int, listFails: bool,
                                 restart: Faults, relabel: Faults)
      returns (status: Returned, restarted: set<nat>)
      requires DistinctNames(pods) && k >= 1
      modifies this
      ensures listFails ==>
                status == Returned(ESFailedAndRetry, UNCONFIRMED, UNCONFIRMED) && pods == old(pods) && restarted == {}
      ensures !listFails ==>
                (status, pods) == Rolling(old(pods), target, version, k, restart, relabel) &&
                restarted == Restarts(old(pods), target, version, k, restart, relabel)
      ensures LabelsFollow(old(pods), pods, version, restart, restarted)
    {
      LabelFollowsRestart(pods, target, version, k, restart, relabel);
      restarted := {};
      if listFails {
        return Returned(ESFailedAndRetry, UNCONFIRMED, UNCONFIRMED), restarted;
      }
      var snapshot := pods;
      if |snapshot| != target {
        return Returned(ESRetry, UNCONFIRMED, UNCONFIRMED), restarted;
      }
      var stats := ClassifyPodByStats(snapshot, target);
      var begin, end := MarkDynamicSwitchWindow(snapshot, stats, version, k);
      var safe := CanSafeUpdatePods(snapshot, stats, begin);
      if !safe {
        return Returned(ESRetry, UNCONFIRMED, UNCONFIRMED), restarted;
      }
      if begin == end {
        return Returned(ESNone, target, target), restarted;
      }
      var failed;
      failed, restarted := RestartWindow(stats.updating, begin, end, version, restart, relabel);
      if failed {
        return Returned(ESFailedAndRetry, UNCONFIRMED, UNCONFIRMED), restarted;
      }
      return Returned(ESRetry, |stats.updated| + |stats.updating|, target), restarted;
    }
  }

  lemma UpdatingIsMatching(pods: seq<Pod>, version: string, begin: nat, end: nat, i: nat)
    requires DistinctNames(pods) && begin <= i < end <= |pods|
    ensures pods[i].name in MatchingNames(pods, version, begin, end) <==> Matches(pods[i], version)
  {
  }

  // ---------------------------------------------------------- window size

  /** A maxUnavailable setting after GetIntOrPercentValue: a number, a percentage,
      or a string that does not parse. */
  datatype MaxUnavailable = Absolute(v: int) | Percent(v: int) | Malformed

  const MAX_INT32 := 0x7fff_ffff

  /** The first setting among the instance sets, if any. */
  function FirstSetting(units: seq<Option<MaxUnavailable>>): Option<MaxUnavailable> {
    if units == [] then None
    else if units[0].Some? then units[0]
    else FirstSetting(units[1..])
  }

  /** k is v percent of the replicas, rounded down, and at least one. */
  predicate IsShare(k: int, v: int, replicas: nat) {
    v * replicas < 100 * (k + 1) && (k > 1 ==> 100 * k <= v * replicas)
  }

  /** maxRollingReplicas. The conversion of a float outside the int32 range is left to the
      platform; overflow stands for whatever it yields. */
  method MaxRollingReplicas(hasComponent: bool, units: seq<Option<MaxUnavailable>>, replicas: nat, overflow: int)
    returns (k: int)
    requires replicas <= MAX_INT32
    ensures k >= 1
    ensures !hasComponent || FirstSetting(units).None? || FirstSetting(units).value.Malformed? ==> k == 1
    ensures hasComponent && FirstSetting(units).Some? ==>
      match FirstSetting(units).value
      case Malformed => true
      case Absolute(v) => k <= Max(1, replicas) && (1 <= v <= replicas ==> k == v) && (v > replicas >= 1 ==> k == replicas)
      case Percent(v) =>
        (if -MAX_INT32 - 1 <= v * replicas / 100 <= MAX_INT32 then IsShare(k, v, replicas) else k == Max(overflow, 1)) &&
        (-100 <= v <= 100 ==> IsShare(k, v, replicas) && k <= Max(1, replicas))
  {
    if !hasComponent {
      return 1;
    }
    var setting: Option<MaxUnavailable> := None;
    for i := 0 to |units|
      invariant setting.None?
      invariant FirstSetting(units) == FirstSetting(units[i..])
    {
      assert units[i..][1..] == units[i + 1..];
      setting := units[i];
      if setting.Some? {
        assert FirstSetting(units[i..]) == setting;
        break;
      }
    }
    assert FirstSetting(units) == setting;
    if setting.None? || setting.value.Malformed? {
      return 1;
    }
    var r;
    if setting.value.Percent? {
      r := setting.value.v * replicas / 100;
      if -100 <= setting.value.v <= 100 {
        PercentBound(setting.value.v, replicas);
      }
      if r > MAX_INT32 || r < -MAX_INT32 - 1 {
        r := overflow;
      }
    } else {
      r := Max(Min(setting.value.v, replicas), -MAX_INT32 - 1);
    }
    return Max(r, 1);
  }

  lemma PercentBound(v: int, replicas: nat)
    requires -100 <= v <= 100
    ensures -100 * replicas <= v * replicas <= 100 * replicas
  {
    assert (100 - v) * replicas >= 0 && (v + 100) * replicas >= 0;
  }

  // --------------------------------------------------------- whole runs

  lemma {:induction false} UpgradeRangeFrame(pods: seq<Pod>, i: nat, end: nat, version: string,
                                             restart: Faults, relabel: Faults)
    requires i <= end <= |pods|
    ensures var r := UpgradeRange(pods, i, end, version, restart, relabel).0;
      && |r| == |pods|
      && (forall j :: 0 <= j < |pods| ==> r[j].name == pods[j].name)
      && (forall j :: 0 <= j < |pods| && !(i <= j < end) ==> r[j] == pods[j])
      && (forall j :: 0 <= j < |pods| && Matches(pods[j], version) ==> r[j] == pods[j])
    decreases end - i
  {
    if i < end {
      if Matches(pods[i], version) {
        UpgradeRangeFrame(pods, i + 1, end, version, restart, relabel);
      } else if !restart(i).Error() && !relabel(i).Error() {
        var marked := Relabel(Disturb(pods[i], restart(i)), version, relabel(i));
        UpgradeRangeFrame(pods[i := marked], i + 1, end, version, restart, relabel);
      }
    }
  }

  /** A restart loop asks to restart only pods of its range that do not carry the version, and
      changes no others. */
  lemma {:induction false} RestartsInFrame(pods: seq<Pod>, i: nat, end: nat, version: string,
                                           restart: Faults, relabel: Faults, j: nat)
    requires i <= end <= |pods| && j < |pods|
    ensures j in RestartsIn(pods, i, end, version, restart, relabel) ==> i <= j < end && !Matches(pods[j], version)
    ensures var r := UpgradeRange(pods, i, end, version, restart, relabel).0;
      |r| == |pods| && (r[j] != pods[j] ==> j in RestartsIn(pods, i, end, version, restart, relabel))
    decreases end - i
  {
    UpgradeRangeFrame(pods, i, end, version, restart, relabel);
    if i < end {
      RestartsInFrame(pods, i + 1, end, version, restart, relabel, j);
      if !Matches(pods[i], version) && !restart(i).Error() && !relabel(i).Error() {
        var marked := Relabel(Disturb(pods[i], restart(i)), version, relabel(i));
        RestartsInFrame(pods[i := marked], i + 1, end, version, restart, relabel, j);
        RestartsSame(pods, pods[i := marked], i + 1, end, version, restart, relabel);
      }
    }
  }

  lemma {:induction false} RestartsSame(pods: seq<Pod>, others: seq<Pod>, i: nat, end: nat, version: string,
                                        restart: Faults, relabel: Faults)
    requires i <= end <= |pods| == |others| && forall j :: i <= j < end ==> pods[j] == others[j]
    ensures RestartsIn(pods, i, end, version, restart, relabel) == RestartsIn(others, i, end, version, restart, relabel)
    decreases end - i
  {
    if i < end {
      RestartsSame(pods, others, i + 1, end, version, restart, relabel);
    }
  }

  /** The version is written on a pod only after its restart has gone through. */
  lemma {:induction false} RelabelNeedsRestart(pods: seq<Pod>, i: nat, end: nat, version: string,
                                               restart: Faults, relabel: Faults, j: nat)
    requires i <= end <= |pods| && j < |pods|
    ensures var r := UpgradeRange(pods, i, end, version, restart, relabel).0;
      && |r| == |pods|
      && (r[j].carried != pods[j].carried ==>
            restart(j).Applied? && r[j].health.NotReady? && r[j].carried == Some(version) &&
            j in RestartsIn(pods, i, end, version, restart, relabel))
    decreases end - i
  {
    RestartsInFrame(pods, i, end, version, restart, relabel, j);
    UpgradeRangeFrame(pods, i, end, version, restart, relabel);
    if i < end {
      if Matches(pods[i], version) {
        RelabelNeedsRestart(pods, i + 1, end, version, restart, relabel, j);
      } else if !restart(i).Error() && !relabel(i).Error() {
        var marked := Relabel(Disturb(pods[i], restart(i)), version, relabel(i));
        RelabelNeedsRestart(pods[i := marked], i + 1, end, version, restart, relabel, j);
        RestartsSame(pods, pods[i := marked], i + 1, end, version, restart, relabel);
        UpgradeRangeFrame(pods[i := marked], i + 1, end, version, restart, relabel);
      }
    }
  }

  lemma RelabelsNeedRestarts(pods: seq<Pod>, i: nat, end: nat, version: string, restart: Faults, relabel: Faults)
    requires i <= end <= |pods|
    ensures LabelsFollow(pods, UpgradeRange(pods, i, end, version, restart, relabel).0, version, restart,
                         RestartsIn(pods, i, end, version, restart, relabel))
  {
    UpgradeRangeFrame(pods, i, end, version, restart, relabel);
    forall j: nat | j < |pods|
      ensures UpgradeRange(pods, i, end, version, restart, relabel).0[j].carried != pods[j].carried ==>
        && j in RestartsIn(pods, i, end, version, restart, relabel)
        && restart(j).Applied?
        && UpgradeRange(pods, i, end, version, restart, relabel).0[j].health.NotReady?
        && UpgradeRange(pods, i, end, version, restart, relabel).0[j].carried == Some(version)
    {
      RelabelNeedsRestart(pods, i, end, version, restart, relabel, j);
    }
  }

  /** Restart comes before label: after one call a pod carries another version than before only if
      it is the wanted one, and the pod was asked to restart, and did. */
  lemma LabelFollowsRestart(pods: seq<Pod>, target: nat, version: string, k: int, restart: Faults, relabel: Faults)
    requires k >= 1
    ensures LabelsFollow(pods, Rolling(pods, target, version, k, restart, relabel).1, version, restart,
                         Restarts(pods, target, version, k, restart, relabel))
  {
    var end := WindowEnd(pods, version);
    RelabelsNeedRestarts(pods, WindowBegin(end, k), end, version, restart, relabel);
  }

  /** A restart that goes through makes its pod unready, and the pod then carries the version
      unless the write of the label does not. */
  lemma {:induction false} RestartDisturbs(pods: seq<Pod>, i: nat, end: nat, version: string,
                                           restart: Faults, relabel: Faults, j: nat)
    requires i <= end <= |pods| && j < |pods| && j in RestartsIn(pods, i, end, version, restart, relabel)
    ensures var r := UpgradeRange(pods, i, end, version, restart, relabel).0;
      && |r| == |pods|
      && (restart(j).Stored() ==> r[j].health.NotReady?)
      && (!restart(j).Stored() ==> r[j] == pods[j])
      && (restart(j).Applied? && relabel(j).Stored() ==> Matches(r[j], version))
    decreases end - i
  {
    RestartsInFrame(pods, i, end, version, restart, relabel, j);
    UpgradeRangeFrame(pods, i, end, version, restart, relabel);
    if Matches(pods[i], version) {
      RestartDisturbs(pods, i + 1, end, version, restart, relabel, j);
    } else if !restart(i).Error() && !relabel(i).Error() {
      var next := pods[i := Relabel(Disturb(pods[i], restart(i)), version, relabel(i))];
      RestartsSame(pods, next, i + 1, end, version, restart, relabel);
      UpgradeRangeFrame(next, i + 1, end, version, restart, relabel);
      if j != i {
        RestartDisturbs(next, i + 1, end, version, restart, relabel, j);
      }
    }
  }

  /** Outside the window of at most k pods that ends at end, every pod is ready. */
  ghost predicate OthersReady(pods: seq<Pod>, end: nat, k: int) {
    forall i :: 0 <= i < |pods| && !(Max(end - k, 0) <= i < end) ==> IsReady(pods[i])
  }

  /** A pod that one call asks to restart, even if nothing comes of it, lies in a window of at most
      k pods; it does not carry the version yet; every pod outside the window is ready at that
      moment; and no other pod is changed. */
  lemma RestartsAreGuarded(pods: seq<Pod>, target: nat, version: string, k: int,
                           restart: Faults, relabel: Faults, j: nat)
    requires k >= 1 && j < |pods|
    ensures var after := Rolling(pods, target, version, k, restart, relabel).1;
      && |after| == |pods|
      && after[j].name == pods[j].name
      && (after[j] != pods[j] ==> j in Restarts(pods, target, version, k, restart, relabel))
    ensures j in Restarts(pods, target, version, k, restart, relabel) ==>
            var end := WindowEnd(pods, version);
            && |pods| == target
            && !Matches(pods[j], version)
            && Max(end - k, 0) <= j < end
            && OthersReady(pods, end, k)
  {
    if |pods| == target {
      var end := WindowEnd(pods, version);
      var begin := WindowBegin(end, k);
      UpgradeRangeFrame(pods, begin, end, version, restart, relabel);
      RestartsInFrame(pods, begin, end, version, restart, relabel, j);
    }
  }

  datatype Step =
    | Reconcile(target: nat, version: string, k: int, restart: Faults, relabel: Faults)
    | Recover(pod: nat, health: Health)
    | Reorder(order: seq<Pod>)

  predicate NotWorse(a: Health, b: Health) {
    a.NotReady? || b.Available? || a == b
  }

  /** Pods only become healthier on their own; the order of the pod list follows the roles of
      the pods, and may change at any time. */
  ghost function Next(pods: seq<Pod>, step: Step): seq<Pod> {
    match step
    case Reconcile(target, version, k, restart, relabel) =>
      if k >= 1 then Rolling(pods, target, version, k, restart, relabel).1 else pods
    case Recover(i, h) =>
      if i < |pods| && NotWorse(pods[i].health, h) then pods[i := pods[i].(health := h)] else pods
    case Reorder(order) =>
      if DistinctNames(order) && (forall p :: p in order <==> p in pods) then order else pods
  }

  ghost function Run(pods: seq<Pod>, steps: seq<Step>): seq<Pod>
    decreases |steps|
  {
    if steps == [] then pods else Run(Next(pods, steps[0]), steps[1..])
  }

  function Unready(pods: seq<Pod>): set<string> {
    set p | p in pods && !IsReady(p) :: p.name
  }

  lemma {:induction false} FewNames(pods: seq<Pod>)
    ensures |NamesOf(pods)| <= |pods|
  {
    if pods != [] {
      FewNames(pods[1..]);
      assert NamesOf(pods) == {pods[0].name} + NamesOf(pods[1..]);
    }
  }

  lemma SubsetSize<T>(a: set<T>, b: set<T>)
    requires a <= b
    ensures |a| <= |b|
  {
    assert b == a + (b - a);
  }

  /** One call leaves at most k pods unready, or as many as there were. */
  lemma ReconcileBound(pods: seq<Pod>, target: nat, version: string, k: int, restart: Faults, relabel: Faults)
    requires k >= 1
    ensures var after := Rolling(pods, target, version, k, restart, relabel).1;
      after == pods || |Unready(after)| <= k
  {
    var after := Rolling(pods, target, version, k, restart, relabel).1;
    if after != pods {
      var end := WindowEnd(pods, version);
      var begin := WindowBegin(end, k);
      UpgradeRangeFrame(pods, begin, end, version, restart, relabel);
      var window := after[begin..end];
      forall p | p in after && !IsReady(p)
        ensures p.name in NamesOf(window)
      {
        var j :| 0 <= j < |after| && after[j] == p;
        assert begin <= j < end;
        assert p == window[j - begin];
      }
      FewNames(window);
      SubsetSize(Unready(after), NamesOf(window));
    }
  }

  lemma NextKeepsBound(pods: seq<Pod>, step: Step, bound: nat)
    requires DistinctNames(pods) && |Unready(pods)| <= bound
    requires step.Reconcile? ==> step.k <= bound
    ensures DistinctNames(Next(pods, step)) && |Unready(Next(pods, step))| <= bound
  {
    match step
    case Reconcile(target, version, k, restart, relabel) =>
      if k >= 1 {
        ReconcileBound(pods, target, version, k, restart, relabel);
        forall j | 0 <= j < |pods|
          ensures |Next(pods, step)| == |pods| && Next(pods, step)[j].name == pods[j].name
        {
          RestartsAreGuarded(pods, target, version, k, restart, relabel, j);
        }
      }
    case Recover(i, h) =>
      var after := Next(pods, step);
      forall p | p in after && !IsReady(p)
        ensures p.name in Unready(pods)
      {
        var j :| 0 <= j < |after| && after[j] == p;
        assert !IsReady(pods[j]) && pods[j].name == p.name && pods[j] in pods;
      }
      SubsetSize(Unready(after), Unready(pods));
    case Reorder(order) =>
      assert Unready(Next(pods, step)) == Unready(pods);
  }

  /** Rolling safety: over every run, whatever write fails, whatever versions and window sizes
      are asked for, at most `bound` pods are unready if that holds at the start and no window
      is larger. */
  lemma {:induction false} RollingSafety(pods: seq<Pod>, steps: seq<Step>, bound: nat)
    requires DistinctNames(pods) && |Unready(pods)| <= bound
    requires forall i :: 0 <= i < |steps| && steps[i].Reconcile? ==> steps[i].k <= bound
    ensures |Unready(Run(pods, steps))| <= bound
    decreases |steps|
  {
    if steps != [] {
      NextKeepsBound(pods, steps[0], bound);
      RollingSafety(Next(pods, steps[0]), steps[1..], bound);
    }
  }

  // ------------------------------------------------- what a version proves

  /** The step restarts the pod of that name for the version, and the restart goes through. */
  ghost predicate RestartedBy(pods: seq<Pod>, step: Step, name: string, version: string) {
    step.Reconcile? && step.version == version && step.k >= 1 &&
    exists j :: 0 <= j < |pods| && pods[j].name == name && step.restart(j).Applied? &&
                j in Restarts(pods, step.target, version, step.k, step.restart, step.relabel)
  }

  ghost predicate RestartedIn(pods: seq<Pod>, steps: seq<Step>, name: string, version: string)
    decreases |steps|
  {
    steps != [] &&
    (RestartedBy(pods, steps[0], name, version) || RestartedIn(Next(pods, steps[0]), steps[1..], name, version))
  }

  /** A pod of that name is listed and carries the version. */
  ghost predicate HasVersion(pods: seq<Pod>, name: string, version: string) {
    exists p :: p in pods && p.name == name && Matches(p, version)
  }

  lemma NamesStay(pods: seq<Pod>, target: nat, version: string, k: int, restart: Faults, relabel: Faults)
    requires k >= 1
    ensures var after := Rolling(pods, target, version, k, restart, relabel).1;
      |after| == |pods| && forall j :: 0 <= j < |pods| ==> after[j].name == pods[j].name
  {
    var end := WindowEnd(pods, version);
    UpgradeRangeFrame(pods, WindowBegin(end, k), end, version, restart, relabel);
    forall j | 0 <= j < |pods|
      ensures Rolling(pods, target, version, k, restart, relabel).1[j].name == pods[j].name
    {
      RestartsAreGuarded(pods, target, version, k, restart, relabel, j);
    }
  }

  /** A label that follows a restart was there before, or the restart was. */
  lemma LabelGivesVersion(pods: seq<Pod>, after: seq<Pod>, wanted: string, restart: Faults, restarted: set<nat>,
                          name: string, version: string)
    requires LabelsFollow(pods, after, wanted, restart, restarted)
    requires forall j :: 0 <= j < |pods| ==> after[j].name == pods[j].name
    requires HasVersion(after, name, version) && !HasVersion(pods, name, version)
    ensures version == wanted
    ensures exists j :: 0 <= j < |pods| && pods[j].name == name && restart(j).Applied? && j in restarted
  {
    var p :| p in after && p.name == name && Matches(p, version);
    var j: nat :| j < |after| && after[j] == p;
    assert pods[j] in pods;
  }

  lemma ReconcileGivesVersion(pods: seq<Pod>, step: Step, name: string, version: string)
    requires step.Reconcile? && step.k >= 1
    requires HasVersion(Rolling(pods, step.target, step.version, step.k, step.restart, step.relabel).1, name, version)
    ensures HasVersion(pods, name, version) || RestartedBy(pods, step, name, version)
  {
    NamesStay(pods, step.target, step.version, step.k, step.restart, step.relabel);
    LabelFollowsRestart(pods, step.target, step.version, step.k, step.restart, step.relabel);
    if !HasVersion(pods, name, version) {
      var after := Rolling(pods, step.target, step.version, step.k, step.restart, step.relabel).1;
      var restarted := Restarts(pods, step.target, step.version, step.k, step.restart, step.relabel);
      LabelGivesVersion(pods, after, step.version, step.restart, restarted, name, version);
    }
  }

  lemma StepGivesVersion(pods: seq<Pod>, step: Step, name: string, version: string)
    requires HasVersion(Next(pods, step), name, version)
    ensures HasVersion(pods, name, version) || RestartedBy(pods, step, name, version)
  {
    var after := Next(pods, step);
    var p :| p in after && p.name == name && Matches(p, version);
    match step
    case Reconcile(target, v, k, restart, relabel) =>
      if k >= 1 {
        ReconcileGivesVersion(pods, step, name, version);
      }
    case Recover(i, h) =>
      var j :| 0 <= j < |after| && after[j] == p;
      assert pods[j] in pods && pods[j].name == name && pods[j].carried == p.carried;
    case Reorder(order) =>
      assert p in pods;
  }

  /** Over every run, whatever fails: a pod that carries a version in the end carried it at the
      start, or was restarted for it in between. */
  lemma {:induction false} VersionMeansRestart(pods: seq<Pod>, steps: seq<Step>, name: string, version: string)
    requires HasVersion(Run(pods, steps), name, version)
    ensures HasVersion(pods, name, version) || RestartedIn(pods, steps, name, version)
    decreases |steps|
  {
    if steps != [] {
      VersionMeansRestart(Next(pods, steps[0]), steps[1..], name, version);
      if HasVersion(Next(pods, steps[0]), name, version) {
        StepGivesVersion(pods, steps[0], name, version);
      }
    }
  }

  /** So when the policy reports ESNone, every pod had the version from the start or was restarted
      for it. */
  lemma NoneMeansRestarted(pods: seq<Pod>, steps: seq<Step>, version: string, k: int, restart: Faults, relabel: Faults)
    requires k >= 1
    requires var after := Run(pods, steps);
      Rolling(after, |after|, version, k, restart, relabel).0.exec.ESNone?
    ensures forall p :: p in Run(pods, steps) ==>
              p.health.Available? && (HasVersion(pods, p.name, version) || RestartedIn(pods, steps, p.name, version))
  {
    var after := Run(pods, steps);
    NoneIffDone(after, version, k, restart, relabel);
    forall p | p in after
      ensures HasVersion(pods, p.name, version) || RestartedIn(pods, steps, p.name, version)
    {
      assert HasVersion(after, p.name, version);
      VersionMeansRestart(pods, steps, p.name, version);
    }
  }

  // ----------------------------------------------------- what is reported

  /** The number of pods of a list that carry the version. */
  function CarriedCount(pods: seq<Pod>, version: string): nat {
    if pods == [] then 0 else (if Matches(pods[0], version) then 1 else 0) + CarriedCount(pods[1..], version)
  }

  lemma {:induction false} CarriedNames(pods: seq<Pod>, version: string)
    requires DistinctNames(pods)
    ensures |set p | p in pods && Matches(p, version) :: p.name| == CarriedCount(pods, version)
  {
    if pods != [] {
      NamesCons(pods);
      CarriedNames(pods[1..], version);
      var all, rest := set p | p in pods && Matches(p, version) :: p.name, set p | p in pods[1..] && Matches(p, version) :: p.name;
      assert forall p :: p in pods <==> p == pods[0] || p in pods[1..];
      if Matches(pods[0], version) {
        assert all == rest + {pods[0].name};
        assert pods[0].name !in rest;
      } else {
        assert all == rest;
      }
    }
  }

  lemma MatchingIsCarried(pods: seq<Pod>, version: string, begin: nat, end: nat)
    requires DistinctNames(pods) && begin <= end <= |pods|
    ensures |MatchingNames(pods, version, begin, end)| == CarriedCount(pods[begin..end], version)
  {
    var window := pods[begin..end];
    assert DistinctNames(window);
    CarriedNames(window, version);
    forall i | begin <= i < end
      ensures pods[i] in window
    {
      assert pods[i] == window[i - begin];
    }
    assert MatchingNames(pods, version, begin, end) == set p | p in window && Matches(p, version) :: p.name;
  }

  /** The restart loop fails exactly at a pod that does not carry the version and whose restart or
      label is refused or lost. */
  lemma {:induction false} LoopFailsIff(pods: seq<Pod>, i: nat, end: nat, version: string, restart: Faults, relabel: Faults)
    requires i <= end <= |pods|
    ensures UpgradeRange(pods, i, end, version, restart, relabel).1 <==>
            exists j :: i <= j < end && !Matches(pods[j], version) && (restart(j).Error() || relabel(j).Error())
    decreases end - i
  {
    if i < end {
      LoopFailsIff(pods, i + 1, end, version, restart, relabel);
      var next := pods[i := Relabel(Disturb(pods[i], restart(i)), version, relabel(i))];
      LoopFailsIff(next, i + 1, end, version, restart, relabel);
      assert forall j :: i + 1 <= j < end ==> next[j] == pods[j];
    }
  }

  /** What one call returns, and why. */
  lemma ReportIs(pods: seq<Pod>, target: nat, version: string, k: int, restart: Faults, relabel: Faults)
    requires k >= 1 && DistinctNames(pods)
    ensures var status := Rolling(pods, target, version, k, restart, relabel).0;
      var end := WindowEnd(pods, version);
      var begin := WindowBegin(end, k);
      var safe := |pods| == target && forall i :: 0 <= i < begin ==> IsReady(pods[i]);
      var broken := exists j :: begin <= j < end && !Matches(pods[j], version) && (restart(j).Error() || relabel(j).Error());
      && (!safe ==> status == Returned(ESRetry, -1, -1))
      && (safe && begin == end ==> status == Returned(ESNone, target, target))
      && (safe && begin < end && broken ==> status == Returned(ESFailedAndRetry, -1, -1))
      && (safe && begin < end && !broken ==>
            status == Returned(ESRetry, (|pods| - end) + CarriedCount(pods[begin..end], version), target))
  {
    var end := WindowEnd(pods, version);
    var begin := WindowBegin(end, k);
    LoopFailsIff(pods, begin, end, version, restart, relabel);
    MatchingIsCarried(pods, version, begin, end);
    assert DistinctNames(pods[end..]);
    NamesCount(pods[end..]);
  }

  // ------------------------------------------------------------ progress

  /** ESNone is returned exactly when every pod carries the version and is available. */
  lemma NoneIffDone(pods: seq<Pod>, version: string, k: int, restart: Faults, relabel: Faults)
    requires k >= 1
    ensures Rolling(pods, |pods|, version, k, restart, relabel).0.exec.ESNone? <==>
            forall p :: p in pods ==> Done(p, version)
  {
    var end := WindowEnd(pods, version);
    if end > 0 {
      assert pods[end - 1] in pods;
    }
  }

  /** Updated and updating pods are disjoint, so the reported count stays within the target. */
  lemma SucceedWithinExpected(pods: seq<Pod>, target: nat, version: string, k: int,
                              restart: Faults, relabel: Faults)
    requires k >= 1
    ensures var status := Rolling(pods, target, version, k, restart, relabel).0;
      status.expected != UNCONFIRMED ==> 0 <= status.succeed <= status.expected
  {
    if |pods| == target {
      var end := WindowEnd(pods, version);
      var begin := WindowBegin(end, k);
      FewNames(pods[end..]);
      FewNames(pods[begin..end]);
      forall i | begin <= i < end
        ensures pods[i] in pods[begin..end]
      {
        assert pods[i] == pods[begin..end][i - begin];
      }
      SubsetSize(MatchingNames(pods, version, begin, end), NamesOf(pods[begin..end]));
    }
  }

  const NO_FAULT: Faults := (i: nat) => Applied

  predicate AllAvailable(pods: seq<Pod>) {
    forall p :: p in pods ==> p.health.Available?
  }

  function Recovered(pods: seq<Pod>): seq<Pod> {
    seq(|pods|, i requires 0 <= i < |pods| => pods[i].(health := Available))
  }

  /** A call without faults, after which all pods become available again. */
  function Round(pods: seq<Pod>, version: string, k: int): seq<Pod>
    requires k >= 1
  {
    Recovered(Rolling(pods, |pods|, version, k, NO_FAULT, NO_FAULT).1)
  }

  function Rounds(pods: seq<Pod>, version: string, k: int, m: nat): seq<Pod>
    requires k >= 1
    decreases m
  {
    if m == 0 then pods else Rounds(Round(pods, version, k), version, k, m - 1)
  }

  lemma {:induction false} FaultlessMarksAll(pods: seq<Pod>, i: nat, end: nat, version: string)
    requires i <= end <= |pods|
    ensures var r := UpgradeRange(pods, i, end, version, NO_FAULT, NO_FAULT).0;
      && |r| == |pods|
      && forall j :: i <= j < end ==> Matches(r[j], version)
    decreases end - i
  {
    UpgradeRangeFrame(pods, i, end, version, NO_FAULT, NO_FAULT);
    if i < end {
      var p := if Matches(pods[i], version) then pods[i]
               else Relabel(Disturb(pods[i], Applied), version, Applied);
      assert pods[i := pods[i]] == pods;
      FaultlessMarksAll(pods[i := p], i + 1, end, version);
      UpgradeRangeFrame(pods[i := p], i + 1, end, version, NO_FAULT, NO_FAULT);
    }
  }

  /** One round moves the end of the window down by k, or to the bottom. */
  lemma RoundShrinks(pods: seq<Pod>, version: string, k: int)
    requires k >= 1 && AllAvailable(pods)
    ensures var after := Round(pods, version, k);
      |after| == |pods| && AllAvailable(after) && WindowEnd(after, version) <= Max(WindowEnd(pods, version) - k, 0)
  {
    var end := WindowEnd(pods, version);
    var begin := WindowBegin(end, k);
    assert ReadyBefore(pods, begin);
    FaultlessMarksAll(pods, begin, end, version);
    UpgradeRangeFrame(pods, begin, end, version, NO_FAULT, NO_FAULT);
    var after := Round(pods, version, k);
    forall j | begin <= j < |pods|
      ensures Done(after[j], version)
    {
    }
  }

  lemma {:induction false} RoundsFinish(pods: seq<Pod>, version: string, k: int, m: nat)
    requires k >= 1 && AllAvailable(pods) && m * k >= WindowEnd(pods, version)
    ensures var after := Rounds(pods, version, k, m);
      |after| == |pods| && AllAvailable(after) && WindowEnd(after, version) == 0
    decreases m
  {
    if m > 0 {
      assert m * k == (m - 1) * k + k;
      RoundShrinks(pods, version, k);
      RoundsFinish(Round(pods, version, k), version, k, m - 1);
    }
  }

  /** Rolling progress while the order of the pods stays the same: ceil(n / k) rounds suffice,
      after which the policy reports ESNone. */
  lemma RollingProgress(pods: seq<Pod>, version: string, k: int)
    requires k >= 1 && AllAvailable(pods)
    ensures var after := Rounds(pods, version, k, (|pods| + k - 1) / k);
      && |after| == |pods|
      && (forall p :: p in after ==> Done(p, version))
      && Rolling(after, |pods|, version, k, NO_FAULT, NO_FAULT) == (Returned(ESNone, |pods|, |pods|), after)
  {
    var m := (|pods| + k - 1) / k;
    assert m * k >= |pods|;
    RoundsFinish(pods, version, k, m);
  }

  // ------------------------------------------- progress under any pod order

  /** The names of the pods that do not carry the version. */
  function Left(pods: seq<Pod>, version: string): set<string> {
    set p | p in pods && !Matches(p, version) :: p.name
  }

  /** The pods of the window of the next call. */
  function Window(pods: seq<Pod>, version: string, k: int): seq<Pod>
    requires k >= 1
  {
    var end := WindowEnd(pods, version);
    pods[WindowBegin(end, k)..end]
  }

  lemma RoundLength(pods: seq<Pod>, version: string, k: int)
    requires k >= 1
    ensures |Round(pods, version, k)| == |pods|
  {
    var end := WindowEnd(pods, version);
    UpgradeRangeFrame(pods, WindowBegin(end, k), end, version, NO_FAULT, NO_FAULT);
  }

  /** What a round does to one pod. */
  lemma RoundAt(pods: seq<Pod>, version: string, k: int, j: nat)
    requires k >= 1 && AllAvailable(pods) && j < |pods|
    ensures var after := Round(pods, version, k);
            var end := WindowEnd(pods, version);
      && |after| == |pods| && after[j].name == pods[j].name && after[j].health.Available?
      && (Matches(after[j], version) <==> Matches(pods[j], version) || WindowBegin(end, k) <= j < end)
  {
    var end := WindowEnd(pods, version);
    var begin := WindowBegin(end, k);
    assert ReadyBefore(pods, begin) by {
      assert forall i :: 0 <= i < begin ==> pods[i] in pods;
    }
    FaultlessMarksAll(pods, begin, end, version);
    UpgradeRangeFrame(pods, begin, end, version, NO_FAULT, NO_FAULT);
  }

  /** A round finishes exactly the pods that are left in its window. */
  lemma RoundFinishes(pods: seq<Pod>, version: string, k: int)
    requires k >= 1 && AllAvailable(pods) && DistinctNames(pods)
    ensures var after := Round(pods, version, k);
      && |after| == |pods| && AllAvailable(after) && DistinctNames(after)
      && Left(after, version) == Left(pods, version) - Left(Window(pods, version, k), version)
  {
    var after := Round(pods, version, k);
    var end := WindowEnd(pods, version);
    var begin := WindowBegin(end, k);
    RoundLength(pods, version, k);
    forall j | 0 <= j < |pods|
      ensures after[j].name == pods[j].name && after[j].health.Available?
      ensures Matches(after[j], version) <==> Matches(pods[j], version) || begin <= j < end
    {
      RoundAt(pods, version, k, j);
    }
    SplitLeft(pods, after, begin, end, version);
  }

  /** With distinct names, finishing the pods of a range takes the names of that range. */
  lemma SplitLeft(pods: seq<Pod>, after: seq<Pod>, begin: nat, end: nat, version: string)
    requires DistinctNames(pods) && |after| == |pods| && begin <= end <= |pods|
    requires forall j :: 0 <= j < |pods| ==> after[j].name == pods[j].name
    requires forall j :: 0 <= j < |pods| ==>
               (Matches(after[j], version) <==> Matches(pods[j], version) || begin <= j < end)
    ensures Left(after, version) == Left(pods, version) - Left(pods[begin..end], version)
  {
    var window := pods[begin..end];
    forall i | begin <= i < end
      ensures pods[i] in window
    {
      assert pods[i] == window[i - begin];
    }
    forall name
      ensures name in Left(after, version) <==> name in Left(pods, version) && name !in Left(window, version)
    {
      if name in Left(after, version) {
        var j :| 0 <= j < |after| && after[j].name == name && !Matches(after[j], version);
        assert pods[j] in pods;
        forall i | 0 <= i < |window|
          ensures window[i].name != name
        {
          assert window[i] == pods[begin + i];
        }
      }
      if name in Left(pods, version) && name !in Left(window, version) {
        var j :| 0 <= j < |pods| && pods[j].name == name && !Matches(pods[j], version);
        assert !(begin <= j < end) && after[j] in after;
      }
    }
  }

  /** As long as pods are left, the pod at the top of the window is one of them. */
  lemma WindowHasOne(pods: seq<Pod>, version: string, k: int)
    requires k >= 1 && AllAvailable(pods) && Left(pods, version) != {}
    ensures Left(Window(pods, version, k), version) != {}
  {
    var name :| name in Left(pods, version);
    var j :| 0 <= j < |pods| && pods[j].name == name && !Matches(pods[j], version);
    var end := WindowEnd(pods, version);
    var window := Window(pods, version, k);
    assert j < end;
    assert pods[end - 1] in pods && window[|window| - 1] == pods[end - 1];
    assert pods[end - 1].name in Left(window, version);
  }

  /** The same pods in another order. */
  ghost predicate Reordering(pods: seq<Pod>, order: seq<Pod>) {
    DistinctNames(order) && forall p :: p in order <==> p in pods
  }

  /** One round for each order, in which the pods are listed that time. */
  ghost predicate RoundsUnder(states: seq<seq<Pod>>, orders: seq<seq<Pod>>, version: string, k: int)
    requires k >= 1
  {
    |states| == |orders| + 1 &&
    forall i :: 0 <= i < |orders| ==>
                  Reordering(states[i], orders[i]) && states[i + 1] == Round(orders[i], version, k)
  }

  lemma SizeOfRest<T>(all: set<T>, part: set<T>)
    requires part <= all
    ensures |all - part| == |all| - |part|
  {
    assert all == (all - part) + part;
  }

  /** Under any order each round finishes at least one pod, as long as there are any. */
  lemma RoundUnderOrder(pods: seq<Pod>, order: seq<Pod>, version: string, k: int)
    requires k >= 1 && AllAvailable(pods) && DistinctNames(pods) && Reordering(pods, order)
    ensures var after := Round(order, version, k);
      && AllAvailable(after) && DistinctNames(after) && Left(after, version) <= Left(pods, version)
      && (Left(pods, version) != {} ==> |Left(after, version)| < |Left(pods, version)|)
  {
    assert Left(order, version) == Left(pods, version);
    RoundFinishes(order, version, k);
    if Left(pods, version) != {} {
      WindowHasOne(order, version, k);
      LeftIsPart(order, version, k);
      SizeOfRest(Left(order, version), Left(Window(order, version, k), version));
    }
  }

  lemma LeftIsPart(pods: seq<Pod>, version: string, k: int)
    requires k >= 1
    ensures Left(Window(pods, version, k), version) <= Left(pods, version)
  {
    var end := WindowEnd(pods, version);
    var begin := WindowBegin(end, k);
    forall p | p in pods[begin..end]
      ensures p in pods
    {
    }
  }

  lemma {:induction false} LeftAfterRounds(states: seq<seq<Pod>>, orders: seq<seq<Pod>>, version: string, k: int, m: nat)
    requires k >= 1 && RoundsUnder(states, orders, version, k) && m < |states|
    requires AllAvailable(states[0]) && DistinctNames(states[0])
    ensures AllAvailable(states[m]) && DistinctNames(states[m])
    ensures |Left(states[m], version)| <= Max(|Left(states[0], version)| - m, 0)
  {
    if m > 0 {
      LeftAfterRounds(states, orders, version, k, m - 1);
      var i := m - 1;
      assert Reordering(states[i], orders[i]) && states[i + 1] == Round(orders[i], version, k);
      RoundUnderOrder(states[i], orders[i], version, k);
      SubsetSize(Left(states[m], version), Left(states[i], version));
    }
  }

  /** Rolling progress whatever the order of the pods is at each call: as many rounds as there are
      pods without the version suffice, after which the policy reports ESNone. */
  lemma ProgressUnderAnyOrder(states: seq<seq<Pod>>, orders: seq<seq<Pod>>, version: string, k: int)
    requires k >= 1 && RoundsUnder(states, orders, version, k)
    requires AllAvailable(states[0]) && DistinctNames(states[0]) && |orders| >= |Left(states[0], version)|
    ensures var last := states[|orders|];
      && (forall p :: p in last ==> Done(p, version))
      && Rolling(last, |last|, version, k, NO_FAULT, NO_FAULT) == (Returned(ESNone, |last|, |last|), last)
  {
    var last := states[|orders|];
    LeftAfterRounds(states, orders, version, k, |orders|);
    forall p | p in last
      ensures Done(p, version)
    {
      assert p.name !in Left(last, version);
    }
    NoneIffDone(last, version, k, NO_FAULT, NO_FAULT);
  }

  lemma NamesCons(pods: seq<Pod>)
    requires DistinctNames(pods) && pods != []
    ensures NamesOf(pods) == {pods[0].name} + NamesOf(pods[1..]) && pods[0].name !in NamesOf(pods[1..])
    ensures DistinctNames(pods[1..])
  {
    var rest := pods[1..];
    forall p | p in rest
      ensures p in pods && p.name != pods[0].name
    {
      var i :| 0 <= i < |rest| && rest[i] == p;
      assert pods[i + 1] == p;
    }
    assert forall p :: p in pods <==> p == pods[0] || p in rest;
  }

  lemma {:induction false} NamesCount(pods: seq<Pod>)
    requires DistinctNames(pods)
    ensures |NamesOf(pods)| == |pods|
  {
    if pods != [] {
      NamesCons(pods);
      NamesCount(pods[1..]);
    }
  }

  /** The window holds no pod that carries the version already. */
  ghost predicate WindowIsNew(pods: seq<Pod>, version: string, k: int)
    requires k >= 1
  {
    forall p :: p in Window(pods, version, k) ==> !Matches(p, version)
  }

  /** The window holds every pod that is left. */
  ghost predicate WindowHasAll(pods: seq<Pod>, version: string, k: int)
    requires k >= 1
  {
    Left(pods, version) == Left(Window(pods, version, k), version)
  }

  lemma WindowCount(pods: seq<Pod>, version: string, k: int)
    requires k >= 1 && AllAvailable(pods) && DistinctNames(pods)
    ensures var window := Window(pods, version, k);
      && |Left(window, version)| <= |window| <= k
      && (|Left(window, version)| == |window| <==> WindowIsNew(pods, version, k))
      && (|window| < k ==> WindowHasAll(pods, version, k))
  {
    var end := WindowEnd(pods, version);
    var begin := WindowBegin(end, k);
    var window := Window(pods, version, k);
    assert DistinctNames(window);
    NamesCount(window);
    SubsetSize(Left(window, version), NamesOf(window));
    if WindowIsNew(pods, version, k) {
      assert Left(window, version) == NamesOf(window);
    } else {
      var p :| p in window && Matches(p, version);
      NotAllLeft(window, p, version);
    }
    if |window| < k {
      WholeListIsWindow(pods, version, k);
    }
  }

  lemma NotAllLeft(window: seq<Pod>, p: Pod, version: string)
    requires DistinctNames(window) && p in window && Matches(p, version)
    ensures |Left(window, version)| < |NamesOf(window)|
  {
    forall q | q in window && !Matches(q, version)
      ensures q.name != p.name
    {
      var i :| 0 <= i < |window| && window[i] == p;
      var j :| 0 <= j < |window| && window[j] == q;
    }
    assert Left(window, version) <= NamesOf(window) - {p.name};
    SubsetSize(Left(window, version), NamesOf(window) - {p.name});
  }

  lemma WholeListIsWindow(pods: seq<Pod>, version: string, k: int)
    requires k >= 1 && AllAvailable(pods) && |Window(pods, version, k)| < k
    ensures WindowHasAll(pods, version, k)
  {
    var end := WindowEnd(pods, version);
    var window := Window(pods, version, k);
    LeftIsPart(pods, version, k);
    forall p | p in pods && !Matches(p, version)
      ensures p in window
    {
      var j :| 0 <= j < |pods| && pods[j] == p;
      assert j < end && window[j] == pods[j];
    }
  }

  /** A round finishes as many pods as a window can hold, or all that are left, exactly when no pod
      of its window carries the version, or the window holds all that are left. Without that the
      order of the pods costs rounds. */
  lemma RoundIsFullIff(pods: seq<Pod>, version: string, k: int)
    requires k >= 1 && AllAvailable(pods) && DistinctNames(pods)
    ensures |Left(pods, version)| - |Left(Round(pods, version, k), version)| == Min(k, |Left(pods, version)|) <==>
            WindowIsNew(pods, version, k) || WindowHasAll(pods, version, k)
  {
    var all, part := Left(pods, version), Left(Window(pods, version, k), version);
    RoundFinishes(pods, version, k);
    LeftIsPart(pods, version, k);
    WindowCount(pods, version, k);
    SubsetSize(part, all);
    SizeOfRest(all, part);
    if |part| == |all| {
      assert |all - part| == 0 && all - part == {};
      assert all == part;
    }
  }

  const FOUR_PODS := [Pod("a", None, Available), Pod("b", None, Available), Pod("c", None, Available),
                      Pod("d", None, Available)]

  lemma FourPodsAreNew(version: string)
    ensures AllAvailable(FOUR_PODS) && DistinctNames(FOUR_PODS) && Reordering(FOUR_PODS, FOUR_PODS)
    ensures forall p :: p in FOUR_PODS ==> !Matches(p, version)
  {
  }

  lemma TwoRounds(pods: seq<Pod>, order: seq<Pod>, version: string, k: int)
    requires k >= 1 && Reordering(pods, pods) && Reordering(Round(pods, version, k), order)
    ensures RoundsUnder([pods, Round(pods, version, k), Round(order, version, k)], [pods, order], version, k)
  {
  }

  /** Four pods, k = 2, and two faultless rounds between which the order has changed: one pod is
      not done, although ceil(4 / 2) rounds have passed. */
  lemma ReorderCostsRounds(version: string) returns (states: seq<seq<Pod>>, orders: seq<seq<Pod>>)
    ensures RoundsUnder(states, orders, version, 2) && |orders| == 2 && |states[0]| == 4
    ensures AllAvailable(states[0]) && DistinctNames(states[0])
    ensures exists p :: p in states[2] && !Done(p, version)
  {
    FourPodsAreNew(version);
    var one := Round(FOUR_PODS, version, 2);
    FirstRound(FOUR_PODS, version);
    var second := [one[0], one[2], one[1], one[3]];
    MovedPod(second, version);
    SwappedIsReordering(one);
    TwoRounds(FOUR_PODS, second, version, 2);
    states, orders := [FOUR_PODS, one, Round(second, version, 2)], [FOUR_PODS, second];
  }

  lemma FirstRound(pods: seq<Pod>, version: string)
    requires |pods| == 4 && AllAvailable(pods) && DistinctNames(pods)
    requires forall p :: p in pods ==> !Matches(p, version)
    ensures var one := Round(pods, version, 2);
      && |one| == 4 && AllAvailable(one) && DistinctNames(one)
      && !Matches(one[0], version) && !Matches(one[1], version) && Matches(one[2], version) && Matches(one[3], version)
  {
    assert pods[3] in pods;
    WindowEndIs(pods, version, 4);
    assert pods[0] in pods && pods[1] in pods;
    RoundFinishes(pods, version, 2);
    RoundAt(pods, version, 2, 0);
    RoundAt(pods, version, 2, 1);
    RoundAt(pods, version, 2, 2);
    RoundAt(pods, version, 2, 3);
  }

  lemma SwappedIsReordering(pods: seq<Pod>)
    requires |pods| == 4 && DistinctNames(pods)
    ensures Reordering(pods, [pods[0], pods[2], pods[1], pods[3]])
  {
    assert pods == [pods[0], pods[1], pods[2], pods[3]];
  }

  /** A finished pod below an unfinished one wastes a place in the window. */
  lemma MovedPod(pods: seq<Pod>, version: string)
    requires |pods| == 4 && AllAvailable(pods)
    requires !Matches(pods[0], version) && Matches(pods[1], version) && !Matches(pods[2], version) && Matches(pods[3], version)
    ensures exists p :: p in Round(pods, version, 2) && !Done(p, version)
  {
    assert pods[3] in pods && WindowEnd(pods, version) == 3;
    RoundAt(pods, version, 2, 0);
    assert Round(pods, version, 2)[0] in Round(pods, version, 2);
  }

  /** Every pod of that name carries the version. */
  ghost predicate Carries(pods: seq<Pod>, name: string, version: string) {
    forall p :: p in pods && p.name == name ==> Matches(p, version)
  }

  /** A call that asks to restart the pod of that name. */
  ghost predicate Touches(pods: seq<Pod>, step: Step, name: string) {
    && step.Reconcile? && step.k >= 1
    && exists j :: 0 <= j < |pods| && pods[j].name == name &&
                   j in Restarts(pods, step.target, step.version, step.k, step.restart, step.relabel)
  }

  ghost function TouchCount(pods: seq<Pod>, steps: seq<Step>, name: string): nat
    decreases |steps|
  {
    if steps == [] then 0
    else (if Touches(pods, steps[0], name) then 1 else 0) + TouchCount(Next(pods, steps[0]), steps[1..], name)
  }

  /** A step of a run that rolls out one version and whose writes succeed. */
  ghost predicate FaultlessFor(step: Step, version: string) {
    step.Reconcile? ==> step.version == version && step.restart == NO_FAULT && step.relabel == NO_FAULT
  }

  /** What a faultless call does to one pod. */
  lemma FaultlessCall(pods: seq<Pod>, target: nat, version: string, k: int, j: nat)
    requires k >= 1 && j < |pods|
    ensures var after := Rolling(pods, target, version, k, NO_FAULT, NO_FAULT).1;
            var restarts := Restarts(pods, target, version, k, NO_FAULT, NO_FAULT);
      && |after| == |pods| && after[j].name == pods[j].name
      && (Matches(pods[j], version) ==> j !in restarts && after[j] == pods[j])
      && (j in restarts ==> Matches(after[j], version))
  {
    RestartsAreGuarded(pods, target, version, k, NO_FAULT, NO_FAULT, j);
    if j in Restarts(pods, target, version, k, NO_FAULT, NO_FAULT) {
      var end := WindowEnd(pods, version);
      FaultlessMarksAll(pods, WindowBegin(end, k), end, version);
    }
  }

  lemma ReconcileTouchesOnce(pods: seq<Pod>, step: Step, name: string, version: string)
    requires DistinctNames(pods) && FaultlessFor(step, version) && step.Reconcile? && step.k >= 1
    ensures DistinctNames(Next(pods, step))
    ensures Carries(pods, name, version) ==> Carries(Next(pods, step), name, version) && !Touches(pods, step, name)
    ensures Touches(pods, step, name) ==> Carries(Next(pods, step), name, version)
  {
    var after := Next(pods, step);
    forall j | 0 <= j < |pods|
      ensures |after| == |pods| && after[j].name == pods[j].name
      ensures Matches(pods[j], version) ==>
                j !in Restarts(pods, step.target, version, step.k, NO_FAULT, NO_FAULT) && after[j] == pods[j]
      ensures j in Restarts(pods, step.target, version, step.k, NO_FAULT, NO_FAULT) ==> Matches(after[j], version)
    {
      FaultlessCall(pods, step.target, version, step.k, j);
    }
    assert pods == [] ==> after == [];
    SameNames(pods, after, name);
  }

  lemma SameNames(pods: seq<Pod>, after: seq<Pod>, name: string)
    requires DistinctNames(pods) && |after| == |pods|
    requires forall j :: 0 <= j < |pods| ==> after[j].name == pods[j].name
    ensures DistinctNames(after)
    ensures forall p :: p in after && p.name == name ==>
              exists j :: 0 <= j < |pods| && pods[j].name == name && after[j] == p
  {
    forall p | p in after && p.name == name
      ensures exists j :: 0 <= j < |pods| && pods[j].name == name && after[j] == p
    {
      var j :| 0 <= j < |after| && after[j] == p;
      assert pods[j].name == name;
    }
  }

  lemma TouchedOnlyOnce(pods: seq<Pod>, step: Step, name: string, version: string)
    requires DistinctNames(pods) && FaultlessFor(step, version)
    ensures DistinctNames(Next(pods, step))
    ensures Carries(pods, name, version) ==> Carries(Next(pods, step), name, version) && !Touches(pods, step, name)
    ensures Touches(pods, step, name) ==> Carries(Next(pods, step), name, version)
  {
    if step.Reconcile? && step.k >= 1 {
      ReconcileTouchesOnce(pods, step, name, version);
    }
  }

  /** In a run whose writes succeed, each pod is restarted at most once for a version. */
  lemma {:induction false} RestartedAtMostOnce(pods: seq<Pod>, steps: seq<Step>, name: string, version: string)
    requires DistinctNames(pods)
    requires forall i :: 0 <= i < |steps| ==> FaultlessFor(steps[i], version)
    ensures TouchCount(pods, steps, name) <= 1
    ensures Carries(pods, name, version) ==> TouchCount(pods, steps, name) == 0
    decreases |steps|
  {
    if steps != [] {
      TouchedOnlyOnce(pods, steps[0], name, version);
      RestartedAtMostOnce(Next(pods, steps[0]), steps[1..], name, version);
    }
  }
}
