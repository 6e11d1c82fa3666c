/** Ownership rules of the reconciliation trace: the rule table, the matching of a secondary
    object against a primary one, and the removal of rules for kinds the cluster lacks.

    Sources: controllers/trace/type.go, controllers/trace/util.go. */
module OwnershipRules {
  import opened Common

  /** Group, version and kind; both versions of VolumeSnapshot are in the table. */
  datatype Kind =
    | Cluster | Component | InstanceSet | ComponentParameter | Backup | Restore
    | Service | Secret | ConfigMap | PersistentVolumeClaim | PersistentVolume
    | RoleBinding | ServiceAccount | Job | Pod | StatefulSet
    | VolumeSnapshotV1 | VolumeSnapshotV1Beta1
    | Unlisted(name: string)

  datatype OwnerRef = OwnerRef(uid: string, controller: bool)

  /** volumeName is the field spec.volumeName, when the object has it. */
  datatype Object = Object(
    kind: Kind, namespace: string, name: string, uid: string,
    labels: map<string, string>, owners: seq<OwnerRef>, volumeName: Option<string>)

  /** The value of a label criterion: $(primary.name), $(primary), or a constant. */
  datatype LabelValue = PrimaryName | PrimaryLabel | Constant(value: string)

  datatype Validation = NoValidation | OwnerValidation | ControllerValidation

  /** byVolumeName selects the secondary by the primary's spec.volumeName. */
  datatype Criteria = Criteria(labels: Option<map<string, LabelValue>>, byVolumeName: bool, validation: Validation)

  datatype Owned = Owned(secondary: Kind, criteria: Criteria)

  datatype Rule = Rule(primary: Kind, owned: seq<Owned>)

  const INSTANCE := "app.kubernetes.io/instance"
  const MANAGED_BY := "app.kubernetes.io/managed-by"
  const ITS_INSTANCE := "workloads.kubeblocks.io/instance"
  const ITS_MANAGED_BY := "workloads.kubeblocks.io/managed-by"

  const CLUSTER_CRITERIA := Criteria(
    Some(map[INSTANCE := PrimaryName, MANAGED_BY := Constant("kubeblocks")]), false, OwnerValidation)
  const COMPONENT_CRITERIA := Criteria(
    Some(map[INSTANCE := PrimaryLabel, MANAGED_BY := Constant("kubeblocks")]), false, OwnerValidation)
  const ITS_CRITERIA := Criteria(
    Some(map[ITS_MANAGED_BY := Constant("InstanceSet"), ITS_INSTANCE := PrimaryName]), false, NoValidation)
  const BACKUP_CRITERIA := Criteria(
    Some(map[INSTANCE := PrimaryLabel, MANAGED_BY := Constant("kubeblocks-dataprotection")]), false, NoValidation)
  const PVC_CRITERIA := Criteria(None, true, NoValidation)

  function All(secondaries: seq<Kind>, c: Criteria): seq<Owned> {
    seq(|secondaries|, i requires 0 <= i < |secondaries| => Owned(secondaries[i], c))
  }

  const FULL_RULES: seq<Rule> := [
    Rule(Cluster, All([Component, Service, Secret], CLUSTER_CRITERIA)),
    Rule(Component, All([InstanceSet, Service, Secret, ConfigMap, PersistentVolumeClaim, RoleBinding,
                         ServiceAccount, Job, Backup, Restore, ComponentParameter], COMPONENT_CRITERIA)),
    Rule(InstanceSet, All([Pod, Service, PersistentVolumeClaim, ConfigMap], ITS_CRITERIA)),
    Rule(ComponentParameter, All([ConfigMap], COMPONENT_CRITERIA)),
    Rule(Backup, All([Job, StatefulSet, VolumeSnapshotV1, VolumeSnapshotV1Beta1], BACKUP_CRITERIA)),
    Rule(Restore, All([Job], BACKUP_CRITERIA)),
    Rule(PersistentVolumeClaim, All([PersistentVolume], PVC_CRITERIA))]

  // ------------------------------------------------------------ matching

  function LabelOf(o: Object, key: string): string {
    if key in o.labels then o.labels[key] else ""
  }

  /** The label value that a secondary of this primary must have. */
  function Resolve(primary: Object, key: string, v: LabelValue): string {
    match v
    case PrimaryName => primary.name
    case PrimaryLabel => LabelOf(primary, key)
    case Constant(value) => value
  }

  predicate LabelsMatch(primary: Object, wanted: map<string, LabelValue>, o: Object) {
    forall k :: k in wanted ==> k in o.labels && o.labels[k] == Resolve(primary, k, wanted[k])
  }

  /** matchOwnerOf: the first reference with the primary's uid decides. */
  predicate OwnerMatches(uid: string, controller: bool, refs: seq<OwnerRef>) {
    refs != [] &&
    if refs[0].uid == uid then !controller || refs[0].controller
    else OwnerMatches(uid, controller, refs[1..])
  }

  /** It matches exactly when some reference has the uid and the first such one, where a controller
      is asked for, is a controller. */
  lemma {:induction false} OwnerMatchesIff(uid: string, controller: bool, refs: seq<OwnerRef>)
    ensures OwnerMatches(uid, controller, refs) <==>
            exists i :: 0 <= i < |refs| && refs[i].uid == uid && (forall j :: 0 <= j < i ==> refs[j].uid != uid) &&
                        (controller ==> refs[i].controller)
  {
    if refs != [] && refs[0].uid != uid {
      var rest := refs[1..];
      OwnerMatchesIff(uid, controller, rest);
      if OwnerMatches(uid, controller, rest) {
        var i :| 0 <= i < |rest| && rest[i].uid == uid && (forall j :: 0 <= j < i ==> rest[j].uid != uid) &&
                 (controller ==> rest[i].controller);
        assert refs[i + 1] == rest[i];
        assert forall j :: 1 <= j < i + 1 ==> refs[j] == rest[j - 1];
      }
      if i :| 0 <= i < |refs| && refs[i].uid == uid && (forall j :: 0 <= j < i ==> refs[j].uid != uid) &&
              (controller ==> refs[i].controller) {
        assert rest[i - 1] == refs[i];
        assert forall j :: 0 <= j < i - 1 ==> rest[j] == refs[j + 1];
      }
    }
  }

  /** Where no controller is asked for, any reference with the uid will do. */
  lemma {:induction false} OwnerMatchesAny(uid: string, refs: seq<OwnerRef>)
    ensures OwnerMatches(uid, false, refs) <==> exists r :: r in refs && r.uid == uid
  {
    if refs != [] {
      OwnerMatchesAny(uid, refs[1..]);
    }
  }

  /** The object has the label, with that value. */
  predicate Labelled(o: Object, key: string, value: string) {
    key in o.labels && o.labels[key] == value
  }

  /** The object is owned by reference. */
  ghost predicate Refers(o: Object, owner: Object) {
    exists r :: r in o.owners && r.uid == owner.uid
  }

  /** parseQueryOptions(primary, criteria) followed by match(o). */
  predicate IsOwner(primary: Object, c: Criteria, o: Object) {
    && (c.labels.Some? ==> LabelsMatch(primary, c.labels.value, o))
    && (c.byVolumeName && primary.volumeName.Some? ==> o.name == primary.volumeName.value)
    && (c.validation.OwnerValidation? ==> OwnerMatches(primary.uid, false, o.owners))
    && (c.validation.ControllerValidation? ==> OwnerMatches(primary.uid, true, o.owners))
  }

  /** What belongs to a cluster refers to it and is labelled with its name. */
  lemma IsOwnedByCluster(cluster: Object, o: Object)
    ensures IsOwner(cluster, CLUSTER_CRITERIA, o) <==>
            Refers(o, cluster) && Labelled(o, "app.kubernetes.io/instance", cluster.name) &&
            Labelled(o, "app.kubernetes.io/managed-by", "kubeblocks")
  {
    OwnerMatchesAny(cluster.uid, o.owners);
  }

  /** What belongs to a component refers to it and shares its instance label; a component without
      one counts as labelled with the empty string. */
  lemma IsOwnedByComponent(component: Object, o: Object)
    ensures IsOwner(component, COMPONENT_CRITERIA, o) <==>
            Refers(o, component) && Labelled(o, "app.kubernetes.io/managed-by", "kubeblocks") &&
            Labelled(o, "app.kubernetes.io/instance",
                     if "app.kubernetes.io/instance" in component.labels
                     then component.labels["app.kubernetes.io/instance"] else "")
  {
    OwnerMatchesAny(component.uid, o.owners);
  }

  /** What belongs to an instance set need not refer to it: labels decide. */
  lemma IsOwnedByInstanceSet(its: Object, o: Object)
    ensures IsOwner(its, ITS_CRITERIA, o) <==>
            Labelled(o, "workloads.kubeblocks.io/instance", its.name) &&
            Labelled(o, "workloads.kubeblocks.io/managed-by", "InstanceSet")
  {
  }

  /** And so for backups and restores. */
  lemma IsOwnedByBackup(backup: Object, o: Object)
    ensures IsOwner(backup, BACKUP_CRITERIA, o) <==>
            Labelled(o, "app.kubernetes.io/managed-by", "kubeblocks-dataprotection") &&
            Labelled(o, "app.kubernetes.io/instance",
                     if "app.kubernetes.io/instance" in backup.labels
                     then backup.labels["app.kubernetes.io/instance"] else "")
  {
  }

  // ---------------------------------------------------------- acyclicity

  /** Depth of a kind in the object tree; owners lie strictly above. */
  function Rank(k: Kind): (r: nat)
    ensures r < MAX_RANK
  {
    match k
    case Cluster => 0
    case Component => 1
    case InstanceSet => 2
    case ComponentParameter => 2
    case Backup => 2
    case Restore => 2
    case PersistentVolumeClaim => 3
    case _ => 4
  }

  const MAX_RANK: nat := 5

  /** Every primary kind ranks below every kind it owns. */
  ghost predicate Ranked(rules: seq<Rule>) {
    forall r, o :: r in rules && o in r.owned ==> Rank(r.primary) < Rank(o.secondary)
  }

  lemma FullRulesAreRanked()
    ensures Ranked(FULL_RULES)
  {
    forall r, o | r in FULL_RULES && o in r.owned
      ensures Rank(r.primary) < Rank(o.secondary)
    {
      var i :| 0 <= i < |FULL_RULES| && FULL_RULES[i] == r;
      var j :| 0 <= j < |r.owned| && r.owned[j] == o;
      RowIsRanked(i, j);
    }
  }

  lemma RowIsRanked(i: nat, j: nat)
    requires i < |FULL_RULES| && j < |FULL_RULES[i].owned|
    ensures Rank(FULL_RULES[i].primary) < Rank(FULL_RULES[i].owned[j].secondary)
  {
    assert i == 0 || i == 1 || i == 2 || i == 3 || i == 4 || i == 5 || i == 6;
  }

  // ------------------------------------------------------------ filtering

  /** filterUnsupportedRules, for the kinds that the API server serves. */
  method FilterUnsupportedRules(rules: seq<Rule>, served: Kind -> bool) returns (kept: seq<Rule>)
    ensures forall p, o :: HasEdge(kept, p, o) <==> HasEdge(rules, p, o) && served(p) && served(o.secondary)
    ensures forall r :: r in kept ==> r.owned != []
    ensures Ranked(rules) ==> Ranked(kept)
  {
    kept := [];
    for i := 0 to |rules|
      invariant forall p, o :: HasEdge(kept, p, o) <==> HasEdge(rules[..i], p, o) && served(p) && served(o.secondary)
      invariant forall r :: r in kept ==> r.owned != []
    {
      var rule := rules[i];
      assert rules[..i + 1] == rules[..i] + [rule];
      if !served(rule.primary) {
        continue;
      }
      var owned: seq<Owned> := [];
      for j := 0 to |rule.owned|
        invariant forall o :: o in owned <==> o in rule.owned[..j] && served(o.secondary)
      {
        assert rule.owned[..j + 1] == rule.owned[..j] + [rule.owned[j]];
        if served(rule.owned[j].secondary) {
          owned := owned + [rule.owned[j]];
        }
      }
      assert rule.owned[..|rule.owned|] == rule.owned;
      if |owned| > 0 {
        ghost var before := kept;
        kept := kept + [Rule(rule.primary, owned)];
        assert forall p, o :: HasEdge(kept, p, o) <==> HasEdge(before, p, o) || (p == rule.primary && o in owned);
      }
    }
    assert rules[..|rules|] == rules;
    RankedByEdges(rules);
    RankedByEdges(kept);
  }

  /** Some rule for this primary lists this owned resource. */
  ghost predicate HasEdge(rules: seq<Rule>, primary: Kind, owned: Owned) {
    exists r :: r in rules && r.primary == primary && owned in r.owned
  }

  lemma RankedByEdges(rules: seq<Rule>)
    ensures Ranked(rules) <==> forall p, o :: HasEdge(rules, p, o) ==> Rank(p) < Rank(o.secondary)
  {
    if forall p, o :: HasEdge(rules, p, o) ==> Rank(p) < Rank(o.secondary) {
      forall r, o | r in rules && o in r.owned
        ensures Rank(r.primary) < Rank(o.secondary)
      {
        assert HasEdge(rules, r.primary, o);
      }
    }
  }

  /** Volumes are owned by claims only, and by the criterion on spec.volumeName only. */
  lemma VolumeEdge(p: Kind, o: Owned)
    ensures HasEdge(FULL_RULES, p, o) && o.secondary.PersistentVolume? <==>
            p == PersistentVolumeClaim && o == Owned(PersistentVolume, PVC_CRITERIA)
  {
    if HasEdge(FULL_RULES, p, o) && o.secondary.PersistentVolume? {
      var r :| r in FULL_RULES && r.primary == p && o in r.owned;
      var i :| 0 <= i < |FULL_RULES| && FULL_RULES[i] == r;
      var j :| 0 <= j < |r.owned| && r.owned[j] == o;
      VolumeRow(i, j);
    }
    var claims := FULL_RULES[6];
    assert claims in FULL_RULES && claims.owned[0] in claims.owned;
  }

  lemma VolumeRow(i: nat, j: nat)
    requires i < |FULL_RULES| && j < |FULL_RULES[i].owned| && FULL_RULES[i].owned[j].secondary.PersistentVolume?
    ensures FULL_RULES[i].primary == PersistentVolumeClaim && FULL_RULES[i].owned[j].criteria == PVC_CRITERIA
  {
  }

  lemma ClusterRow(i: nat, j: nat)
    requires i < |FULL_RULES| && j < |FULL_RULES[i].owned|
    ensures FULL_RULES[i].primary.Cluster? ==>
      var o := FULL_RULES[i].owned[j];
      o.criteria == CLUSTER_CRITERIA && (o.secondary.Component? || o.secondary.Service? || o.secondary.Secret?)
    ensures FULL_RULES[i].owned[j].secondary.Component? ==> FULL_RULES[i].primary.Cluster?
  {
  }

  /** Clusters own components, services and secrets, by reference; components belong to clusters
      only. */
  lemma ClusterEdge(p: Kind, o: Owned)
    ensures HasEdge(FULL_RULES, Cluster, o) <==>
            o.criteria == CLUSTER_CRITERIA && (o.secondary.Component? || o.secondary.Service? || o.secondary.Secret?)
    ensures HasEdge(FULL_RULES, p, o) && o.secondary.Component? ==> p.Cluster?
  {
    forall q | HasEdge(FULL_RULES, q, o)
      ensures q.Cluster? ==>
        o.criteria == CLUSTER_CRITERIA && (o.secondary.Component? || o.secondary.Service? || o.secondary.Secret?)
      ensures o.secondary.Component? ==> q.Cluster?
    {
      var r :| r in FULL_RULES && r.primary == q && o in r.owned;
      var i :| 0 <= i < |FULL_RULES| && FULL_RULES[i] == r;
      var j :| 0 <= j < |r.owned| && r.owned[j] == o;
      ClusterRow(i, j);
    }
    var r := FULL_RULES[0];
    assert r in FULL_RULES && r.owned[0] in r.owned && r.owned[1] in r.owned && r.owned[2] in r.owned;
  }

  /** The kinds between a volume and a cluster. */
  predicate Trunk(k: Kind) {
    k.Cluster? || k.Component? || k.InstanceSet? || k.PersistentVolumeClaim? || k.PersistentVolume?
  }

  lemma TrunkRow(i: nat, j: nat)
    requires i < |FULL_RULES| && j < |FULL_RULES[i].owned| && Trunk(FULL_RULES[i].owned[j].secondary)
    ensures Trunk(FULL_RULES[i].primary) && !FULL_RULES[i].primary.PersistentVolume?
  {
  }

  /** Owners of trunk kinds are of trunk kinds. */
  lemma TrunkEdge(r: Rule, o: Owned)
    requires r in FULL_RULES && o in r.owned && Trunk(o.secondary)
    ensures Trunk(r.primary) && !r.primary.PersistentVolume?
  {
    var i :| 0 <= i < |FULL_RULES| && FULL_RULES[i] == r;
    var j :| 0 <= j < |r.owned| && r.owned[j] == o;
    TrunkRow(i, j);
  }
}
