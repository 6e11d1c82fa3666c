# KubeBlocks control-plane protocols in Dafny

This project models the parts of KubeBlocks whose correctness depends on the order of many small
steps, and proves what they keep over every sequence of steps:

* the pre-check protocol of a backup repository (`RepoPreCheck`),
* incremental backup chains: parent choice, start, completion and cascading deletion
  (`Backups`, `ParentChoice`, `BackupChain`),
* keep-latest garbage collection of backups (`BackupGc`),
* the action loop that decides that a backup is completed (`RunningPhase`),
* rolling parameter upgrades with a bounded restart window (`RollingWindow`),
* the search for the clusters that own an object (`OwnershipRules`, `RootFinder`) and the
  reference-counted revision store of the trace controller (`RevisionStore`),
* the reconcile of backup schedules (`ScheduleMerge`),
* the two-way reference map of the backup repository controller (`RefMapper`),
* expansion of `$(VAR)` references (`Expand`), and
* the bounded revision history in configmap annotations (`RevisionHistory`).

Code that changes objects step by step is modelled by classes and by methods with loops; each
such method is proved against a function or predicate on values, and the theorems about whole
sequences of steps are about that function. An API write ends in one of three ways (`Common`):
applied, refused, or applied although the caller sees an error.

`dafny verify dfyconfig.toml` checks the whole project.

## Where the code does not do what its design promises

* `RepoPreCheck.ReadyWithoutStoredCondition`: phase Ready can be stored while the stored
  pre-check condition is not True, when the deferred condition update is refused and the status
  patch of the error path goes through.
* `RepoPreCheck.ReadyForUncheckedConfig`: Ready can be written for a configuration that was never
  checked, when the write of a recovered basic condition is refused: it is True in memory
  already, and the pre-check condition is the one of the configuration before.
  `RepoPreCheck.ReadyIsEarned` says where either can happen, and
  `RepoPreCheck.BasicErrorStoresReadyIff` exactly what has to hold before the failing write.
* `RevisionStore.WrittenGuardLosesRevisions`: the guard at line 171 tests the reference map it
  has just emptied, so the last release of one revision drops all revisions of that object.
  `RevisionStore.WrittenReleaseIsSafeIff` gives the exact condition, and
  `RevisionStore.ReferenceSafetyAsMeant` the invariant for the guard as meant.
* `BackupChain.GrandchildLosesChain`: after the removal of a backup in the middle of a chain its
  child is marked for deletion but its grandchild not yet, so a completed backup without mark can
  have an incomplete chain. `BackupChain.StepKeepsRestorableIff` says for every step exactly when
  it leaves all unmarked backups restorable, and `BackupChain.CascadeArrives` that finishing the
  deletions repairs it.
* `BackupChain.ReuseBreaksClosure` and `BackupChain.ReusedNameBreaksChain`: the name of a removed
  backup can be taken again while a dying child still refers to it. A new incremental then gets a
  base that never was taken, and can lose it. `BackupChain.CreateKeepsInvIff` says exactly when a
  create is harmless, and `BackupChain.StepKeepsClosedIff`, for all runs with or without reuse,
  exactly when a step keeps the closure.
* `BackupGc.LatestIncrementalIsCascaded`: the promise to retain the latest backup does not extend
  to incrementals, because collecting a full backup deletes those based on it.
  `BackupGc.IncrementalAtRiskIff` gives the exact condition on the stored backups.
* `BackupGc.HiddenBackupIsCollected`: a latest backup that a user has deleted, but that is still
  in phase Completed, goes on counting as the latest, so the next one can be collected.
  `BackupGc.UnmarkedLatestIsCollectedIff` gives the exact condition.
* `RollingWindow.ReorderCostsRounds`: the pods are listed by role at every call, and when a role
  moves, finished pods can take up places in the window, so ceil(n/k) rounds need not be enough.
  `RollingWindow.RoundIsFullIff` says exactly which rounds lose nothing, and
  `RollingWindow.ProgressUnderAnyOrder` how many rounds always suffice.
* `RunningPhase.FailureDependsOnOrder`: the iteration order of a Go map can decide whether a
  backup fails or waits. `RunningPhase.VerdictIgnoresOrderIff` says exactly for which targets it
  cannot, and `RunningPhase.MayWaitByReports`, `RunningPhase.MayFailByReports` and
  `RunningPhase.MayRequeueIff` which decisions some order leads to. Completion never depends on
  it.
* `RootFinder.StrayTraceIsRequested`: a claim without a volume name counts as an owner of every
  persistent volume, because an empty selector list matches, so a change of any volume wakes the
  trace of its cluster. `RootFinder.VolumeRootsAreNamedIff` gives the exact condition.
* `Expand.IdentityIff`: a non-ASCII byte after a `$` is encoded a second time (line 120), so
  expansion without mappings is the identity only on the texts given there.
* `ScheduleMerge.StableAfterOneRoundIff`: an appended schedule gets its name one round late.

## Assumptions

* Reconciles of backups are atomic and read current state; one reconcile per object at a time.
  The backup repository protocol, where the order of writes is the point, is modelled write by
  write, with configuration edits, job progress, refused and lost writes and crashes in between.
* Names are unique within a namespace; pod names are unique within a component.
* Policies, methods and action sets do not change during a sequence of steps, and the type label
  of a backup agrees with the type of its method.
* `Execute` reports Running, Completed or Failed, as all actions in
  pkg/dataprotection/action do.
* Digests, hashes, JSON values and encryption settings are opaque values. Annotation keys of
  revision records are a datatype, so that no record key can collide with another key.
* One Kubernetes cluster; locks are atomic methods; wall-clock timeouts are a free choice.
* A float outside the int32 range converts to a platform value, an argument of
  `RollingWindow.MaxRollingReplicas`.
* A reconcile of a backup repository reads provider and parameters at one point. The conditions
  of the checks before the pre-check are modelled as True or not True.
* Besides users, nothing but the collector and the cascade deletes backups.

## Model

| member | source | states |
|---|---|---|
| RepoPreCheck.NextKeepsInv | controllers/dataprotection/backuprepo_controller.go:174-293 | every single write, read, edit, job event or crash keeps the protocol invariant, at every program point, with each basic check and its own condition |
| RepoPreCheck.ExecKeepsInv | controllers/dataprotection/backuprepo_controller.go:174-293 | the invariant holds after every interleaving from an initial state |
| RepoPreCheck.PreCheckCrashSafety | controllers/dataprotection/backuprepo_controller.go:631-724 | in every interleaving a stored PreCheckPassed=True is backed by a job that succeeded with exactly the annotated digest |
| RepoPreCheck.PreCheckFailureSafety | controllers/dataprotection/backuprepo_controller.go:631-724 | in every interleaving a stored PreCheckPassed=False is backed by a job with exactly the annotated digest that failed or exceeded the timeout |
| RepoPreCheck.ToolConfigAgreement | controllers/dataprotection/backuprepo_controller.go:588-629 | in every reachable state, crashes in the patch loop included, a need-update flag of false means every tool-config secret carries the annotated digest |
| RepoPreCheck.OnlyStatusWritesPhase | controllers/dataprotection/backuprepo_controller.go:295-334 | no other step changes the stored phase |
| RepoPreCheck.ReadyIsEarned | controllers/dataprotection/backuprepo_controller.go:295-354 | whenever Ready is written the annotated digest has passed; the stored condition is True exactly unless preCheckRepo returned an error with its condition update refused; the annotated digest is the one the writer has read, unless a basic check returned an error |
| RepoPreCheck.BasicErrorStoresReadyIff | controllers/dataprotection/backuprepo_controller.go:366-586 | an error of a basic check is followed by Ready exactly when the check itself passed, was the last one missing, and the pre-check condition is still True; and by Ready for another configuration than the annotated one exactly when in addition it has been edited since |
| RepoPreCheck.ReadyIsReachable | controllers/dataprotection/backuprepo_controller.go:631-746 | from every idle state, unless the current configuration has failed, the controller reaches Ready for it by its own steps and the success of its job, left-over objects of other configurations included |
| RepoPreCheck.FailureIsReached | controllers/dataprotection/backuprepo_controller.go:702-720 | from every idle state in which the controller would look at a failed job of the current configuration it stores PreCheckPassed=False and phase Failed for it, whether or not the logs can be fetched |
| RepoPreCheck.TimeoutIsReached | controllers/dataprotection/backuprepo_controller.go:682-720 | the same for a job that runs, or would be launched, and exceeds the timeout |
| RepoPreCheck.RunningIsAwaited | controllers/dataprotection/backuprepo_controller.go:669-700 | a running job is kept and waited for, and one is launched where there is none, with condition Unknown and phase PreChecking |
| RepoPreCheck.StaleIsRemoved | controllers/dataprotection/backuprepo_controller.go:631-724 | pre-check objects of another configuration are removed before anything is concluded from them |
| RepoPreCheck.VerdictIsFinal | controllers/dataprotection/backuprepo_controller.go:631-724 | over every run without an edit, crashes and lost writes included, a stored verdict and its digest stay, and after a failure Ready is never written |
| RepoPreCheck.SecretsAreUpdated | controllers/dataprotection/backuprepo_controller.go:588-629 | a reconcile that has stored Ready with the flag up removes the pre-check objects, brings every other secret to the annotated digest, and ends with the flag down |
| RepoPreCheck.EditReachesSecrets | controllers/dataprotection/backuprepo_controller.go:588-746 | for a repo accessed by tool, from every idle state with an edited configuration that has not failed, the controller reaches Ready with every secret at the new digest and the flag down |
| RepoPreCheck.ReadyWithoutStoredCondition | controllers/dataprotection/backuprepo_controller.go:249-255 | from every initial state a sequence of steps stores Ready with the stored condition not True |
| RepoPreCheck.ReadyForUncheckedConfig | controllers/dataprotection/backuprepo_controller.go:336-354 | from every initial state and for every later configuration: a state with phase Failed, the edit, and steps after it that write Ready although the new configuration never passed |
| Backups.LessIsTotal | pkg/dataprotection/utils/utils.go:451-453 | the name order that breaks ties is total and asymmetric |
| Backups.LessIsLexicographic | pkg/dataprotection/utils/utils.go:451-453 | a name is less exactly when it is a proper prefix or has the smaller character at the first difference |
| Backups.BeforeIsTotal | pkg/dataprotection/utils/utils.go:442-455 | the stop-time order is irreflexive and asymmetric, total on backups with stop times and different names, and an earlier stop time comes first |
| Backups.NotBeforeByTime | pkg/dataprotection/utils/utils.go:442-455 | what does not come before another stopped no earlier, and at equal times has the greater name |
| Backups.NotBeforeTransitive | pkg/dataprotection/utils/utils.go:442-455 | not stopping before is transitive, missing stop times included, so sorting by it is well defined |
| Backups.SortDescending | controllers/dataprotection/utils.go:641-651 | sorting keeps the members and puts later stop times first |
| Backups.HeadIsLatest | controllers/dataprotection/utils.go:641-651 | the first element after sorting is a member with the greatest stop time |
| Backups.LatestIsUnique | controllers/dataprotection/utils.go:641-651 | with stop times and distinct names there is one latest backup |
| ParentChoice.FilterParentBackups | controllers/dataprotection/utils.go:703-727 | keeps exactly the valid parents of the wanted method |
| ParentChoice.LatestParentBackup | controllers/dataprotection/utils.go:652-660 | finds the candidate of a type with the greatest stop time, at equal times the greatest name, or nothing exactly when there is none |
| ParentChoice.FindParentBackupIfNotSet | controllers/dataprotection/utils.go:639-700 | the parent is the full candidate with the greatest stop time, or the latest incremental if based on it and not stopped earlier; none exactly when there is no candidate of either type; an error exactly on API failure or for an incremental without full |
| ParentChoice.ParentIsUnique | controllers/dataprotection/utils.go:592-632 | at most one backup can be the parent |
| ParentChoice.GetParentBackup | controllers/dataprotection/utils.go:592-632 | a named parent is returned exactly as named if it is acceptable field by field, otherwise one is chosen; without API failure it fails only if no backup can be the parent |
| ParentChoice.Prepare4Incremental | controllers/dataprotection/backup_controller.go:1060-1095 | parent and base are derived as designed; without API failure it is rejected only if no pair fits |
| ParentChoice.ChosenBaseIsLatestFull | controllers/dataprotection/backup_controller.go:1076-1093 | an automatically chosen parent, full or incremental, always leads to the latest full backup as base |
| BackupChain.DerivedLinks | controllers/dataprotection/backup_controller.go:1060-1095 | derived parent and base are stored, started earlier, and share policy, repo and encryption; the base is full |
| BackupChain.ReferrersAreRelated | controllers/dataprotection/backup_controller.go:843-867 | selecting by policy label finds every backup that refers to the one being deleted |
| BackupChain.RelatedAreHeld | controllers/dataprotection/backup_controller.go:910-911 | whatever the cascade finds carries the finalizer, so that deleting it only marks it |
| BackupChain.UnsettledIsUnreferenced | controllers/dataprotection/utils.go:730-735 | a backup that has not been completed, so also one without finalizer, is nobody's parent or base |
| BackupChain.RemoveKeepsInv | controllers/dataprotection/backup_controller.go:251-285 | removing a backup is safe once all that refer to it are marked |
| BackupChain.StartIncrementalKeepsInv | controllers/dataprotection/backup_controller.go:502-559 | starting an incremental with derived links keeps the chain invariant |
| BackupChain.CreateKeepsInvIff | controllers/dataprotection/backup_controller.go:843-867 | creating a backup keeps the invariant exactly when no stored backup refers to its name |
| BackupChain.StepKeepsInv | controllers/dataprotection/backup_controller.go:91-146 | every step but a create that reuses a referenced name keeps the invariant |
| BackupChain.RunKeepsInv | controllers/dataprotection/backup_controller.go:91-146 | so does every sequence of steps |
| BackupChain.ChainShape | controllers/dataprotection/backup_controller.go:547-553 | the chain of a backup follows recorded parent names as far as stored backups go |
| BackupChain.ChainMembers | controllers/dataprotection/backup_controller.go:1060-1095 | members of a chain were started strictly earlier, so the parent relation is acyclic, and share one policy, repo and encryption |
| BackupChain.ChainEnd | controllers/dataprotection/backup_controller.go:1060-1095 | a chain ends in the full backup recorded as base, or at a marked backup that has lost its parent |
| BackupChain.RestorableIffNotCut | controllers/dataprotection/backup_controller.go:843-867 | only a marked member can have lost its parent: a chain is incomplete exactly when such a one is in it |
| BackupChain.ChainsOverRuns | controllers/dataprotection/backup_controller.go:1060-1095 | in every state reached without reuse of referenced names an incremental's chain leads to its recorded base, a full backup, exactly when it is not cut; without deletion marks it always does |
| BackupChain.CascadeClosure | controllers/dataprotection/backup_controller.go:251-285 | in every state reached without reuse of referenced names a backup without deletion mark never names a parent or base that is gone |
| BackupChain.RestorableAfterRemovalIff | controllers/dataprotection/backup_controller.go:253-285 | after a removal another backup is restorable exactly when it was and its chain did not pass through the removed one |
| BackupChain.RemoveKeepsRestorableIff | controllers/dataprotection/backup_controller.go:253-285 | a removal leaves all unmarked backups restorable exactly when every backup whose chain passes through the removed one is marked |
| BackupChain.StartKeepsRestorableIff | controllers/dataprotection/backup_controller.go:502-559 | starting an incremental leaves all unmarked backups restorable exactly when its parent is |
| BackupChain.StepKeepsRestorableIff | controllers/dataprotection/backup_controller.go:91-146 | for every step, the exact condition before it under which all unmarked backups stay restorable |
| BackupChain.GentleRunKeepsRestorable | controllers/dataprotection/backup_controller.go:91-146 | over every sequence of such steps they do |
| BackupChain.StepKeepsClosedIff | controllers/dataprotection/backup_controller.go:843-867 | in any state, whatever names are reused, a step keeps the closure exactly when it takes away no backup that an unmarked one refers to; backups without finalizer are taken away at once |
| BackupChain.CarefulRunKeepsClosed | controllers/dataprotection/backup_controller.go:91-146 | over every sequence of such steps, name reuse included, the closure holds |
| BackupChain.ReachableIsCareful | controllers/dataprotection/backup_controller.go:843-867 | without reuse of referenced names every step is of that kind, thanks to the cascade |
| BackupChain.Namespace.DeleteRelatedBackups | controllers/dataprotection/backup_controller.go:843-867 | marks exactly the children and the backups based on the deleted one, or a part of them if a call fails, and changes nothing else |
| BackupChain.Namespace.HandleDeletingPhase | controllers/dataprotection/backup_controller.go:253-285 | the backup is removed exactly when nothing fails, its files are gone and the policy is not Retain, and then only after all related backups were marked |
| BackupChain.DeletingPhaseIsSteps | controllers/dataprotection/backup_controller.go:253-285 | what the deleting reconcile does to the stored backups is a sequence of steps of the model |
| BackupChain.GrandchildLosesChain | controllers/dataprotection/backup_controller.go:843-867 | a reachable state with a completed, unmarked backup whose chain is cut |
| BackupChain.CascadeArrives | controllers/dataprotection/backup_controller.go:251-285 | from every state reached without reuse of referenced names, finishing the deletions leads to one without marks; what is left are exactly the backups whose whole chain was unmarked, unchanged, all with complete chains |
| BackupChain.ReusedNameBreaksChain | controllers/dataprotection/backup_controller.go:1079-1090 | a reachable state and steps after which an unmarked incremental has a base that was never taken |
| BackupChain.ReuseBreaksClosure | controllers/dataprotection/backup_controller.go:1079-1090 | a reachable state and steps with name reuse after which an unmarked incremental names a base that is gone |
| BackupGc.GetRelatedBackups | controllers/dataprotection/gc_controller.go:224-246 | returns exactly the backups of the same cluster, policy and non-empty method |
| BackupGc.IsLatestCompletedBackup | controllers/dataprotection/gc_controller.go:191-221 | true only if no completed backup of the group has a greater stop time; false for a completed one only if another stopped no earlier or it is in no group |
| BackupGc.IsBackupDeletable | controllers/dataprotection/gc_controller.go:137-188 | which backups may be collected, and which may be left alone, with every missing or unreadable object |
| BackupGc.Collector.Reconcile | controllers/dataprotection/gc_controller.go:78-126 | marks the backup only if it is unmarked, collectable and its expiration is not after now; leaves one whose expiration has come only on an API failure or for a reason to keep it |
| BackupGc.LatestIsNotCollected | controllers/dataprotection/gc_controller.go:175-186 | the latest backup of a retained group is never collectable |
| BackupGc.StepKeepsInv | controllers/dataprotection/gc_controller.go:78-126 | every collection, start, completion, failure, cascade and removal keeps the latest of each non-incremental group under a retaining policy unmarked |
| BackupGc.CascadeKeepsInv | controllers/dataprotection/backup_controller.go:843-867 | a cascade reaches incrementals only |
| BackupGc.RunKeepsInv | controllers/dataprotection/gc_controller.go:78-126 | so does every sequence of them |
| BackupGc.StepKeepsLatest | controllers/dataprotection/gc_controller.go:191-221 | the latest of a non-incremental retained group stays through a step or gives way to one that stopped later |
| BackupGc.LatestSurvives | controllers/dataprotection/gc_controller.go:137-221 | after every sequence of steps, cascades included, some completed, unmarked backup of a non-incremental retained group has a stop time no earlier than that of the latest one before, and than that of every completed one now |
| BackupGc.HeirIsProtected | controllers/dataprotection/gc_controller.go:191-221 | the one that takes over has the greatest stop time of the group |
| BackupGc.LaterBackupReleases | controllers/dataprotection/gc_controller.go:175-221 | as soon as a completed backup of the group with a greater stop time is stored, nothing keeps the earlier one |
| BackupGc.IncrementalAtRiskIff | controllers/dataprotection/gc_controller.go:169-174 | some step can change a completed, unmarked incremental exactly while a backup that it names as parent or base is being deleted; no collection ever does |
| BackupGc.IncrementalStays | controllers/dataprotection/gc_controller.go:169-174 | through every sequence of steps in which that never happens it stays as it is |
| BackupGc.LatestIncrementalIsCascaded | controllers/dataprotection/backup_controller.go:843-867 | a collection whose cascade takes the latest incremental of a group under a retaining policy |
| BackupGc.UnmarkedLatestIsCollectedIff | controllers/dataprotection/gc_controller.go:202-219 | the latest unmarked backup of a retained group can be collected exactly when a marked one that is still Completed stopped later |
| BackupGc.HiddenBackupIsCollected | controllers/dataprotection/gc_controller.go:202-219 | two backups for which that happens |
| RunningPhase.MergedPreserves | controllers/dataprotection/backup_controller.go:920-941 | merging a report keeps every record in place under its name, never changes a start time once set, and records the reported phase |
| RunningPhase.MergedAt | controllers/dataprotection/backup_controller.go:920-941 | merging replaces the first record of that name, or appends one |
| RunningPhase.RunningBackup.MergeActionStatus | controllers/dataprotection/backup_controller.go:920-941 | the loop computes the merge |
| RunningPhase.Recorded | controllers/dataprotection/backup_controller.go:601-635 | however many reports are merged, no earlier record or start time is lost |
| RunningPhase.TargetDoneIff | controllers/dataprotection/backup_controller.go:613-634 | a target is done exactly when all actions of all its pods report Completed |
| RunningPhase.PodVerdictByReports | controllers/dataprotection/backup_controller.go:616-632 | a pod waits, fails or errs exactly as its first action that is not Completed reports Running, reports Failed or errs |
| RunningPhase.TargetVerdictByReports | controllers/dataprotection/backup_controller.go:613-634 | a target does as its first pod that is not all Completed |
| RunningPhase.DoneIgnoresOrder | controllers/dataprotection/backup_controller.go:613-634 | whether a target is done does not depend on the iteration order of its pods |
| RunningPhase.FailureDependsOnOrder | controllers/dataprotection/backup_controller.go:622-632 | two pods for which one order fails and the other waits |
| RunningPhase.VerdictIgnoresOrderIff | controllers/dataprotection/backup_controller.go:613-634 | a target has the same verdict under every pod order exactly when all pods that are not done have one and the same verdict |
| RunningPhase.PossibleIsReached | controllers/dataprotection/backup_controller.go:613-634 | each pod that is not done can decide for its target under some order |
| RunningPhase.OrdersOf | controllers/dataprotection/backup_controller.go:601-635 | every choice of possible verdicts of the targets comes from an order of their pods |
| RunningPhase.MayWaitByReports | controllers/dataprotection/backup_controller.go:636-649 | some pod order leads to waiting exactly when one target has a pod held up by a Running action and every target is completed or has a pod held up by a Running or Failed one |
| RunningPhase.MayFailByReports | controllers/dataprotection/backup_controller.go:650-653 | some pod order leads to failure exactly when an error that is no requeue can come first, or one target has a pod held up by a Failed action and every target is completed or has such a pod |
| RunningPhase.RunningIsNeverFailed | controllers/dataprotection/backup_controller.go:626-653 | if every action reports Completed or Running, Failed is written under no pod order |
| RunningPhase.MayRequeueIff | controllers/dataprotection/backup_controller.go:769-776 | some pod order leads to a requeue without a write exactly when a requeue error can come first |
| RunningPhase.CompletedIff | controllers/dataprotection/backup_controller.go:654-656 | completion is decided exactly when every action of every target reports Completed |
| RunningPhase.DecisionByReports | controllers/dataprotection/backup_controller.go:636-656 | without errors, waiting is decided exactly when the first report that is not Completed, of the first such pod of some target, is Running, and failure exactly when none is and one is Failed |
| RunningPhase.RunningBackup.ExecuteAct | controllers/dataprotection/backup_controller.go:616-632 | an action is executed only after all earlier ones of its pod reported Completed; its report is merged; the loop goes on, fails or waits as the report is Completed, Failed or neither |
| RunningPhase.RunningBackup.RunPod | controllers/dataprotection/backup_controller.go:615-633 | the first action that is not completed decides and no later one is executed |
| RunningPhase.RunningBackup.RunTarget | controllers/dataprotection/backup_controller.go:601-634 | the first pod that is not done decides |
| RunningPhase.RunningBackup.HandleRunningPhase | controllers/dataprotection/backup_controller.go:601-656 | Completed is written exactly when every action of every target reports Completed; the first error wins and writes Failed unless it asks for a requeue; without errors it waits or fails by the first reports that are not Completed, waiting first; exactly the actions due were executed, in turn |
| RollingWindow.WindowEnd | controllers/parameters/rolling_upgrade_policy.go:128-141 | everything above the window is updated and available, its top pod is not |
| RollingWindow.WindowBegin | controllers/parameters/rolling_upgrade_policy.go:142 | the window holds at most k pods |
| RollingWindow.ClassifyPodByStats | controllers/parameters/rolling_upgrade_policy.go:152-172 | the name sets hold exactly the available and the merely ready pods |
| RollingWindow.ScanDown | controllers/parameters/rolling_upgrade_policy.go:128-140 | the scan finds the window end and records updated and updating pods |
| RollingWindow.MarkDynamicSwitchWindow | controllers/parameters/rolling_upgrade_policy.go:120-150 | window and updating pods are as specified |
| RollingWindow.CanSafeUpdatePods | controllers/parameters/rolling_upgrade_policy.go:110-118 | true exactly when every pod below the window is ready |
| RollingWindow.Component.RestartWindow | controllers/parameters/rolling_upgrade_policy.go:92-103 | asks to restart and then relabels the pods of the window that do not carry the version, up to the first failed write; a pod is relabelled only after its restart went through |
| RollingWindow.Component.PerformRollingUpgrade | controllers/parameters/rolling_upgrade_policy.go:64-108 | the method computes the specified step, with each early return; a pod whose version changes was asked to restart, did, and is unready |
| RollingWindow.MaxRollingReplicas | controllers/parameters/reconfigure_policy.go:152-189 | at least 1 and, for counts and for percentages within 100, at most the replicas or 1; the exact rounded value, or what the platform makes of a float that does not fit |
| RollingWindow.UpgradeRangeFrame | controllers/parameters/rolling_upgrade_policy.go:92-103 | pods outside the window and pods that carry the version stay untouched |
| RollingWindow.LabelFollowsRestart | controllers/parameters/rolling_upgrade_policy.go:92-103 | after one call a pod carries another version only if it is the wanted one and the pod restarted |
| RollingWindow.RestartDisturbs | controllers/parameters/rolling_upgrade_policy.go:92-103 | a stored restart leaves its pod unready, and with the wanted version if the label is stored too |
| RollingWindow.VersionMeansRestart | controllers/parameters/rolling_upgrade_policy.go:64-108 | over every run, a pod that carries a version carried it at the start or was restarted for it since |
| RollingWindow.NoneMeansRestarted | controllers/parameters/rolling_upgrade_policy.go:76-107 | so ESNone means that every pod is available and had the version from the start or was restarted for it |
| RollingWindow.LoopFailsIff | controllers/parameters/rolling_upgrade_policy.go:92-103 | the loop fails exactly if the restart or label of some pod of the window without the version fails |
| RollingWindow.ReportIs | controllers/parameters/rolling_upgrade_policy.go:64-108 | which status each cause gives; the count is that of the pods above the window and those in it that carry the version |
| RollingWindow.RestartsAreGuarded | controllers/parameters/rolling_upgrade_policy.go:64-108 | a pod is asked to restart, whatever comes of it, only inside a window of at most k pods and while every pod outside it is ready; no other pod is changed |
| RollingWindow.ReconcileBound | controllers/parameters/rolling_upgrade_policy.go:64-108 | a step that changes anything leaves at most k pods unready |
| RollingWindow.NextKeepsBound | controllers/parameters/rolling_upgrade_policy.go:64-150 | the bound is kept by every step, whatever write fails |
| RollingWindow.RollingSafety | controllers/parameters/rolling_upgrade_policy.go:64-150 | over every run, with any versions and window sizes up to the bound, no more than that many pods are unready |
| RollingWindow.NoneIffDone | controllers/parameters/rolling_upgrade_policy.go:76-107 | ESNone is returned exactly when every pod carries the version and is available |
| RollingWindow.SucceedWithinExpected | controllers/parameters/rolling_upgrade_policy.go:76-107 | the reported count never exceeds the expected one |
| RollingWindow.RoundShrinks | controllers/parameters/rolling_upgrade_policy.go:92-107 | a faultless round moves the window end down by k |
| RollingWindow.RollingProgress | controllers/parameters/rolling_upgrade_policy.go:64-108 | while the order of the pods stays the same, after ceil(n/k) faultless rounds every pod is done and ESNone is returned |
| RollingWindow.RoundFinishes | controllers/parameters/rolling_upgrade_policy.go:92-107 | a faultless round finishes exactly the pods of its window that do not carry the version |
| RollingWindow.RoundUnderOrder | controllers/parameters/policy_util.go:85-96 | whatever the order, a faultless round with pods left finishes at least one |
| RollingWindow.ProgressUnderAnyOrder | controllers/parameters/policy_util.go:85-96 | with any order of the pods at each call, as many faultless rounds as there are pods without the version suffice for ESNone |
| RollingWindow.RoundIsFullIff | controllers/parameters/rolling_upgrade_policy.go:120-150 | a round finishes as many pods as it could, the window size or all that are left, exactly when its window holds no pod that carries the version, or all that are left |
| RollingWindow.ReorderCostsRounds | controllers/parameters/policy_util.go:85-96 | four pods that are not done after two faultless rounds of two, because the order changed in between |
| RollingWindow.TouchedOnlyOnce | controllers/parameters/rolling_upgrade_policy.go:92-103 | a pod that was asked to restart carries the version and is not asked again for it |
| RollingWindow.RestartedAtMostOnce | controllers/parameters/rolling_upgrade_policy.go:92-103 | in a run whose writes succeed each pod is asked to restart at most once per version |
| OwnershipRules.FullRulesAreRanked | controllers/trace/type.go:100-236 | the rule table is acyclic: every primary ranks below what it owns |
| OwnershipRules.OwnerMatchesIff | controllers/trace/util.go:153-163 | an owner matches exactly when some owner reference has its uid and the first such one, where a controller is asked for, is a controller |
| OwnershipRules.IsOwnedByCluster | controllers/trace/type.go:60-67 | the cluster criteria hold exactly for objects that refer to the cluster by uid and carry its name and the KubeBlocks manager as labels |
| OwnershipRules.IsOwnedByComponent | controllers/trace/type.go:68-75 | the component criteria hold exactly for objects that refer to the component by uid and share its instance label |
| OwnershipRules.ClusterEdge | controllers/trace/type.go:100-118 | clusters own components, services and secrets by these criteria, and components belong to clusters only |
| OwnershipRules.FilterUnsupportedRules | controllers/trace/type.go:257-280 | keeps exactly the ownership edges between served kinds, and no empty rule |
| RootFinder.OwnersHas | controllers/trace/object_tree_root_finder.go:91-124 | the pushed objects are exactly the owners by the rules, which ClusterOwnsIff spells out for clusters; nothing is pushed exactly when a listing fails |
| RootFinder.OwnersRankLower | controllers/trace/object_tree_root_finder.go:91-124 | owners rank strictly lower than the object |
| RootFinder.PopsDrop | controllers/trace/object_tree_root_finder.go:67-125 | the number of pops still to come drops with every pop, although owners are pushed and no visited set is kept |
| RootFinder.PushOwners | controllers/trace/object_tree_root_finder.go:91-124 | the inner loops push the owners in order |
| RootFinder.CollectRoots | controllers/trace/object_tree_root_finder.go:61-125 | the search terminates, fails exactly when a needed listing fails, and otherwise returns exactly the clusters reached through zero or more ownership matches |
| RootFinder.FindRoots | controllers/trace/object_tree_root_finder.go:61-156 | the requests are exactly the traces whose target was reached, in order, or none |
| RootFinder.FindKubeBlocksRoots | controllers/trace/object_tree_root_finder.go:61-156 | the same for the rule table of KubeBlocks with any kinds left unserved, without an assumption on the rules, so that ComponentRoots and ComponentHasOneRoot apply to its result |
| RootFinder.HitsAreExact | controllers/trace/object_tree_root_finder.go:146-153 | a trace is requested exactly when its target is a reached cluster |
| RootFinder.HitsAreTraces | controllers/trace/object_tree_root_finder.go:146-153 | the same with the target spelled out: the named one, or else the cluster of the trace's own namespace and name |
| RootFinder.ClusterOwnsIff | controllers/trace/type.go:426-449 | under any part of the table a cluster owns an object exactly when it may own the kind and the object refers to it by uid and is labelled with its name |
| RootFinder.ComponentRoots | controllers/trace/object_tree_root_finder.go:61-125 | the clusters reached from a component are exactly those it refers to and is labelled with |
| RootFinder.ComponentHasOneRoot | controllers/trace/object_tree_root_finder.go:61-125 | with distinct uids a component with one owner reference reaches at most one cluster |
| RootFinder.ComponentTraces | controllers/trace/object_tree_root_finder.go:61-156 | the traces requested for a component are exactly those of the listed clusters that it belongs to |
| RootFinder.VolumeRoots | controllers/trace/type.go:426-449 | the clusters reached from a volume are exactly those reached from claims that name it or name none |
| RootFinder.VolumeRootsAreNamedIff | controllers/trace/type.go:426-449 | the search from a volume stays with the clusters whose claims name it exactly when every cluster reached from an unbound claim is one of them |
| RootFinder.UnboundClaimTracesEveryVolume | controllers/trace/util.go:345-354 | the trace of a cluster with an unbound claim is requested for every volume |
| RootFinder.StrayTraceIsRequested | controllers/trace/util.go:345-354 | a concrete cluster whose trace is requested for volumes that no claim names |
| RootFinder.TrunkSearchSucceeds | controllers/trace/object_tree_root_finder.go:61-125 | a search from a volume needs no kinds beyond claims, instance sets, components and clusters |
| RevisionStore.ObjectRevisionStore.Insert | controllers/trace/object_revision_store.go:62-100 | stores the revision and adds the reference, creating the nested maps it needs |
| RevisionStore.ObjectRevisionStore.Get | controllers/trace/object_revision_store.go:102-120 | returns the stored revision if any |
| RevisionStore.ObjectRevisionStore.Delete | controllers/trace/object_revision_store.go:142-177 | releases the reference with the guard as written |
| RevisionStore.InsertLookup | controllers/trace/object_revision_store.go:62-100 | an insert changes one revision and its references and no other |
| RevisionStore.DeleteLookup | controllers/trace/object_revision_store.go:142-177 | with the guard as meant a release drops exactly the revision whose last reference it was |
| RevisionStore.DeleteLookupAsWritten | controllers/trace/object_revision_store.go:142-177 | as written the last release drops every revision of the object |
| RevisionStore.DeleteRefs | controllers/trace/object_revision_store.go:142-177 | a release removes one reference and no other |
| RevisionStore.SharedReleaseKeepsObjects | controllers/trace/object_revision_store.go:142-177 | no stored object changes while another trace references the revision |
| RevisionStore.ReferenceSafetyAsMeant | controllers/trace/object_revision_store.go:62-177 | with the guard as meant, after every sequence of operations exactly the referenced revisions are stored |
| RevisionStore.WrittenReleaseIsSafeIff | controllers/trace/object_revision_store.go:166-177 | as written a release is safe exactly when the revision stays referenced or no other revision of the object is |
| RevisionStore.WrittenGuardLosesRevisions | controllers/trace/object_revision_store.go:166-177 | three operations after which a referenced revision is gone |
| RefMapper.FlattenRoundTripIff | controllers/dataprotection/utils.go:573-586 | the flattened name parses back exactly for namespaces without a slash |
| RefMapper.SwapRemovedRemoves | controllers/dataprotection/utils.go:562-571 | swap-removal in place takes out one entry, keeps the others and makes no duplicate |
| RefMapper.RefObjectMapper.RemoveInvertLocked | controllers/dataprotection/utils.go:562-571 | the loop computes the swap-removal |
| RefMapper.RefObjectMapper.SetRef | controllers/dataprotection/utils.go:513-524 | replaces the reference in both maps |
| RefMapper.RefObjectMapper.RemoveRef | controllers/dataprotection/utils.go:527-536 | removes the reference from both maps |
| RefMapper.RefObjectMapper.MapToRequests | controllers/dataprotection/utils.go:539-550 | returns the parsed names of the inverse list |
| RefMapper.SetRefKeepsInverse | controllers/dataprotection/utils.go:513-524 | the lists stay duplicate-free and exactly inverse to the forward map |
| RefMapper.RemoveRefKeepsInverse | controllers/dataprotection/utils.go:527-536 | the same for removal |
| RefMapper.RunIsInverse | controllers/dataprotection/utils.go:497-571 | the same after every sequence of operations |
| RefMapper.RunForward | controllers/dataprotection/utils.go:497-586 | the forward map holds for each referent what was last set and not removed |
| RefMapper.RequestsAreExact | controllers/dataprotection/utils.go:497-586 | after every sequence of operations the requests for an object are exactly its referents, each once |
| Expand.Resolve | pkg/common/expand.go:42-53 | the first mapping that has the name decides; an unknown name maps to its own reference |
| Expand.TryReadVariableName | pkg/common/expand.go:101-122 | a reference is recognised exactly when a closer follows; otherwise one byte is consumed |
| Expand.WritePiece | pkg/common/expand.go:61-88 | the loop body keeps buffer, unwritten text and remaining expansion equal to the whole |
| Expand.Expand | pkg/common/expand.go:58-93 | the loop with cursor, checkpoint and buffer refines the one-pass specification |
| Expand.DoublingEscapes | pkg/common/expand.go:58-122 | doubling every $ and expanding gives the text back under every mapping |
| Expand.IdentityIff | pkg/common/expand.go:42-122 | without mappings expansion is the identity exactly when, read from left to right, no $ outside a reference is followed by a second $ or a non-ASCII byte |
| Expand.IdentityOnPlain | pkg/common/expand.go:42-122 | in particular on text without such a pair |
| Expand.PlainPrefixStays | pkg/common/expand.go:58-93 | text without $ is copied |
| Expand.ReferenceIsReplaced | pkg/common/expand.go:58-122 | a reference is replaced by its value, which is not expanded again |
| RevisionHistory.FormatInt | controllers/parameters/reconcile_task.go:292-326 | formatting an int64 and parsing it again gives it back |
| RevisionHistory.SignedParse | controllers/parameters/revision.go:73-92 | a revision parses with or without a plus sign to the same value, with a minus sign to its negative, within the int64 range |
| RevisionHistory.RetrieveRevision | controllers/parameters/revision.go:73-92 | lists exactly the annotations that are revision records, in ascending order, for every map order |
| RevisionHistory.ConfigMap.GcConfigRevision | controllers/parameters/revision.go:45-52 | drops the oldest records beyond the limit |
| RevisionHistory.CollectedKeepsNewest | controllers/parameters/revision.go:45-61 | the newest ten stay, nothing but records is dropped, and no dropped record is numerically greater than a kept one |
| RevisionHistory.ConfigMap.UpdateConfigPhase | controllers/parameters/config_annotation.go:102-125 | collects, then writes the current revision's record; without revision nothing |
| RevisionHistory.ConfigMap.UpdateAppliedConfigs | controllers/parameters/config_annotation.go:152-191 | the annotations that recording an applied configuration leaves; none change if the hash fails |
| RevisionHistory.PhaseWriteIs | controllers/parameters/config_annotation.go:102-125 | key by key: the record of the current revision, the disable mark after a failure that is not retried, and nothing else but dropped records |
| RevisionHistory.AppliedWriteIs | controllers/parameters/config_annotation.go:152-191 | key by key: the applied configuration is remembered, the policy dropped, the current record replaced, and nothing else changes but dropped records |
| RevisionHistory.WriteBound | controllers/parameters/config_annotation.go:102-168 | after a stored write at most eleven records remain, the current revision's among them |
| RevisionHistory.HistoryIsBounded | controllers/parameters/config_annotation.go:102-168 | over every sequence of writes, lost and refused ones included, at most eleven records exist |
| RevisionHistory.LastDoneIsGreatest | controllers/parameters/reconcile_task.go:292-326 | the loop's last-done revision is the greatest finished one in the sorted list |
| RevisionHistory.RecordInIs | controllers/parameters/reconcile_task.go:314-326 | the loop finds the record of the wanted revision if there is one |
| RevisionHistory.SyncStatus | controllers/parameters/reconcile_task.go:292-326 | phase and reconcile detail are those of the record of the wanted revision, and last-done is the greatest finished one |
| RevisionHistory.FinishedIsFound | controllers/parameters/reconcile_task.go:292-326 | last-done is the greatest recorded finished revision, or unchanged if there is none |
| ScheduleMerge.BackupSchedule.FillNames | controllers/dataprotection/backuppolicydriver_controller.go:297-305 | unnamed entries get the name of their method |
| ScheduleMerge.BackupSchedule.SyncBackupSchedule | controllers/dataprotection/backuppolicydriver_controller.go:296-325 | names are filled in and missing template schedules appended |
| ScheduleMerge.BackupSchedule.MergeAt | controllers/dataprotection/backuppolicydriver_controller.go:587-647 | the loop body computes the merge of one entry and the three flags |
| ScheduleMerge.BackupSchedule.MergeClusterBackup | controllers/dataprotection/backuppolicydriver_controller.go:525-655 | the in-place loop and the append compute the merge |
| ScheduleMerge.MergeAllKeeps | controllers/dataprotection/backuppolicydriver_controller.go:587-647 | merging keeps entries in place with name, method and parameters |
| ScheduleMerge.MergeEntryIdempotent | controllers/dataprotection/backuppolicydriver_controller.go:587-647 | merging an entry again changes nothing, flags included |
| ScheduleMerge.MergeAllIdempotent | controllers/dataprotection/backuppolicydriver_controller.go:583-647 | the same for the whole loop |
| ScheduleMerge.MergeIdempotent | controllers/dataprotection/backuppolicydriver_controller.go:525-655 | merging the cluster's backup settings twice is merging them once |
| ScheduleMerge.SyncedCovers | controllers/dataprotection/backuppolicydriver_controller.go:296-325 | after a sync every template schedule has an entry of its name and every entry is named |
| ScheduleMerge.SyncedIs | controllers/dataprotection/backuppolicydriver_controller.go:296-325 | entries stay in front with names filled in; exactly the template schedules whose name no entry has are added |
| ScheduleMerge.SecondRound | controllers/dataprotection/backuppolicydriver_controller.go:296-325 | a second round only fills in names and merges |
| ScheduleMerge.StableAfterTwoRounds | controllers/dataprotection/backuppolicydriver_controller.go:583-654 | sync and merge reach a fixed point after at most two rounds |
| ScheduleMerge.StableAfterOneRoundIff | controllers/dataprotection/backuppolicydriver_controller.go:648-654 | one round is enough exactly when it appends no entry, or one with an empty method |
| ScheduleMerge.MergeEntrySelects | controllers/dataprotection/backuppolicydriver_controller.go:587-647 | what one merged entry may leave enabled |
| ScheduleMerge.MergeSelects | controllers/dataprotection/backuppolicydriver_controller.go:587-653 | with automatic backup on, enabled full and snapshot entries use the cluster's method, which is enabled; incrementals are compatible with it; besides it at most one continuous entry is enabled with PITR on and none with PITR off |
| ScheduleMerge.PitrIsExact | controllers/dataprotection/backuppolicydriver_controller.go:613-627 | with PITR on the first continuous entry, of the named method if one is named, is enabled and takes the cluster's retention, and the others are disabled; with PITR off all are; without a setting none is touched |
| ScheduleMerge.IncrementalIsExact | controllers/dataprotection/backuppolicydriver_controller.go:628-640 | the first incremental that builds on the cluster's method takes the cluster's setting, cron and retention; others that do stay; those that do not are disabled |
| ScheduleMerge.OthersAreExact | controllers/dataprotection/backuppolicydriver_controller.go:595-646 | full backups and snapshots of another method are disabled exactly when automatic backup is on; other entries are left alone |
| ScheduleMerge.ClusterMethodIsExact | controllers/dataprotection/backuppolicydriver_controller.go:587-654 | entries of the cluster's method take its settings; if there is none, one is added, with the default cron if the cluster has none |

## Left out

- Wiring: command mains, controller set-up, event mappers, informers and schemes.
- Construction of jobs, pods, claims and secrets, template rendering, log collection, gRPC.
- Hashing, JSON, CEL, CUE and semantic versions, which are opaque here.
- The addon, OpsRequest, restore and volume-populator controllers, and the dry-run plan generator.
- Definition and action-set validators and the node-count scaler: they look at one object at a time, keep no state between calls, and take no part in the protocols above.
- Deletion of a backup repository, and repositories spread over several clusters.
- Informer caches that lag behind, in the backup chain: reconciles are atomic.
- Continuous backups that are restarted after a failure.
- Sizes and time ranges that finished actions report for the whole backup.
- Label selectors of ownership rules that the rule table does not use.
- BackupChain.StepKeepsInv: a completion is allowed even when the parent would no longer validate; the source allows fewer.
- BackupGc.IsLatestCompletedBackup: for several backups without any stop time either answer is allowed, because the sort is not stable.
- BackupGc.LatestSurvives: deletions by users are not among the steps; UnmarkedLatestIsCollectedIff says what they change.
- BackupChain.CascadeClosure: excludes reuse of referenced names, under which it is false; StepKeepsClosedIff and CarefulRunKeepsClosed cover all runs.
- BackupChain.ChainsOverRuns: excludes reuse of referenced names, under which it is false, as ReusedNameBreaksChain shows.
- RunningPhase.RunningBackup.HandleRunningPhase: the expiration time and the status patch after the decision are not modelled.
- RevisionHistory.ConfigMap.UpdateAppliedConfigs: covers the annotations, not the labels and data of the configmap.
