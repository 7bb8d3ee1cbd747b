# A Dafny model of the role-based group controllers

RoleBasedGroup is a Kubernetes controller set: a group has roles, each role asks for one workload
(StatefulSet, Deployment or LeaderWorkerSet), roles start in dependency order, StatefulSet roles are
updated by moving a partition under a surge and an unavailability budget, and scaling adapters change
a role's size. This project models the decisions those controllers take and proves what they keep in
every run. Code that updates state is a class or a method with loops, proved against a function; the
theorems are about the functions and about the transition systems built on them.

## Layout

- `RollingUpdate`: the loops and the five cases of the StatefulSet decision, and the stored StatefulSet.
- `PartitionBounds`: one partition computation for arbitrary readiness; int32 arithmetic.
- `RolloutRuns`, `RolloutAvailability`, `RolloutProgress`: whole rollouts interleaved with pods; what every
  run keeps, availability, progress.
- `WorstCase`, `FirstRelease`, `DocumentedBound`: exactly which rollouts keep the availability bound.
- `StuckRollouts`: which rollouts can come to a standstill.
- `RoleChanges`, `ResizedRollouts`, `ResizedAvailability`, `StrategyChanges`: arbitrary user changes; which
  resizes and strategies let a running rollout finish, and which resizes keep the bound.
- `ReplicaStates`: pod and revision lists to replica states.
- `DependencyGraph`, `DependencySort`, `Group`, `RoleOrder`: the dependency sort.
- `GroupPass`, `PassRuns`: the gated role loop, orphan removal, start-up over many passes.
- `GroupStatus`: condition and role-status tables. `ScalingAdapters`, `Scaling`: adapters and the scale write.
- `PodTemplate`, `Sidecars`, `TemplateEquality`, `TemplateLaws`: injection into templates and their comparison.
- `StoredObjects`: the comparison with the stored object, over passes.
- `Counting`, `Strings`, `Sorting`, `Wrappers`: what the others share.

## What the proofs bring out

Where the code and its promise part, the code is modelled as it is and the exact condition is proved.

- The documented availability bound (all but maxUnavailable replicas at all times) holds for a new
  revision exactly when maxUnavailable is positive or the role has one replica. With maxUnavailable 0 one
  replica fewer can serve, because a surge replica is given back early; with one replica the rollout
  never moves at all.
- Taking a rollout back half-way leads to a revision that some pods still run. They count as finished
  although no surge replica made up for them, so surge is given back in the very step that counts it as
  finished, and more than maxUnavailable replicas can be missing. `AvailabilityExactly` has the condition on
  which pods carry the revision, `Covered` is its closed form; `TakenBackFallsShort` is an input.
- With maxUnavailable 0 a rollout can get stuck for good, the surge given back before it was of use: one to
  a new revision when the role grows from one replica with it, one taken back when few enough pods had been
  let go. `GetsStuckExactly` has the condition; `TakenBackGetsStuck` is an input.
- One partition computation can take more serving replicas down than the step allows when unready
  replicas lie just above the step partition; `BudgetKeptExactly` has the condition for every call, also
  while pods let go before are still being replaced.
- Resizing a role during a rollout to the number of replicas its StatefulSet has at that moment stalls
  the rollout for good: the partition is kept, the patch is skipped, the annotation stays old.
- Lowering maxUnavailable to 0 during a rollout that has no surge pods stops it, except where the partition
  can move past a pod on the target revision with two unfinished below: such a move brings surge back
  (`StrategyChangeFinishesExactly`). While something may be unavailable surge can come back with any move of
  the partition (`SurgeAddedUnderWay`).
- The reconcile that takes up a resize gives surge pods back whether they serve or not: shrinking a role whose
  surge pods are all that serves leaves none (`ShrinkLeavesNone`).
- A Deployment or StatefulSet the group takes over keeps the labels of its own selector. If they are not the
  group's, clean-up never lists it, and it stays when its role is renamed or removed.
- A label or annotation that somebody else put on a StatefulSet or its template, unless it is a system key,
  starts the update anew at every pass, and no old pod is ever let go.
- A new LeaderWorkerSet counts as ready at once, so among such roles the dependency gate holds nothing back.
- Removing a role that did not serve can leave the group's Ready condition False although it is ready.
- A scale write succeeds without scaling when another writer removed the role in the meantime.
- One group's pass deletes another group's adapter if their group and role names join to the same name.
- Changing only a volume's source, a mount's path or a variable's source is not seen by the comparison.
- The owner-reference branch of the adapter reconcile is never taken (lines 123-129): an adapter that
  gets there has passed the same owner test at line 103. For the same reason an adapter whose group
  is gone is never marked NotBound.

## Model

| member | source | states |
|---|---|---|
| RollingUpdate.TailCountMeaning | pkg/reconciler/sts_reconciler.go:311-321 | the counted tail is all ready and updated, and the replica in front of it is not |
| RollingUpdate.CalculateContinuousReadyReplicas | pkg/reconciler/sts_reconciler.go:311-321 | the backward loop counts exactly that tail |
| RollingUpdate.CalculateRoleUnreadyReplicas | pkg/reconciler/sts_reconciler.go:208-216 | the loop counts the role ordinals with no finished pod, those without a state included |
| RollingUpdate.RollingUpdatePartition | pkg/reconciler/sts_reconciler.go:275-309 | the three loops compute the specified partition with every index in range, given only that the step partition lies in the array |
| RollingUpdate.RollingUpdateParameters | pkg/reconciler/sts_reconciler.go:120-206 | the five cases and their error paths, tied to the function all run theorems are about |
| RollingUpdate.StatefulSet.Reconcile | pkg/reconciler/sts_reconciler.go:50-118 | the stored object moves as specified, errors and skips leave it, and the annotation never exceeds the replicas |
| PartitionBounds.BoundaryMeaning | pkg/reconciler/sts_reconciler.go:278-308 | the loops find the least boundary at or above the step partition from which up everything is free to replace, or the top if there is none |
| PartitionBounds.BoundaryUnique | pkg/reconciler/sts_reconciler.go:295-306 | that description has one solution |
| PartitionBounds.NothingReadyMeansNoHoldUp | pkg/reconciler/sts_reconciler.go:295-306 | with no replica ready the partition drops straight to the step partition |
| PartitionBounds.ExposureBound | pkg/reconciler/sts_reconciler.go:283-308 | for all readiness: newly exposed serving replicas are at most the step less the unready ones below it, and unready plus exposed is bounded by step plus the unready in the gap |
| PartitionBounds.ExposedByCall | pkg/reconciler/sts_reconciler.go:278-308 | a call exposes just the serving old replicas between where the walk starts and the old partition |
| PartitionBounds.BudgetKeptExactly | pkg/reconciler/sts_reconciler.go:283-308 | for every state and every old partition: the budget "never more down than the step" is kept by a call if and only if it exposes nothing, or the unready replicas in the gap are made up for by finished ones above and old ones let go before |
| PartitionBounds.BudgetExceeded | pkg/reconciler/sts_reconciler.go:283-308 | five replicas, budget two, two down: the call exposes a third |
| PartitionBounds.WantReplicasWidth | pkg/reconciler/sts_reconciler.go:140-153 | no overflow in the wanted replicas while twice the role size fits int32 |
| PartitionBounds.StepPartitionWidth | pkg/reconciler/sts_reconciler.go:201-202 | although the step may wrap when cut to int32, the step partition is right if and only if roleReplicas - maxUnavailable - tail fits |
| PartitionBounds.WalkStartWidth | pkg/reconciler/sts_reconciler.go:281-289 | step partition plus unready replicas below it stay within twice the role size, so their sum does not wrap |
| RolloutRuns.ScaledRounding | pkg/reconciler/sts_reconciler.go:627-631 | percentages: the surge is the least, the unavailability the greatest integer on its side of the share |
| RolloutRuns.ValidationExactly | pkg/reconciler/sts_reconciler.go:616-640 | no strategy means one at a time; refused are exactly the strategies that allow no step |
| RollingUpdate.PlansAreValid | pkg/reconciler/sts_reconciler.go:132-139 | a role that passes validation lets something move with a surge within its size, and every such plan is a role's |
| RollingUpdate.PlanRounding | pkg/reconciler/sts_reconciler.go:132-139 | the numbers of a role's plan: integers as they are, a percentage of the replicas rounded down for what may be unavailable and up for the surge, the surge at most the replicas |
| RollingUpdate.PlanRefusedExactly | pkg/reconciler/sts_reconciler.go:616-640 | a strategy is refused if and only if a value is malformed or both come to nothing |
| RollingUpdate.QuarterOfFive | pkg/reconciler/sts_reconciler.go:196-196 | a quarter of five replicas may be unavailable: one |
| RollingUpdate.ParametersPlanned | pkg/reconciler/sts_reconciler.go:54-59 | after validation the decision meets no scaling error: it is the one for the role's plan |
| RolloutRuns.InvAtStart | pkg/reconciler/sts_reconciler.go:155-162 | a template change at any moment, in the middle of another rollout, together with a resize, to a new revision or back to one some pods carry, starts in the invariant |
| RolloutRuns.ReconcileKeepsInv | pkg/reconciler/sts_reconciler.go:142-205 | every reconcile keeps the invariant linking partition, finished pods and surge |
| RolloutRuns.PodStepKeepsInv | pkg/reconciler/sts_reconciler.go:142-205 | so does everything the pods do |
| RolloutAvailability.Availability | pkg/reconciler/sts_reconciler.go:142-205 | in every state of every interleaving after a change to a new revision, whatever the state before: serving pods at least replicas - max(1, maxUnavailable), or as many as there were, less those down at the start; the same after a change back to an old revision if it is covered; replicas within the role size and the surge |
| RolloutAvailability.NewRevisionCovered | pkg/reconciler/sts_reconciler.go:155-162 | a change to a revision no pod carries is covered |
| RolloutProgress.QuiescentProgressExactly | pkg/reconciler/sts_reconciler.go:275-309 | for arbitrary readiness and revisions below the partition, exactly when a reconcile at a quiescent state lowers it |
| RolloutProgress.SettledLowersExactly | pkg/reconciler/sts_reconciler.go:275-309 | with every pod serving and those from the partition on finished, a reconcile lowers the partition if and only if something may be unavailable, surge is left, or the next pod is on the target revision |
| RolloutProgress.SettledProgress | pkg/reconciler/sts_reconciler.go:193-205 | a reconcile at such a state lowers the measure (partition, then surge) and leaves the rollout able to move, unless it is finished or had neither step nor surge left |
| StuckRollouts.RoundsBounded | pkg/reconciler/sts_reconciler.go:142-205 | from any state before, to any revision: unless the rollout can stick no run has more such reconciles before it is finished than replicas it began with, plus one |
| RolloutProgress.SoloNeverMoves | pkg/reconciler/sts_reconciler.go:143-150 | one old replica and maxUnavailable 0: the partition stays 1 in every run |
| RolloutProgress.CanFinishExactly | pkg/reconciler/sts_reconciler.go:142-205 | from any state before, to any revision, a rollout can finish if and only if it is not that case |
| StuckRollouts.GetsStuckExactly | pkg/reconciler/sts_reconciler.go:142-205 | to any revision: some run gets stuck for good if and only if maxUnavailable is 0, some replica is old, and at most one is among the lowest max(2, replicas + 1 - surge) |
| StuckRollouts.CannotGetStuck | pkg/reconciler/sts_reconciler.go:142-205 | the only-if half also when surge pods were finished from the start |
| StuckRollouts.NewRevisionGetsStuckExactly | pkg/reconciler/sts_reconciler.go:142-205 | to a new revision that is: maxUnavailable 0 and one replica of the role there to begin with |
| StuckRollouts.TakenBackGetsStuckExactly | pkg/reconciler/sts_reconciler.go:142-205 | a settled rollout taken back can get stuck if and only if maxUnavailable is 0 and the pods let go were at least one, at most the surge and, but for a single replica, not all |
| StuckRollouts.HalfWayReached | pkg/reconciler/sts_reconciler.go:142-205 | three serving replicas, maxSurge 1, maxUnavailable 0: a rollout reaches the half-way state of the next row |
| StuckRollouts.TakenBackGetsStuck | pkg/reconciler/sts_reconciler.go:142-205 | taken back with one of three replaced it can get stuck |
| StuckRollouts.StuckForever | pkg/reconciler/sts_reconciler.go:94-97 | at a stuck state no reconcile and no pod changes anything |
| FirstRelease.AvailabilityExactly | pkg/reconciler/sts_reconciler.go:142-205 | to any revision and whatever surge pods were there, all role replicas serving before: no run falls below all but max(1, maxUnavailable) if and only if enough serve after the first reconcile, wherever among the unfinished surge that stops its count |
| FirstRelease.FirstReconcileReleases | pkg/reconciler/sts_reconciler.go:142-205 | the first reconcile that changes anything leaves what is needed |
| FirstRelease.ReconcileKeepsReleased | pkg/reconciler/sts_reconciler.go:142-205 | from then on surge is given back only as replicas finish |
| DocumentedBound.CoveredExactly | pkg/reconciler/sts_reconciler.go:142-205 | the closed form, with no surge pod finished on the target revision at the start: of the last pods let go by the early release enough were on that revision |
| DocumentedBound.FallsBelow | pkg/reconciler/sts_reconciler.go:143-153 | with maxUnavailable 0 and an old pod left, some run has one serving replica too few: the reconcile that lets the last old pods go gives a surge replica back |
| DocumentedBound.DocumentedBoundExactly | api/workloads/v1alpha1/rolebasedgroup_types.go:79-88 | to any revision, whatever surge pods were there: no run falls below replicas - maxUnavailable if and only if enough serve after the first reconcile (maxUnavailable positive), or there is one replica or nothing old (maxUnavailable 0) |
| DocumentedBound.NewRevisionBoundExactly | api/workloads/v1alpha1/rolebasedgroup_types.go:79-88 | to a new revision: if and only if maxUnavailable is positive or there is one replica |
| DocumentedBound.TakenBackAvailableExactly | pkg/reconciler/sts_reconciler.go:142-205 | a settled rollout taken back keeps the bound if and only if no more were let go than may be missing, or so many that no surge is given back for the rest |
| DocumentedBound.HalfWayReached | pkg/reconciler/sts_reconciler.go:142-205 | three serving replicas, maxSurge 2, maxUnavailable 1: a rollout reaches the half-way state of the next row |
| DocumentedBound.TakenBackFallsShort | pkg/reconciler/sts_reconciler.go:142-205 | taken back with two of three replaced, one can be left serving |
| RoleChanges.EveryRunConsistent | pkg/reconciler/sts_reconciler.go:94-110 | over any user changes the annotation never exceeds the replicas, nor the replicas twice the annotation |
| RoleChanges.WantReplicasMonotone | pkg/reconciler/sts_reconciler.go:143-153 | wanted replicas grow with the unready ones, within the role size and the surge |
| RoleChanges.DecisionBounds | pkg/reconciler/sts_reconciler.go:120-206 | bounds of every decision; the partition rises only with a new template |
| RoleChanges.DecisionIsWanted | pkg/reconciler/sts_reconciler.go:140-153 | every decided size is what some number of unfinished role replicas asks for |
| RoleChanges.ReconcileFailsExactly | pkg/reconciler/sts_reconciler.go:50-206 | exactly when a reconcile fails and with which error: validation, then the pods, then the annotation |
| RoleChanges.CreatedFinished | pkg/reconciler/sts_reconciler.go:124-129 | a new StatefulSet starts with the role's size and no partition |
| RoleChanges.FinishedIsFixpoint | pkg/reconciler/sts_reconciler.go:164-171 | a finished rollout is left alone whatever the pods do |
| RoleChanges.GrowthDirectExactly | pkg/reconciler/sts_reconciler.go:184-191 | growing a role goes straight to the new size if and only if there is no surge or one replica is added |
| RoleChanges.StalledExactly | pkg/reconciler/sts_reconciler.go:94-97 | a rollout is stalled whatever its pods do if and only if the role was resized to the StatefulSet's current replicas |
| RoleChanges.ResizeToBurstStalls | pkg/reconciler/sts_reconciler.go:184-191 | every rollout with a surge can be stalled so right after its start |
| RoleChanges.SettledFixpointExactly | pkg/reconciler/sts_reconciler.go:94-97 | exactly which settled states a reconcile leaves unchanged |
| ResizedRollouts.ResizeFinishesExactly | pkg/reconciler/sts_reconciler.go:179-191 | over all runs: a rollout can still finish after its role was resized if and only if the new size is not the replicas it has at that moment and, with maxUnavailable 0, some surge or nothing old below the partition is left |
| ResizedRollouts.NewRevisionUntangled | pkg/reconciler/sts_reconciler.go:179-191 | the case that row leaves out does not arise in a rollout to a new revision |
| ResizedAvailability.ResizedAvailableExactly | pkg/reconciler/sts_reconciler.go:179-191 | with the kept pods old and serving: from the reconcile that takes a resize up the new bound holds in every run if and only if the kept pods and the finished ones not given back are enough at once |
| ResizedAvailability.ShrinkLeavesNone | pkg/reconciler/sts_reconciler.go:179-191 | three replicas down, two surge pods serving, shrunk to two: none is left |
| StrategyChanges.StrategyChangeFinishesExactly | pkg/reconciler/sts_reconciler.go:193-205 | a running rollout can finish under another strategy if and only if something may be unavailable, surge is there, nothing old is below the partition, or the next pod is on the target revision and two below it are unfinished |
| StrategyChanges.SurgeAddedUnderWay | pkg/reconciler/sts_reconciler.go:193-205 | a rollout begun without surge gets two surge pods in its middle |
| ResizedRollouts.TakenUp | pkg/reconciler/sts_reconciler.go:94-110 | the first reconcile after the resize takes it up unless it is not noticed at all |
| ReplicaStates.NominatedNameInjective | pkg/reconciler/sts_reconciler.go:255-255 | a pod name stands for one ordinal |
| ReplicaStates.DecimalReadsBack | pkg/reconciler/sts_reconciler.go:255-255 | ordinals are written in decimal without leading zeros |
| ReplicaStates.GetHighestRevision | pkg/utils/revision_utils.go:33-48 | the loop finds the specified revision |
| ReplicaStates.HighestMeaning | pkg/utils/revision_utils.go:33-48 | it is the greatest non-negative one, the last of equals, and none if all are negative |
| ReplicaStates.GetReplicaStates | pkg/reconciler/sts_reconciler.go:223-273 | the array filled in place holds the specified state per ordinal; list failures and a missing revision are errors, and a negative pod index ends the reconcile by a panic |
| ReplicaStates.ListOrderIrrelevant | pkg/reconciler/sts_reconciler.go:234-243 | with distinct indices the order of the pod list makes no difference |
| ReplicaStates.StateMeansPod | pkg/reconciler/sts_reconciler.go:254-271 | ready and updated are said of an ordinal if and only if the pod of its index and name is |
| ReplicaStates.ObservedExactly | pkg/reconciler/sts_reconciler.go:234-271 | from lists to states, written out: ready is the pod of that index and name that runs and is ready, updated the one that carries the name of the revision no other exceeds, the last of equals |
| ReplicaStates.ObservationFailsExactly | pkg/reconciler/sts_reconciler.go:230-252 | reading fails if and only if a list is missing, no revision is non-negative or a pod index is negative |
| ReplicaStates.OldPodNotUpdated | pkg/reconciler/sts_reconciler.go:245-269 | a ready pod on the older of two revisions is not updated |
| ReplicaStates.ReconcileFromPods | pkg/reconciler/sts_reconciler.go:50-118 | the reconcile from the listed pods and revisions to the stored StatefulSet |
| DependencySort.PathClosesCycle | pkg/dependency/dependency.go:116-121 | meeting a role of the current path closes a real cycle |
| DependencySort.VisitMeaning | pkg/dependency/dependency.go:114-143 | a visit keeps path, temp set and order in step; its error means a cycle, its success completes the role |
| DependencySort.FailsExactlyOnCycle | pkg/dependency/dependency.go:97-155 | the sort fails if and only if the graph has a cycle |
| DependencySort.OrderIsTopological | pkg/dependency/dependency.go:130-152 | no duplicates, every key, nothing else if dependencies are known, and all transitive dependencies first |
| DependencySort.SortedKeysUnique | pkg/dependency/dependency.go:100-105 | map iteration order has no influence |
| DependencySort.Sorter.Visit | pkg/dependency/dependency.go:114-143 | the recursive visit on mutable state is the specified search, and terminates |
| DependencySort.DependencyOrder | pkg/dependency/dependency.go:97-155 | the whole sort, from keys in any order, yields the outcome for the sorted keys |
| DependencyGraph.TransitiveFirst | pkg/dependency/dependency.go:130-141 | an order that respects direct dependencies respects transitive ones |
| DependencyGraph.RespectfulMeansAcyclic | pkg/dependency/dependency.go:116-121 | such an order of all keys rules out cycles |
| Group.WorkloadNameInjective | api/workloads/v1alpha1/helper.go:35-37 | within a group different roles have different workload names |
| RoleOrder.SortRoles | pkg/dependency/dependency.go:27-71 | fails exactly on an unknown dependency or a cycle, else returns each name once in a respectful order |
| RoleOrder.SortedIsPermutation | pkg/dependency/dependency.go:60-69 | with unique names each role occurs exactly once, behind every dependency it declares |
| GroupPass.GateMeaning | pkg/dependency/dependency.go:73-94 | the gate opens if and only if every dependency exists and is ready |
| GroupPass.Cluster.CheckDependencyReady | pkg/dependency/dependency.go:73-94 | the loop decides the specified gate |
| GroupPass.Cluster.ReconcileRoles | internal/controller/workloads/rolebasedgroup_controller.go:128-179 | the gated role loop changes the cluster as specified and stops where it should; a StatefulSet gets the size its unfinished replicas ask for, and what is taken over the labels of its own selector |
| GroupPass.SizeDecidedWithin | pkg/reconciler/sts_reconciler.go:140-153 | between the role size and its surge |
| GroupPass.Cluster.CleanupOrphanedWorkloads | pkg/reconciler/sts_reconciler.go:470-502 | deletes exactly the workloads of the kind that carry the group's label, the group controls and no role wants, as far as listing and deleting succeed, and says whether they did |
| GroupPass.Cluster.Reconcile | internal/controller/workloads/rolebasedgroup_controller.go:128-222 | roles first, then the status write, orphans only after both; any failure, that of the adapter clean-up included, fails the pass |
| PassRuns.GateNeverFails | internal/controller/workloads/rolebasedgroup_controller.go:131-146 | whatever the cluster held, the dependency check in a pass never meets a missing workload |
| PassRuns.PassKeepsClosed | internal/controller/workloads/rolebasedgroup_controller.go:131-198 | every pass, however it ends, keeps the existing workloads closed under dependencies |
| PassRuns.PassEndsExactly | internal/controller/workloads/rolebasedgroup_controller.go:131-198 | how a pass ends, from what it starts from: at the first role that does not go through, to be repeated if a dependency does not serve and failing otherwise |
| PassRuns.StoppedPassDeletesNothing | internal/controller/workloads/rolebasedgroup_controller.go:143-198 | a pass stopped by a failing role, an unready dependency or the status write deletes nothing |
| PassRuns.KindOfReconciler | pkg/reconciler/workload_reconciler.go:23-34 | the workload type a reconciler is chosen by has the kind clean-up looks for |
| PassRuns.ReconcilerForExactly | pkg/reconciler/workload_reconciler.go:23-34 | the three supported workload types by API version and kind |
| PassRuns.CompletedPassConverges | internal/controller/workloads/rolebasedgroup_controller.go:131-222 | after a completed pass each role has its workload, unless found up to date the group's, within the role size and surge and labelled as its selector allows; any other the group still controls lacks the group's label |
| PassRuns.SizeAsReconciled | pkg/reconciler/sts_reconciler.go:89-110 | the size an existing StatefulSet is given in a pass is the one its reconcile stores |
| PassRuns.OwnedLeftExactly | pkg/reconciler/sts_reconciler.go:470-502 | what the group controls and no role wants outlives a completed pass if and only if it lacks the group's label |
| PassRuns.StrayMadeExactly | pkg/reconciler/deploy_reconciler.go:82-102 | exactly when a completed pass leaves a role's workload controlled without the group's label |
| PassRuns.OwnSelectorsConverge | internal/controller/workloads/rolebasedgroup_controller.go:131-222 | a group that only met its own selectors keeps to them in every pass, and after a completed one controls no workload but its roles' |
| PassRuns.AdoptedOutlivesRole | pkg/reconciler/deploy_reconciler.go:82-102 | an unowned, unlabelled Deployment in a role's place is taken over, and no pass removes it once the role is gone |
| PassRuns.AdoptedOutlivesRename | pkg/reconciler/deploy_reconciler.go:82-102 | for instance a role "a" renamed "b" |
| PassRuns.DistinctKeys | api/workloads/v1alpha1/helper.go:35-37 | one workload belongs to one role |
| PassRuns.ForeignWorkloadsUntouched | pkg/reconciler/sts_reconciler.go:482-499 | what no role asks for is left as it was by every pass, however it ends, unless the group controls it and it carries the group's label |
| PassRuns.OtherOwnersUntouched | pkg/reconciler/sts_reconciler.go:470-502 | no pass, however it ends, changes a workload another owner controls, and none that would have to take one over completes |
| PassRuns.PassCreatesNext | internal/controller/workloads/rolebasedgroup_controller.go:131-179 | one pass over a settled cluster creates at least the next role of the order |
| PassRuns.StartUpBound | internal/controller/workloads/rolebasedgroup_controller.go:131-179 | if what exists becomes ready between passes, n roles exist after at most n passes |
| PassRuns.FreshReadyExactly | pkg/reconciler/lws_reconciler.go:102-108 | a workload just created counts as ready if and only if it is a LeaderWorkerSet or wants no replicas |
| PassRuns.LeaderWorkerSetsUngated | pkg/reconciler/lws_reconciler.go:102-108 | so one pass creates all LeaderWorkerSet roles whatever they depend on |
| GroupStatus.StatusTable.SetCondition | internal/controller/workloads/pod_controller.go:128-141 | the loop updates every entry of the type or appends |
| GroupStatus.WithConditionMeaning | internal/controller/workloads/pod_controller.go:128-141 | types stay unique, the type gets the status, an entry of that status already is kept with its reason, other types keep theirs |
| GroupStatus.StatusTable.UpdateStatus | internal/controller/workloads/rolebasedgroup_controller.go:224-279 | condition and role statuses are rewritten in place as specified |
| GroupStatus.StatusTable.ConstructRoleStatus | pkg/reconciler/sts_reconciler.go:448-459 | the observed numbers, and whether they differ from the stored entry |
| GroupStatus.StatusTable.FinishPass | internal/controller/workloads/rolebasedgroup_controller.go:169-187 | the status is written only if some role's numbers are new |
| GroupStatus.WithStatusesMeaning | internal/controller/workloads/rolebasedgroup_controller.go:255-271 | names stay unique, observed roles get what was observed, others keep theirs |
| GroupStatus.WrittenSynced | internal/controller/workloads/rolebasedgroup_controller.go:224-279 | a written status agrees with the observation whatever was stored |
| GroupStatus.FixedRolesAlwaysSynced | internal/controller/workloads/rolebasedgroup_controller.go:169-187 | with a fixed role set the status agrees with the latest observation after every completed pass, skipped writes included |
| GroupStatus.StatusWrittenOut | internal/controller/workloads/rolebasedgroup_controller.go:224-271 | written out: one Ready condition, true if and only if all roles were last seen with as many ready replicas as replicas, with its reason, and one entry per role with the numbers last seen |
| GroupStatus.QuietPassWritesNothing | internal/controller/workloads/rolebasedgroup_controller.go:181-187 | a pass that sees nothing new leaves the whole status as it is |
| GroupStatus.PassSyncedExactly | internal/controller/workloads/rolebasedgroup_controller.go:181-187 | for changing role sets, exactly when it does |
| GroupStatus.RemovalStaleExactly | internal/controller/workloads/rolebasedgroup_controller.go:181-187 | removing roles leaves Ready wrong if and only if the rest serves unchanged and a removed role did not |
| GroupStatus.OtherConditionKeepsSynced | internal/controller/workloads/pod_controller.go:111-116 | another writer's condition does not disturb the agreement |
| ScalingAdapters.AdapterStore.ReconcileScalingAdapter | internal/controller/workloads/rolebasedgroup_controller.go:281-332 | create, delete or keep the role's adapter |
| ScalingAdapters.AdapterStore.CleanupOrphanedScalingAdapters | internal/controller/workloads/rolebasedgroup_controller.go:334-370 | deletes exactly the orphans |
| ScalingAdapters.AdaptersConverge | internal/controller/workloads/rolebasedgroup_controller.go:281-370 | after a pass a role has an adapter if and only if it wants one and no orphan stood in its place |
| ScalingAdapters.AdaptersExactly | internal/controller/workloads/rolebasedgroup_controller.go:281-370 | what stands under each name after a pass: old adapters unchanged, new ones owned by the group, labelled and aimed at their role, orphans gone |
| ScalingAdapters.ForeignAdapterDeletedExactly | internal/controller/workloads/rolebasedgroup_controller.go:284-295 | another owner's adapter is deleted if and only if a role of the same joined name has none |
| ScalingAdapters.AdapterNamesCollide | pkg/scale/scaling_adapter.go:9-11 | two groups and roles whose names join to the same name |
| Scaling.SetReplicasChanges | internal/controller/workloads/rolebasedgroupscalingadapter_controller.go:274-280 | only the first role of the name changes, and only its replicas |
| Scaling.SetRoleReplicas | internal/controller/workloads/rolebasedgroupscalingadapter_controller.go:274-280 | the loop does that |
| Scaling.UpdateRoleReplicas | internal/controller/workloads/rolebasedgroupscalingadapter_controller.go:272-291 | the conflict-retry loop against the server is the specified one under any interleaving |
| Scaling.NoLostUpdate | internal/controller/workloads/rolebasedgroupscalingadapter_controller.go:272-291 | success adds one version, equal to the one directly before it but for the target role's replicas |
| Scaling.RetrySucceedsExactly | internal/controller/workloads/rolebasedgroupscalingadapter_controller.go:272-291 | the call succeeds if and only if some round comes to pass in which nobody writes between the read and an update that does not fail |
| Scaling.FailureWritesNothing | internal/controller/workloads/rolebasedgroupscalingadapter_controller.go:272-291 | after a failed call the history is the other writers' writes, in their order and nothing else |
| Scaling.ScaledExactly | internal/controller/workloads/rolebasedgroupscalingadapter_controller.go:274-280 | success scales if and only if the overwritten version still had the role |
| Scaling.GroupChangesExactly | internal/controller/workloads/rolebasedgroupscalingadapter_controller.go:131-175 | binding never changes the group; exactly when a reconcile does |
| Scaling.UnboundExactly | internal/controller/workloads/rolebasedgroupscalingadapter_controller.go:93-121 | the adapter is marked unbound if and only if its own group is there without the role |
| Scaling.UnmanagedUntouched | internal/controller/workloads/rolebasedgroupscalingadapter_controller.go:76-106 | an adapter being deleted, or not owned by a group that can be read, is left alone |
| Scaling.BoundExactly | internal/controller/workloads/rolebasedgroupscalingadapter_controller.go:131-158 | binding, call by call: what each failing call leaves undone |
| Scaling.ScaleReportedExactly | internal/controller/workloads/rolebasedgroupscalingadapter_controller.go:160-181 | scaling, call by call: the size is reported if and only if the group and then the status were written |
| Scaling.StoredAdapter.Reconcile | internal/controller/workloads/rolebasedgroupscalingadapter_controller.go:68-190 | the stored adapter and the group change as specified, scaling through the retry loop among other writers |
| Scaling.UndisturbedStep | internal/controller/workloads/rolebasedgroupscalingadapter_controller.go:131-181 | with no other writer that is the undisturbed reconcile the laws above and below are about |
| Scaling.ReportsTheRoleSize | internal/controller/workloads/rolebasedgroupscalingadapter_controller.go:131-181 | binding and scaling leave a bound adapter asking for and reporting the size its role has; binding takes it from the role, scaling gives it |
| Scaling.AdapterConverges | internal/controller/workloads/rolebasedgroupscalingadapter_controller.go:131-181 | one undisturbed reconcile brings adapter and role into step, and the next changes nothing |
| PodTemplate.BuildEnv | pkg/discovery/env_builder.go:14-29 | the role's variables, sorted and without repetitions, whatever the map order |
| PodTemplate.RoleVarsIgnoreSize | pkg/discovery/env_builder.go:31-60 | no injected variable depends on the role size |
| PodTemplate.Template.InjectEnv | pkg/discovery/injector.go:141-171 | each container's variables become the canonical list of the merged map, nothing else changes |
| PodTemplate.InjectionOverrides | pkg/discovery/injector.go:152-158 | a variable is in the result if and only if it is injected, or existed last and is not overridden |
| PodTemplate.InjectedExactly | pkg/discovery/injector.go:152-168 | written out: the last injected variable of a name, or if none is injected the last one there was |
| PodTemplate.CanonicalUnique | pkg/discovery/injector.go:159-168 | the canonical list is determined by the map |
| PodTemplate.InjectionIdempotent | pkg/discovery/injector.go:141-171 | injecting again changes nothing |
| PodTemplate.Template.InjectConfig | pkg/discovery/injector.go:98-138 | the volume and each container's mount are added unless present |
| PodTemplate.ConfigIdempotent | pkg/discovery/injector.go:98-138 | adding them again changes nothing |
| PodTemplate.ConfigAdded | pkg/discovery/injector.go:98-138 | the volume and mount are there afterwards, one entry added where it was missing |
| TemplateEquality.MapsEqual | pkg/reconciler/pod_reconciler.go:295-318 | size and one-sided lookup decide map equality |
| TemplateEquality.ObjectMetaEqual | pkg/reconciler/pod_reconciler.go:106-122 | equality of the filtered labels and annotations |
| TemplateEquality.NamesEqual | pkg/reconciler/pod_reconciler.go:226-280 | volumes and mounts are equal if and only if their names are, repetitions counted |
| TemplateEquality.EnvVarsEqual | pkg/reconciler/pod_reconciler.go:193-223 | with unique names equal if and only if the filtered name-value pairs are; always the same names |
| TemplateEquality.ContainerEqual | pkg/reconciler/pod_reconciler.go:149-190 | the container relation, decided |
| TemplateEquality.PodSpecEqual | pkg/reconciler/pod_reconciler.go:125-146 | containers match one to one by name |
| TemplateEquality.PodTemplateSpecEqual | pkg/reconciler/pod_reconciler.go:94-104 | on well-formed templates exactly the order-free relation |
| TemplateLaws.SameTemplateExactly | pkg/reconciler/pod_reconciler.go:94-318 | two templates compare equal if and only if, written out field by field, labels, annotations, volume names and same-named containers agree |
| TemplateLaws.SameContainerExactly | pkg/reconciler/pod_reconciler.go:149-190 | the same for containers |
| TemplateLaws.ContainerChangeSeen | pkg/reconciler/pod_reconciler.go:149-190 | a change of image, command, arguments, ports or resources of one container compares different |
| TemplateLaws.EnvChangeSeen | pkg/reconciler/pod_reconciler.go:193-223 | so does a variable that comes, goes or changes its value |
| TemplateLaws.MountChangeSeen | pkg/reconciler/pod_reconciler.go:255-280 | so does a mount of another name |
| TemplateLaws.TemplateChangeSeen | pkg/reconciler/pod_reconciler.go:94-122 | so do a volume of another name and a label or annotation that is not a system one |
| TemplateLaws.SameTemplateReflexive | pkg/reconciler/pod_reconciler.go:94-146 | a template with distinct container names equals itself |
| TemplateLaws.SameTemplateSymmetric | pkg/reconciler/pod_reconciler.go:94-146 | the comparison is symmetric |
| TemplateLaws.TransitiveExactly | pkg/reconciler/pod_reconciler.go:174-176 | two comparisons carry over if and only if the outer pull policies agree |
| TemplateLaws.NotTransitive | pkg/reconciler/pod_reconciler.go:174-176 | three containers that show it |
| TemplateLaws.OrderIrrelevant | pkg/reconciler/pod_reconciler.go:125-290 | reordering containers, variables, mounts and volumes changes no comparison |
| TemplateLaws.SystemEntriesIgnored | pkg/utils/utils.go:91-132 | system labels, annotations and variables may come and go |
| TemplateLaws.RoleSizeNotCompared | pkg/utils/utils.go:91-105 | a resize alone never looks like a new template |
| TemplateLaws.SourceChangesUnseen | pkg/reconciler/pod_reconciler.go:213-279 | changes of variable sources and mount paths only compare equal |
| Sidecars.InjectSidecar | pkg/discovery/sidecar_builder.go:50-129 | the loops add profile containers and volumes that are missing and the role's overrides, in order, and fail on a missing profile |
| Sidecars.SidecarsExtend | pkg/discovery/sidecar_builder.go:50-129 | own containers and volumes stay in place, changed only by appended variables and arguments if a profile has their name; names stay unique |
| Sidecars.OneRuntime | pkg/discovery/sidecar_builder.go:50-129 | one runtime written out: missing containers and volumes come behind the own, and each container of the profile has the overrides' variables and arguments appended in order |
| TemplateLaws.ConstructPodTemplate | pkg/reconciler/pod_reconciler.go:50-70 | configuration, sidecars and variables injected in their order; it fails exactly on a missing profile |
| TemplateLaws.ConstructedVars | pkg/discovery/env_builder.go:31-60 | every container of a constructed template, sidecars included, is told group, role and, with ordinals, its index, whatever it said itself |
| TemplateLaws.ConstructionStable | pkg/reconciler/pod_reconciler.go:50-70 | two constructions from one role are equal and compare equal, so they start no update |
| StoredObjects.SemanticallyEqualStatefulSet | pkg/reconciler/sts_reconciler.go:562-594 | decides the relation on metadata, selector, service name and template; an absent object is never up to date |
| StoredObjects.DifferenceSeen | pkg/reconciler/sts_reconciler.go:562-594 | another selector, service name or template, or a differing user label or annotation, is an update |
| StoredObjects.PatchedUpToDateExactly | pkg/reconciler/sts_reconciler.go:562-594 | after a patch the stored object is found up to date if and only if every key others put on it or its template is a system key |
| StoredObjects.UpdateStartsOnce | pkg/reconciler/sts_reconciler.go:76-110 | while that is so passes over an unchanged role start no further update: the partition only sinks |
| StoredObjects.ForeignKeyHoldsRollout | pkg/reconciler/sts_reconciler.go:155-162 | while it is not every pass starts the update anew and from the second on the partition is the role size |

## Left out

- The Kubernetes client, caches, server-side apply, events, logging and conversion: an API object is a value in a store with atomic reads and writes.
- The time between a template patch and its new ControllerRevision: the update revision is taken to advance with the patch.
- Pod failures during a rollout: in the run theorems a ready pod goes down only by being replaced; arbitrary readiness is covered for a single partition computation, for quiescent progress, and at the start of a rollout.
- Surge pods leave and arrive with the patch: the StatefulSet controller's own pace of deleting pods above the replicas would only add available pods.
- RolloutAvailability.Availability: bounds the shortfall by max(1, maxUnavailable), not maxUnavailable, and for a change back to a revision pods still carry asks for Covered, because otherwise both are false; DocumentedBound has the exact conditions.
- StuckRollouts.GetsStuckExactly: takes no surge pod to be finished on the target revision when the rollout begins, because with such pods what the surge can still do depends on where each of them stands over several reconciles. That takes two more template changes during one rollout, or one taken back together with a shrink. CannotGetStuck and the availability theorems do without.
- FirstRelease.AvailabilityExactly: takes all role replicas to serve before, because otherwise some are missing whatever the reconciler does; Availability does without.
- ResizedRollouts.ResizeFinishesExactly: leaves out the role that shrinks below the partition with just one replica old and an old surge pod kept; NewRevisionUntangled says when that cannot be.
- ResizedAvailability.ResizedAvailableExactly: takes the pods below the partition to be old and to serve, as in a rollout to a new revision begun with all replicas serving.
- The revision a StatefulSet's controller gives to a pod it creates below the partition: each ordinal's is taken as given with the state before the rollout.
- Negative maxSurge or maxUnavailable: both are natural numbers, as the API means them.
- ReplicaStates.GetReplicaStates: readiness of a pod is one flag, its phase and condition list are not modelled.
- TemplateEquality.EnvVarsEqual: decides the relation for unique variable names only, because the sort is unstable and repeated names leave the code's own outcome open.
- Scaling.StoredAdapter.Reconcile: leaves out roles without a replica count, which the API defaults to one.
- PassRuns.StartUpBound: takes every pass free of API errors and no rollout in progress, so that a role's workload keeps the role's size.
- An empty list and a missing list of commands, arguments or ports are the same value here, while the deep comparison tells them apart.
- Headless services, LeaderWorkerSet strategic-merge patches, config text, and init containers, which are never compared.
- Defaults the API server fills into a stored template other than the pull policy.
- GroupPass.Cluster.CleanupOrphanedWorkloads: a deletion that comes after one that failed is one of the failing ones, because the order of the list is open.
- Role order after renamed duplicates: role names are required unique where a theorem needs it, as the API means them.
- PodGroups, workload recreation on pod restart, RoleBasedGroupSet counting, CRD watches and the command line: input and output or easy members.
