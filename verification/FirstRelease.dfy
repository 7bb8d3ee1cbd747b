/**
 What the first reconcile of a rollout gives away. Replicas that are on the target revision from the
 start count as finished although no surge replica made up for them, so the first reconcile may give
 surge replicas back on their account in the very step that counts these as finished. After it surge
 is given back only as replicas finish. So that step decides which rollouts keep their bound.
 */
module FirstRelease {
  import opened Counting
  import opened RollingUpdate
  import opened PartitionBounds
  import opened RolloutRuns
  import opened RolloutAvailability
  import opened RolloutProgress
  import opened WorstCase

  // ---------- The condition ----------

  /** The size the first reconcile asks for, on account of the replicas finished from the start. */
  function FirstSize(plan: Plan, init: seq<ReplicaState>): nat
    requires |init| <= plan.replicas
  {
    WantReplicas(plan.replicas, plan.surge, NonZeroValue(plan.replicas - CarriedFrom(init, 0)))
  }

  /** The partition if the first reconcile finds finished just the surge above ordinal m. */
  function FirstStep(plan: Plan, init: seq<ReplicaState>, size: nat, m: nat): (p: nat)
    requires m < size
    ensures p <= |init|
  {
    Min(|init|, NonZeroValue(plan.replicas - plan.unavailable - (size - 1 - m)))
  }

  /**
   What serves for sure once the first reconcile has found the surge above m finished and m not: the
   replicas below the partition, those let go that were on the target revision, and of the surge it
   leaves what was finished from the start below m and all above.
   */
  function ServingAfter(plan: Plan, init: seq<ReplicaState>, pods: seq<ReplicaState>, m: nat): nat
    requires |init| <= plan.replicas <= m < |pods| && FirstSize(plan, init) <= |pods|
  {
    var p := FirstStep(plan, init, |pods|, m);
    p + CarriedFrom(init, p) + CountIf(Done, pods[plan.replicas..Min(m, FirstSize(plan, init))])
    + NonZeroValue(FirstSize(plan, init) - 1 - m)
  }

  lemma SizeAtMostPeak(plan: Plan, unready: nat)
    requires 1 <= plan.replicas && plan.surge <= plan.replicas && unready <= plan.replicas
    ensures plan.replicas <= WantReplicas(plan.replicas, plan.surge, unready) <= Peak(plan)
  {
  }

  /** Whichever unfinished surge replica the first reconcile stops its count at, enough serve. */
  predicate Secured(plan: Plan, before: Rollout)
    requires ValidPlan(plan) && 1 <= plan.replicas
  {
    var r, init := Start(plan, before), Initial(plan, before);
    StartMeaning(plan, before);
    SizeAtMostPeak(plan, NonZeroValue(plan.replicas - CarriedFrom(init, 0)));
    forall m :: plan.replicas <= m < |r.pods| && !Done(r.pods[m]) ==>
      ServingAfter(plan, init, r.pods, m) >= Promised(plan, |init|)
  }

  // ---------- The beginning ----------

  lemma StartServing(plan: Plan, before: Rollout)
    requires ValidPlan(plan) && DownBefore(plan, before) == 0
    ensures forall i :: 0 <= i < FirstPartition(plan, before) ==> before.pods[i].ready
  {
    var init := Initial(plan, before);
    CountNone(NotReady, init);
    forall i | 0 <= i < |init| ensures before.pods[i].ready {
      assert init[i] in init;
    }
  }

  /** Finished at the start are the replicas that were on the target revision. */
  lemma StartDone(plan: Plan, before: Rollout)
    requires ValidPlan(plan) && 1 <= plan.replicas && DownBefore(plan, before) == 0
    ensures var r, init := Start(plan, before), Initial(plan, before);
            && plan.replicas <= |r.pods| && BaseDone(plan, r) == CarriedFrom(init, 0)
            && forall k :: 0 <= k <= |init| ==> CountIf(Done, r.pods[k..plan.replicas]) == CarriedFrom(init, k)
  {
    var r, init, n := Start(plan, before), Initial(plan, before), plan.replicas;
    StartMeaning(plan, before);
    StartServing(plan, before);
    assert r.pods[..n] == r.pods[0..n];
    forall k | 0 <= k <= |init| ensures CountIf(Done, r.pods[k..n]) == CarriedFrom(init, k) {
      CarriedDone(r.pods[..n], init, k);
      assert r.pods[..n][k..] == r.pods[k..n];
    }
  }

  lemma CarriedDone(pods: seq<ReplicaState>, init: seq<ReplicaState>, k: nat)
    requires k <= |init| <= |pods| && pods[..|init|] == init
    requires forall i :: 0 <= i < |init| ==> pods[i].ready
    requires forall i :: |init| <= i < |pods| ==> !Done(pods[i])
    ensures CountIf(Done, pods[k..]) == CarriedFrom(init, k)
  {
    CountSuffix(Done, pods, k, |init|);
    assert pods[k..|init|] == init[k..];
    CountNone(Done, pods[|init|..]);
    CountImplies(Done, Updated, init[k..]);
    CountImplies(Updated, Done, init[k..]);
  }

  /** What holds of a rollout that begins with all its role replicas serving. */
  predicate Begins(plan: Plan, init: seq<ReplicaState>, r: Rollout) {
    && r.partition == |init| <= plan.replicas <= |r.pods| == Peak(plan)
    && 1 <= plan.replicas && plan.surge <= plan.replicas
    && (forall i :: 0 <= i < |init| ==> init[i].ready && r.pods[i] == init[i])
    && (forall i :: |init| <= i < plan.replicas ==> !Done(r.pods[i]))
    && BaseDone(plan, r) == CarriedFrom(init, 0)
    && (forall k :: 0 <= k <= |init| ==> CountIf(Done, r.pods[k..plan.replicas]) == CarriedFrom(init, k))
  }

  lemma StartBegins(plan: Plan, before: Rollout)
    requires ValidPlan(plan) && 1 <= plan.replicas && DownBefore(plan, before) == 0
    ensures Begins(plan, Initial(plan, before), Start(plan, before))
  {
    StartMeaning(plan, before);
    StartServing(plan, before);
    StartDone(plan, before);
    var r, init := Start(plan, before), Initial(plan, before);
    assert forall i :: 0 <= i < |init| ==> r.pods[i] == r.pods[..r.partition][i];
  }

  // ---------- Before the first reconcile that changes anything ----------

  /** Below the partition all is as it was; what was finished still is. */
  predicate Untouched(init: seq<ReplicaState>, first: Rollout, r: Rollout) {
    && r.partition == first.partition == |init| <= |r.pods| == |first.pods|
    && (forall i :: 0 <= i < |init| ==> r.pods[i] == init[i])
    && (forall i :: 0 <= i < |r.pods| && Done(first.pods[i]) ==> Done(r.pods[i]))
  }

  // ---------- After it ----------

  function BelowDone(r: Rollout): nat
    requires r.partition <= |r.pods|
  {
    CountIf(Done, r.pods[..r.partition])
  }

  lemma BaseSplit(plan: Plan, r: Rollout)
    requires r.partition <= plan.replicas <= |r.pods|
    ensures BaseDone(plan, r) == BelowDone(r) + AboveDone(plan, r) <= plan.replicas
    ensures BelowDone(r) <= r.partition && SurgeDone(plan, r) <= |r.pods| - plan.replicas
  {
    CountSlice(Done, r.pods, r.partition, plan.replicas);
  }

  /** What serves for sure after the surge the finished replicas have made up for is given back. */
  function Reserve(plan: Plan, r: Rollout): int
    requires r.partition <= plan.replicas <= |r.pods|
  {
    UnfinishedBound(plan, r);
    r.partition + AboveDone(plan, r) + SurgeDone(plan, r)
    - (|r.pods| - WantReplicas(plan.replicas, plan.surge, plan.replicas - BaseDone(plan, r)))
  }

  /** All the surge is finished, and being given back as replicas finish. */
  predicate SurgeFull(plan: Plan, r: Rollout)
    requires plan.replicas <= |r.pods|
  {
    SurgeDone(plan, r) == |r.pods| - plan.replicas && plan.replicas - BaseDone(plan, r) <= plan.surge
  }

  predicate FrontReady(r: Rollout) { r.partition <= |r.pods| && forall i :: 0 <= i < r.partition ==> r.pods[i].ready }

  /** Surge is given back as replicas finish, and what serves without it keeps the bound. */
  predicate Released(plan: Plan, bound: int, r: Rollout) {
    && 1 <= plan.replicas && plan.surge <= plan.replicas
    && r.partition <= plan.replicas <= |r.pods| <= Peak(plan) && FrontReady(r)
    && (UnfinishedBound(plan, r);
        WantReplicas(plan.replicas, plan.surge, plan.replicas - BaseDone(plan, r)) <= |r.pods|)
    && (BaseSplit(plan, r);
        |r.pods| <= WantReplicas(plan.replicas, plan.surge, plan.replicas - BelowDone(r)))
    && (Reserve(plan, r) >= bound || SurgeFull(plan, r))
  }

  lemma ReleasedAvailable(plan: Plan, bound: int, r: Rollout)
    requires Released(plan, bound, r) && bound <= plan.replicas - 1
    ensures Available(r) >= bound
  {
    ServingPods(plan, r);
    CountNone(NotReady, r.pods[..r.partition]);
    BaseSplit(plan, r);
    hide Available, BaseDone, AboveDone, SurgeDone, BelowDone, FrontReady;
  }

  lemma WantSteps(plan: Plan, u1: nat, u2: nat)
    requires u1 <= u2 <= plan.replicas
    ensures 0 <= WantReplicas(plan.replicas, plan.surge, u2) - WantReplicas(plan.replicas, plan.surge, u1) <= u2 - u1
  {
  }

  lemma PodStepKeepsReleased(plan: Plan, bound: int, r: Rollout, next: Rollout)
    requires Released(plan, bound, r) && PodStep(r, next)
    ensures Released(plan, bound, next)
  {
    PodStepCounts(plan, r, next);
    BaseSplit(plan, r);
    BaseSplit(plan, next);
    FrontDoneKept(r, next);
    WantSteps(plan, plan.replicas - BaseDone(plan, next), plan.replicas - BaseDone(plan, r));
    hide BaseDone, AboveDone, SurgeDone, BelowDone, PodStep, FrontReady, WantReplicas;
  }

  /** Below the partition, all being ready, the finished pods stay the same ones. */
  lemma FrontDoneKept(r: Rollout, next: Rollout)
    requires FrontReady(r) && PodStep(r, next)
    ensures FrontReady(next) && BelowDone(next) == BelowDone(r)
  {
    CountPointwise(Done, r.pods[..r.partition], next.pods[..r.partition]);
    CountPointwise(Done, next.pods[..r.partition], r.pods[..r.partition]);
  }

  /** A reconcile that leaves the partition gives surge back that was made up for. */
  lemma ShortenedReleased(plan: Plan, bound: int, r: Rollout, next: Rollout)
    requires Released(plan, bound, r) && next.partition == r.partition
    requires plan.replicas <= |next.pods| <= |r.pods| && next.pods == r.pods[..|next.pods|]
    requires |next.pods| == WantReplicas(plan.replicas, plan.surge, plan.replicas - BaseDone(plan, r))
    ensures Released(plan, bound, next)
  {
    ShrinkCounts(plan, r, next);
    BaseSplit(plan, r);
    BaseSplit(plan, next);
    assert next.pods[..r.partition] == r.pods[..r.partition];
    assert BelowDone(next) == BelowDone(r);
    assert FrontReady(next);
    WantSteps(plan, plan.replicas - BaseDone(plan, r), plan.replicas - BelowDone(r));
    hide BaseDone, AboveDone, SurgeDone, BelowDone, FrontReady, WantReplicas;
  }

  /** A reconcile that lowers the partition gives back no more surge than replicas above it finished. */
  lemma LoweredReleased(plan: Plan, bound: int, r: Rollout, next: Rollout)
    requires Released(plan, bound, r) && next.partition < r.partition && bound <= Promised(plan, plan.replicas)
    requires next.partition >= plan.replicas - plan.unavailable - TailCount(r.pods)
    requires plan.replicas <= |next.pods| <= |r.pods| && next.pods == r.pods[..|next.pods|]
    requires |next.pods| == WantReplicas(plan.replicas, plan.surge, plan.replicas - BaseDone(plan, r))
    ensures Released(plan, bound, next)
  {
    ShrinkCounts(plan, r, next);
    BaseSplit(plan, r);
    BaseSplit(plan, next);
    FrontDoneLowered(plan, r, next);
    WantSteps(plan, plan.replicas - BaseDone(plan, r), plan.replicas - BelowDone(r));
    WantSteps(plan, plan.replicas - BaseDone(plan, r), plan.replicas - BelowDone(next));
    if SurgeDone(plan, next) == |next.pods| - plan.replicas {
      FullSurgeLowered(plan, r, next);
    }
    hide BaseDone, AboveDone, SurgeDone, BelowDone, FrontReady, WantReplicas, TailCount, Peak, SurgeFull;
  }

  lemma FullSurgeLowered(plan: Plan, r: Rollout, next: Rollout)
    requires plan.replicas <= |next.pods| <= |r.pods| <= Peak(plan) && next.pods == r.pods[..|next.pods|]
    requires next.partition <= plan.replicas && next.partition >= plan.replicas - plan.unavailable - TailCount(r.pods)
    requires BaseDone(plan, next) == BaseDone(plan, r) <= plan.replicas
    requires |next.pods| == WantReplicas(plan.replicas, plan.surge, plan.replicas - BaseDone(plan, r))
    requires SurgeDone(plan, next) == |next.pods| - plan.replicas
    ensures Reserve(plan, next) >= plan.replicas - plan.unavailable || SurgeFull(plan, next)
  {
    if plan.replicas - BaseDone(plan, r) > plan.surge {
      assert next.pods == r.pods;
      TailAbove(plan, next);
    }
    hide BaseDone, AboveDone, SurgeDone, TailCount;
  }

  lemma FrontDoneLowered(plan: Plan, r: Rollout, next: Rollout)
    requires next.partition <= r.partition <= plan.replicas <= |next.pods| <= |r.pods|
               && next.pods == r.pods[..|next.pods|]
    requires FrontReady(r)
    ensures FrontReady(next) && BelowDone(next) <= BelowDone(r)
    ensures BelowDone(next) + AboveDone(plan, next) == BelowDone(r) + AboveDone(plan, r)
  {
    assert next.pods[..next.partition] == r.pods[..next.partition];
    assert next.pods[..plan.replicas] == r.pods[..plan.replicas];
    CountSlice(Done, r.pods, next.partition, r.partition);
    BaseSplit(plan, r);
    BaseSplit(plan, next);
  }

  lemma ReconcileKeepsReleased(plan: Plan, bound: int, r: Rollout)
    requires ValidPlan(plan) && Released(plan, bound, r) && bound <= Promised(plan, plan.replicas)
    ensures Released(plan, bound, Reconciled(plan, r))
  {
    var next := Reconciled(plan, r);
    ReconciledMeaning(plan, r);
    RoleUnreadyMeaning(plan, r);
    PartitionFloor(plan, r);
    hide Reconciled, RollingPartition, TailCount, WantReplicas, Released;
    assert next.pods == r.pods[..|next.pods|] by {
      ReleasedSize(plan, bound, r);
    }
    if next.partition < r.partition {
      LoweredReleased(plan, bound, r, next);
    } else if next != r {
      ShortenedReleased(plan, bound, r, next);
    }
  }

  lemma ReleasedSize(plan: Plan, bound: int, r: Rollout)
    requires Released(plan, bound, r)
    ensures plan.replicas <= |r.pods|
    ensures WantReplicas(plan.replicas, plan.surge, plan.replicas - BaseDone(plan, r)) <= |r.pods|
  {
  }

  // ---------- The first reconcile ----------

  /** What the finished surge and the finished pods behind the role replicas there were amount to after the step. */
  lemma SurgeLeft(plan: Plan, first: seq<ReplicaState>, pods: seq<ReplicaState>, m: nat, full: nat, size: nat)
    requires |first| == |pods| && plan.replicas <= m < |pods|
    requires plan.replicas <= size <= full <= |pods|
    requires forall i :: 0 <= i < |pods| && Done(first[i]) ==> Done(pods[i])
    requires forall i :: m < i < |pods| ==> Done(pods[i])
    ensures CountIf(Done, pods[plan.replicas..size]) + full - size
            >= CountIf(Done, first[plan.replicas..Min(m, full)]) + NonZeroValue(full - 1 - m)
  {
    var n, k := plan.replicas, Min(m, full);
    SliceInTwo(Done, pods, n, size, full);
    SliceInTwo(Done, pods, n, k, full);
    CountPointwise(Done, first[n..k], pods[n..k]);
    if m + 1 < full {
      SliceInTwo(Done, pods, m, m + 1, full);
      AllDone(pods[m + 1..full]);
    }
  }

  /** The finished replicas of an untouched state: those finished from the start, and some behind them. */
  lemma UntouchedCounts(plan: Plan, init: seq<ReplicaState>, first: Rollout, r: Rollout, p: nat)
    requires Begins(plan, init, first) && Untouched(init, first, r) && p <= |init|
    ensures CountIf(Done, r.pods[p..plan.replicas]) - CarriedFrom(init, p)
            == BaseDone(plan, r) - CarriedFrom(init, 0) >= 0
  {
    var n, f := plan.replicas, |init|;
    SliceInTwo(Done, r.pods, p, f, n);
    SliceInTwo(Done, first.pods, p, f, n);
    SliceInTwo(Done, r.pods, 0, f, n);
    SliceInTwo(Done, first.pods, 0, f, n);
    assert r.pods[p..f] == first.pods[p..f] && r.pods[0..f] == first.pods[0..f];
    assert r.pods[0..n] == r.pods[..n] && first.pods[0..n] == first.pods[..n];
    CountNone(Done, first.pods[f..n]);
  }

  /** The highest unfinished surge pod, if not all are finished. */
  lemma LastUnfinished(plan: Plan, r: Rollout) returns (m: nat)
    requires plan.replicas <= |r.pods| && SurgeDone(plan, r) < |r.pods| - plan.replicas
    ensures plan.replicas <= m < |r.pods| && !Done(r.pods[m]) && TailCount(r.pods) == |r.pods| - 1 - m
    ensures forall i :: m < i < |r.pods| ==> Done(r.pods[i])
  {
    TailCountMeaning(r.pods);
    var k := SomeNotDone(r.pods[plan.replicas..]);
    TailWithinSurge(r.pods, plan.replicas, plan.replicas + k);
    m := |r.pods| - 1 - TailCount(r.pods);
  }

  /** With surge unfinished when the first reconcile lowers the partition, the condition is what is needed. */
  lemma FirstStepServes(plan: Plan, init: seq<ReplicaState>, first: Rollout, r: Rollout, next: Rollout, m: nat)
    requires Begins(plan, init, first) && Untouched(init, first, r)
    requires plan.replicas <= m < |r.pods| && forall i :: m < i < |r.pods| ==> Done(r.pods[i])
    requires next.partition <= |init| && next.partition >= FirstStep(plan, init, |r.pods|, m)
    requires plan.replicas <= |next.pods| <= |r.pods| && next.pods == r.pods[..|next.pods|]
    requires |next.pods| == WantReplicas(plan.replicas, plan.surge, plan.replicas - BaseDone(plan, r))
    ensures FirstSize(plan, init) <= |first.pods|
    ensures next.partition + AboveDone(plan, next) + SurgeDone(plan, next) >= ServingAfter(plan, init, first.pods, m)
  {
    var n, full, p := plan.replicas, FirstSize(plan, init), FirstStep(plan, init, |r.pods|, m);
    BeginsSize(plan, init, first);
    UntouchedCounts(plan, init, first, r, next.partition);
    UnfinishedBound(plan, r);
    WantSteps(plan, n - BaseDone(plan, r), n - CarriedFrom(init, 0));
    hide Begins, Untouched, CountIf, WantReplicas, Peak;
    assert full - |next.pods| <= BaseDone(plan, r) - CarriedFrom(init, 0);
    UntouchedSurge(plan, init, first, r);
    SurgeLeft(plan, first.pods, r.pods, m, full, |next.pods|);
    ShortenedCounts(plan, r, next);
    CarriedSlope(init, p, next.partition);
    SumServes(plan, init, first, r, next, m);
  }

  lemma UntouchedSurge(plan: Plan, init: seq<ReplicaState>, first: Rollout, r: Rollout)
    requires Untouched(init, first, r)
    ensures |first.pods| == |r.pods| && forall i :: 0 <= i < |r.pods| && Done(first.pods[i]) ==> Done(r.pods[i])
  {
  }

  lemma ShortenedCounts(plan: Plan, r: Rollout, next: Rollout)
    requires next.partition <= plan.replicas <= |next.pods| <= |r.pods| && next.pods == r.pods[..|next.pods|]
    ensures AboveDone(plan, next) == CountIf(Done, r.pods[next.partition..plan.replicas])
    ensures SurgeDone(plan, next) == CountIf(Done, r.pods[plan.replicas..|next.pods|])
  {
    assert next.pods[plan.replicas..] == r.pods[plan.replicas..|next.pods|];
    assert next.pods[next.partition..plan.replicas] == r.pods[next.partition..plan.replicas];
  }

  lemma SumServes(plan: Plan, init: seq<ReplicaState>, first: Rollout, r: Rollout, next: Rollout, m: nat)
    requires |init| <= plan.replicas <= m < |r.pods| == |first.pods| && FirstSize(plan, init) <= |first.pods|
    requires next.partition <= |init| && plan.replicas <= |next.pods| && plan.replicas <= |r.pods|
    requires var p := FirstStep(plan, init, |r.pods|, m);
             p + CarriedFrom(init, p) <= next.partition + CarriedFrom(init, next.partition)
    requires var full := FirstSize(plan, init);
             SurgeDone(plan, next) + full - |next.pods|
             >= CountIf(Done, first.pods[plan.replicas..Min(m, full)]) + NonZeroValue(full - 1 - m)
    requires FirstSize(plan, init) - |next.pods| <= BaseDone(plan, r) - CarriedFrom(init, 0)
    requires AboveDone(plan, next) - CarriedFrom(init, next.partition) == BaseDone(plan, r) - CarriedFrom(init, 0)
    ensures next.partition + AboveDone(plan, next) + SurgeDone(plan, next) >= ServingAfter(plan, init, first.pods, m)
  {
    hide CountIf, WantReplicas, FirstStep, BaseDone, AboveDone, SurgeDone, CarriedFrom, FirstSize;
  }

  predicate UpTo(plan: Plan, init: seq<ReplicaState>, first: Rollout, bound: int)
    requires |init| <= plan.replicas <= |first.pods| && FirstSize(plan, init) <= |first.pods|
  {
    forall m :: plan.replicas <= m < |first.pods| && !Done(first.pods[m]) ==>
      ServingAfter(plan, init, first.pods, m) >= bound
  }

  lemma BeginsSize(plan: Plan, init: seq<ReplicaState>, first: Rollout)
    requires Begins(plan, init, first)
    ensures FirstSize(plan, init) <= |first.pods| && CarriedFrom(init, 0) <= plan.replicas
  {
    UnfinishedBound(plan, first);
    SizeAtMostPeak(plan, plan.replicas - CarriedFrom(init, 0));
  }

  predicate Assured(plan: Plan, init: seq<ReplicaState>, first: Rollout)
    requires Begins(plan, init, first)
  {
    BeginsSize(plan, init, first);
    UpTo(plan, init, first, Promised(plan, |init|))
  }

  /** The first reconcile that changes anything leaves a state from which the bound holds. */
  lemma FirstReconcileReleases(plan: Plan, init: seq<ReplicaState>, first: Rollout, r: Rollout)
    requires ValidPlan(plan) && Begins(plan, init, first) && Untouched(init, first, r)
    requires Assured(plan, init, first)
    ensures Untouched(init, first, Reconciled(plan, r)) || Released(plan, Promised(plan, |init|), Reconciled(plan, r))
  {
    var next := Reconciled(plan, r);
    ReconciledMeaning(plan, r);
    RoleUnreadyMeaning(plan, r);
    PartitionFloor(plan, r);
    UnfinishedBound(plan, r);
    SizeAtMostPeak(plan, plan.replicas - BaseDone(plan, r));
    hide Reconciled, RollingPartition, BaseDone, WantReplicas, TailCount, Released, Assured;
    assert next.pods == r.pods[..|next.pods|];
    if next.partition == r.partition && |next.pods| == |r.pods| {
      assert next.pods == r.pods;
    } else {
      BecomesReleased(plan, init, first, r, next);
    }
  }

  lemma BecomesReleased(plan: Plan, init: seq<ReplicaState>, first: Rollout, r: Rollout, next: Rollout)
    requires ValidPlan(plan) && Begins(plan, init, first) && Untouched(init, first, r) && Assured(plan, init, first)
    requires plan.replicas <= |next.pods| <= |r.pods| && next.pods == r.pods[..|next.pods|]
    requires |next.pods| == WantReplicas(plan.replicas, plan.surge, plan.replicas - BaseDone(plan, r))
    requires next.partition <= r.partition
    requires next.partition == r.partition || next.partition >= plan.replicas - plan.unavailable - TailCount(r.pods)
    ensures Released(plan, Promised(plan, |init|), next)
  {
    assert next.pods[..plan.replicas] == r.pods[..plan.replicas];
    assert BaseDone(plan, next) == BaseDone(plan, r);
    assert FrontReady(next);
    FirstReserve(plan, init, first, r, next);
    BaseSplit(plan, next);
    WantSteps(plan, plan.replicas - BaseDone(plan, r), plan.replicas - BelowDone(next));
    hide BaseDone, BelowDone, WantReplicas, TailCount, FrontReady, Assured, Reserve, SurgeFull, Untouched;
  }

  lemma FirstReserve(plan: Plan, init: seq<ReplicaState>, first: Rollout, r: Rollout, next: Rollout)
    requires ValidPlan(plan) && Begins(plan, init, first) && Untouched(init, first, r)
    requires Assured(plan, init, first)
    requires plan.replicas <= |next.pods| <= |r.pods| && next.pods == r.pods[..|next.pods|]
    requires |next.pods| == WantReplicas(plan.replicas, plan.surge, plan.replicas - BaseDone(plan, r))
    requires BaseDone(plan, next) == BaseDone(plan, r) && next.partition <= r.partition
    requires next.partition == r.partition || next.partition >= plan.replicas - plan.unavailable - TailCount(r.pods)
    ensures Reserve(plan, next) >= Promised(plan, |init|) || SurgeFull(plan, next)
  {
    if next.partition == r.partition {
      BaseSplit(plan, next);
      hide BaseDone, AboveDone, SurgeDone;
    } else if SurgeDone(plan, r) == |r.pods| - plan.replicas {
      FullSurgeReserve(plan, r, next);
    } else {
      UnfinishedBound(plan, r);
      var m := LastUnfinished(plan, r);
      BeginsSize(plan, init, first);
      assert !Done(first.pods[m]);
      hide Begins, BaseDone, AboveDone, SurgeDone, WantReplicas, ServingAfter;
      FirstStepServes(plan, init, first, r, next, m);
    }
  }

  lemma FullSurgeReserve(plan: Plan, r: Rollout, next: Rollout)
    requires plan.replicas <= |r.pods| == Peak(plan) && SurgeDone(plan, r) == |r.pods| - plan.replicas
    requires plan.replicas <= |next.pods| <= |r.pods| && next.pods == r.pods[..|next.pods|]
    requires |next.pods| == WantReplicas(plan.replicas, plan.surge, plan.replicas - BaseDone(plan, r))
    requires BaseDone(plan, next) == BaseDone(plan, r) && next.partition <= plan.replicas
    requires next.partition >= plan.replicas - plan.unavailable - TailCount(r.pods)
    ensures Reserve(plan, next) >= plan.replicas - plan.unavailable || SurgeFull(plan, next)
  {
    ShrinkCounts(plan, r, next);
    UnfinishedBound(plan, next);
    FullSurgeLowered(plan, r, next);
  }

  // ---------- Every run ----------

  predicate OnTrack(plan: Plan, init: seq<ReplicaState>, first: Rollout, r: Rollout) {
    Untouched(init, first, r) || Released(plan, Promised(plan, |init|), r)
  }

  lemma StepOnTrack(plan: Plan, init: seq<ReplicaState>, first: Rollout, r: Rollout, e: Event)
    requires ValidPlan(plan) && Begins(plan, init, first) && Assured(plan, init, first)
    requires OnTrack(plan, init, first, r) && Enabled(plan, r, e)
    ensures OnTrack(plan, init, first, Apply(plan, r, e))
  {
    var next := Apply(plan, r, e);
    if e == Reconcile {
      if Untouched(init, first, r) {
        FirstReconcileReleases(plan, init, first, r);
      } else {
        ReconcileKeepsReleased(plan, Promised(plan, |init|), r);
      }
    } else {
      assert r.partition <= |r.pods|;
      EventIsPodStep(plan, r, e);
      if Untouched(init, first, r) {
        PodStepUntouched(plan, init, first, r, next);
      } else {
        PodStepKeepsReleased(plan, Promised(plan, |init|), r, next);
      }
    }
  }

  lemma PodStepUntouched(plan: Plan, init: seq<ReplicaState>, first: Rollout, r: Rollout, next: Rollout)
    requires Begins(plan, init, first) && Untouched(init, first, r) && PodStep(r, next)
    ensures Untouched(init, first, next)
  {
  }

  lemma {:induction false} RunOnTrack(plan: Plan, init: seq<ReplicaState>, trace: seq<Rollout>, events: seq<Event>,
                                      k: nat)
    requires ValidPlan(plan) && IsRun(plan, trace, events) && k < |trace|
    requires Begins(plan, init, trace[0]) && Assured(plan, init, trace[0])
    ensures OnTrack(plan, init, trace[0], trace[k])
  {
    hide Assured, OnTrack;
    if k > 0 {
      RunOnTrack(plan, init, trace, events, k - 1);
      StepOnTrack(plan, init, trace[0], trace[k - 1], events[k - 1]);
    } else {
      BeginsOnTrack(plan, init, trace[0]);
    }
  }

  lemma BeginsOnTrack(plan: Plan, init: seq<ReplicaState>, first: Rollout)
    requires Begins(plan, init, first)
    ensures OnTrack(plan, init, first, first)
  {
  }

  lemma UntouchedAvailable(plan: Plan, init: seq<ReplicaState>, first: Rollout, r: Rollout)
    requires Begins(plan, init, first) && Untouched(init, first, r)
    ensures Available(r) >= |init|
  {
    CountSplit(Ready, r.pods, |init|);
    assert forall i :: 0 <= i < |init| ==> r.pods[..|init|][i] == init[i];
    CountAll(Ready, r.pods[..|init|]);
  }

  // ---------- Rollouts that are not secured ----------

  /** The surge above m finishes and m does not: the first reconcile then leaves just what ServingAfter counts. */
  lemma FirstStepLeaves(plan: Plan, init: seq<ReplicaState>, first: Rollout, m: nat)
    requires ValidPlan(plan) && Begins(plan, init, first) && plan.replicas <= m < |first.pods| && !Done(first.pods[m])
    requires FirstStep(plan, init, |first.pods|, m) < |init|
    ensures var ready, p := Settle(first, m + 1, |first.pods|), FirstStep(plan, init, |first.pods|, m);
            && FirstSize(plan, init) <= |first.pods|
            && Reconciled(plan, ready) == Rollout(p, ready.pods[..FirstSize(plan, init)])
  {
    var ready, p := Settle(first, m + 1, |first.pods|), FirstStep(plan, init, |first.pods|, m);
    BeginsSize(plan, init, first);
    assert !Done(ready.pods[m]);
    assert ready.pods[..plan.replicas] == first.pods[..plan.replicas];
    TailStep(plan, ready, |first.pods| - 1 - m, p);
    assert BaseDone(plan, ready) == CarriedFrom(init, 0);
    hide RollingPartition, Settle, BaseDone, WantReplicas, Begins;
    StepTo(plan, ready, p, FirstSize(plan, init));
  }

  lemma StepTo(plan: Plan, r: Rollout, p: nat, size: nat)
    requires ValidPlan(plan) && plan.replicas <= size <= |r.pods| && p < r.partition
    requires RollingPartition(r.pods, plan.unavailable + |r.pods| - plan.replicas, r.partition) == p
    requires WantReplicas(plan.replicas, plan.surge, plan.replicas - BaseDone(plan, r)) == size
    ensures Reconciled(plan, r) == Rollout(p, r.pods[..size])
  {
    hide RollingPartition, BaseDone, WantReplicas;
    ReconciledMeaning(plan, r);
    RoleUnreadyMeaning(plan, r);
  }

  /** Finished are those below m that were, and all above m. */
  lemma SurgeSettled(first: seq<ReplicaState>, pods: seq<ReplicaState>, n: nat, m: nat, size: nat)
    requires n <= m < |first| == |pods| && n <= size <= |first| && !Done(pods[m])
    requires forall i :: n <= i < m ==> pods[i] == first[i]
    requires forall i :: m < i < |pods| ==> Done(pods[i])
    ensures CountIf(Done, pods[n..size]) == CountIf(Done, first[n..Min(m, size)]) + NonZeroValue(size - 1 - m)
  {
    var k := Min(m, size);
    assert pods[n..k] == first[n..k];
    if m < size {
      SliceInTwo(Done, pods, n, m, size);
      AboveUnfinished(pods[m..size]);
    }
  }

  lemma AboveUnfinished(s: seq<ReplicaState>)
    requires s != [] && !Done(s[0]) && forall i :: 1 <= i < |s| ==> Done(s[i])
    ensures CountIf(Done, s) == |s| - 1
  {
    CountSplit(Done, s, 1);
    CountNone(Done, s[..1]);
    AllDone(s[1..]);
  }

  /** What is left serving at worst is just that. */
  lemma LeftServingAfter(plan: Plan, init: seq<ReplicaState>, first: Rollout, m: nat)
    requires ValidPlan(plan) && Begins(plan, init, first) && plan.replicas <= m < |first.pods| && !Done(first.pods[m])
    requires FirstStep(plan, init, |first.pods|, m) < |init|
    ensures var ready, p := Settle(first, m + 1, |first.pods|), FirstStep(plan, init, |first.pods|, m);
            && FirstSize(plan, init) <= |first.pods|
            && LeftServing(Rollout(p, ready.pods[..FirstSize(plan, init)])) <= ServingAfter(plan, init, first.pods, m)
  {
    var n, size, p := plan.replicas, FirstSize(plan, init), FirstStep(plan, init, |first.pods|, m);
    BeginsSize(plan, init, first);
    var ready := Settle(first, m + 1, |first.pods|);
    assert forall i :: m < i < |first.pods| ==> Done(ready.pods[i]);
    assert ready.pods[..m + 1] == first.pods[..m + 1];
    ShortenedLeft(first.pods, ready.pods, p, n, m, size);
    assert forall i :: n <= i <= m ==> ready.pods[i] == first.pods[i];
    SurgeSettled(first.pods, ready.pods, n, m, size);
    hide Settle, Begins, FirstStep, FirstSize;
  }

  lemma ShortenedLeft(first: seq<ReplicaState>, pods: seq<ReplicaState>, p: nat, n: nat, m: nat, size: nat)
    requires p <= n <= m < |first| == |pods| && n <= size <= |first| && pods[..m + 1] == first[..m + 1]
    ensures LeftServing(Rollout(p, pods[..size])) <= p + CountIf(Done, first[p..n]) + CountIf(Done, pods[n..size])
  {
    var left := pods[..size];
    assert left[p..n] == pods[..m + 1][p..n] == first[p..n];
    CountSuffix(Done, left, p, n);
    assert left[n..] == pods[n..size];
  }

  lemma NotSecuredFallsShort(plan: Plan, init: seq<ReplicaState>, first: Rollout, m: nat)
    requires ValidPlan(plan) && Begins(plan, init, first) && plan.replicas <= m < |first.pods| && !Done(first.pods[m])
    requires FirstSize(plan, init) <= |first.pods| && ServingAfter(plan, init, first.pods, m) < Promised(plan, |init|)
    ensures CanReach(plan, first, BelowGoal(Promised(plan, |init|)))
  {
    var bound := Promised(plan, |init|);
    var ready, p := Settle(first, m + 1, |first.pods|), FirstStep(plan, init, |first.pods|, m);
    FirstStepLeaves(plan, init, first, m);
    LeftServingAfter(plan, init, first, m);
    hide Settle, Reconciled, LeftServing, ServingAfter, BelowGoal, CanReach, FirstStep, FirstSize, Begins;
    FallsBelowFrom(plan, Reconciled(plan, ready), bound);
    PrependStep(plan, ready, Reconcile, BelowGoal(bound));
    SettleFirst(plan, first, m + 1, |first.pods|, BelowGoal(bound));
  }

  // ---------- Exactly ----------

  /**
   A rollout begun with all its role replicas serving, to any revision and whatever surge pods were
   there, keeps all but max(1, maxUnavailable) of them available in every run exactly if it is
   secured: if enough serve after the first reconcile wherever that stops its count.
   */
  lemma AvailabilityExactly(plan: Plan, before: Rollout)
    requires ValidPlan(plan) && 1 <= plan.replicas && DownBefore(plan, before) == 0
    ensures !CanReach(plan, Start(plan, before), BelowGoal(Promised(plan, FirstPartition(plan, before))))
            <==> Secured(plan, before)
  {
    var first, init := Start(plan, before), Initial(plan, before);
    StartBegins(plan, before);
    BeginsSize(plan, init, first);
    if Secured(plan, before) {
      assert Assured(plan, init, first);
      forall trace, events | IsRun(plan, trace, events) && trace[0] == first
        ensures Available(trace[|trace| - 1]) >= Promised(plan, |init|)
      {
        RunOnTrack(plan, init, trace, events, |trace| - 1);
        OnTrackAvailable(plan, init, first, trace[|trace| - 1]);
      }
    } else {
      var m :| plan.replicas <= m < |first.pods| && !Done(first.pods[m])
               && ServingAfter(plan, init, first.pods, m) < Promised(plan, |init|);
      NotSecuredFallsShort(plan, init, first, m);
    }
  }

  lemma OnTrackAvailable(plan: Plan, init: seq<ReplicaState>, first: Rollout, r: Rollout)
    requires Begins(plan, init, first) && OnTrack(plan, init, first, r)
    ensures Available(r) >= Promised(plan, |init|)
  {
    if Untouched(init, first, r) {
      UntouchedAvailable(plan, init, first, r);
    } else {
      ReleasedAvailable(plan, Promised(plan, |init|), r);
    }
  }
}
