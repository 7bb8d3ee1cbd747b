/** How many pods serve in every state of every run of a rollout. */
module RolloutAvailability {
  import opened Counting
  import opened RollingUpdate
  import opened RolloutRuns

  predicate Updated(s: ReplicaState) { s.updated }

  /** The replicas from ordinal k on that were on the target revision from the start. */
  function CarriedFrom(init: seq<ReplicaState>, k: int): nat
    requires k <= |init|
  {
    CountIf(Updated, init[NonZeroValue(k)..])
  }

  lemma CarriedSlope(init: seq<ReplicaState>, i: int, k: int)
    requires i <= k <= |init|
    ensures CarriedFrom(init, k) <= CarriedFrom(init, i) <= CarriedFrom(init, k) + k - i
  {
    CountSuffix(Updated, init, NonZeroValue(i), NonZeroValue(k));
  }

  /** A replica that was on the target revision and was let go is finished, unless it was down before. */
  lemma KeptAbove(plan: Plan, init: seq<ReplicaState>, r: Rollout)
    requires |init| <= plan.replicas <= |r.pods| && Kept(init, r)
    ensures CarriedFrom(init, r.partition) + CountIf(NotReady, r.pods[..r.partition])
            <= AboveDone(plan, r) + CountIf(NotReady, init)
    ensures CountIf(NotReady, r.pods[..r.partition]) <= CountIf(NotReady, init)
  {
    DownKept(init, r);
    PassedDone(plan, init, r);
    hide Kept, AboveDone;
    CountSplit(NotReady, init, r.partition);
    CarriedIsDoneOrDown(init[r.partition..]);
  }

  lemma DownKept(init: seq<ReplicaState>, r: Rollout)
    requires Kept(init, r)
    ensures CountIf(NotReady, r.pods[..r.partition]) <= CountIf(NotReady, init[..r.partition])
  {
    CountPointwise(NotReady, r.pods[..r.partition], init[..r.partition]);
  }

  lemma PassedDone(plan: Plan, init: seq<ReplicaState>, r: Rollout)
    requires |init| <= plan.replicas <= |r.pods| && Kept(init, r)
    ensures CountIf(Done, init[r.partition..]) <= AboveDone(plan, r)
  {
    var p := r.partition;
    var passed, above := init[p..], r.pods[p..plan.replicas];
    assert forall i :: 0 <= i < |passed| ==> passed[i] == init[p + i] && above[i] == r.pods[p + i];
    StillDone(passed, above);
  }

  lemma StillDone(before: seq<ReplicaState>, after: seq<ReplicaState>)
    requires |before| <= |after| && forall i :: 0 <= i < |before| ==> Done(before[i]) ==> Done(after[i])
    ensures CountIf(Done, before) <= CountIf(Done, after)
  {
    CountPointwise(Done, before, after[..|before|]);
    CountSplit(Done, after, |before|);
  }

  /** Below the partition only replicas that were on the target revision are finished. */
  lemma KeptBelow(plan: Plan, init: seq<ReplicaState>, r: Rollout)
    requires |init| <= plan.replicas <= |r.pods| && Kept(init, r)
    ensures BaseDone(plan, r) <= AboveDone(plan, r) + CarriedFrom(init, 0) - CarriedFrom(init, r.partition)
  {
    var p := r.partition;
    CountSlice(Done, r.pods, p, plan.replicas);
    DoneIsUpdated(r.pods[..p], init[..p]);
    CountSplit(Updated, init, p);
    assert init[0..] == init;
  }

  lemma {:induction false} CarriedIsDoneOrDown(s: seq<ReplicaState>)
    ensures CountIf(Updated, s) <= CountIf(Done, s) + CountIf(NotReady, s)
  {
    if s != [] {
      CarriedIsDoneOrDown(s[..|s| - 1]);
    }
  }

  lemma DoneIsUpdated(pods: seq<ReplicaState>, init: seq<ReplicaState>)
    requires |pods| == |init| && forall i :: 0 <= i < |pods| ==> pods[i].updated == init[i].updated
    ensures CountIf(Done, pods) <= CountIf(Updated, init)
  {
    CountImplies(Done, Updated, pods);
    CountPointwise(Updated, pods, init);
  }

  /** Serving are the finished pods from the partition on, and those below it but for the ones down. */
  lemma ServingPods(plan: Plan, r: Rollout)
    requires r.partition <= plan.replicas <= |r.pods|
    ensures Available(r)
            >= r.partition - CountIf(NotReady, r.pods[..r.partition]) + AboveDone(plan, r) + SurgeDone(plan, r)
  {
    var p := r.partition;
    CountSplit(Ready, r.pods, p);
    CountSuffix(Done, r.pods, p, plan.replicas);
    CountComplement(Ready, NotReady, r.pods[..p]);
    CountImplies(Done, Ready, r.pods[p..]);
  }

  /** The serving replicas to expect: all but max(1, maxUnavailable), as far as they were there. */
  function Promised(plan: Plan, start: nat): int {
    Min(start, plan.replicas - (if plan.unavailable == 0 then 1 else plan.unavailable))
  }

  /**
   Replicas on the target revision count as finished although no surge replica made up for them. On
   their account so many surge replicas can be given back in the very step that counts them as
   finished and lets as many old pods go.
   */
  function EarlyRelease(plan: Plan, init: seq<ReplicaState>): nat {
    NonZeroValue(Peak(plan) + 1 - 2 * plan.replicas + CarriedFrom(init, 0)
                 - (plan.replicas - plan.unavailable - Target(plan, |init|)))
  }

  /** The pods that such a step lets go are on the target revision already, but for the ones that may be missing. */
  predicate Covered(plan: Plan, init: seq<ReplicaState>) {
    var target, early := Target(plan, |init|), EarlyRelease(plan, init);
    CarriedFrom(init, target - early) + target - Promised(plan, |init|) >= early
  }

  lemma NewRevisionCovered(plan: Plan, before: Rollout)
    requires ValidPlan(plan) && 1 <= plan.replicas && NewRevision(before)
    ensures Covered(plan, Initial(plan, before))
  {
    CountNone(Updated, Initial(plan, before)[0..]);
  }

  /** While a surge replica is unfinished no more serving pods are missing than were released early. */
  lemma SurgeShort(plan: Plan, init: seq<ReplicaState>, r: Rollout)
    requires ValidPlan(plan) && Inv(plan, init, r) && SurgeDone(plan, r) < |r.pods| - plan.replicas
               && r.partition < |init|
    ensures var early := NonZeroValue(Peak(plan) + 1 - 2 * plan.replicas + CarriedFrom(init, 0));
            Available(r) + CountIf(NotReady, init) + early
            >= plan.replicas - plan.unavailable + CarriedFrom(init, r.partition)
  {
    KeptAbove(plan, init, r);
    KeptBelow(plan, init, r);
    ServingPods(plan, r);
    ReleasedAtMost(plan, r);
    hide Available, BaseDone, AboveDone, SurgeDone, Kept, WantReplicas, CarriedFrom, Peak;
    assert r.partition >= plan.replicas - plan.unavailable - SurgeDone(plan, r) - (Peak(plan) - |r.pods|);
  }

  /** What was given back is within the replicas finished so far. */
  lemma ReleasedAtMost(plan: Plan, r: Rollout)
    requires 1 <= plan.replicas && plan.surge <= plan.replicas <= |r.pods| <= Peak(plan)
    requires WantReplicas(plan.replicas, plan.surge, plan.replicas - BaseDone(plan, r)) <= |r.pods|
    ensures BaseDone(plan, r) <= plan.replicas
    ensures Peak(plan) - |r.pods| <= NonZeroValue(Peak(plan) + 1 - 2 * plan.replicas + BaseDone(plan, r))
    ensures |r.pods| < Peak(plan) ==> 2 * plan.replicas <= |r.pods| + BaseDone(plan, r) + 1
  {
    UnfinishedBound(plan, r);
    hide BaseDone;
  }

  lemma SurgeFull(plan: Plan, init: seq<ReplicaState>, r: Rollout)
    requires ValidPlan(plan) && Inv(plan, init, r) && SurgeDone(plan, r) == |r.pods| - plan.replicas
    ensures Available(r) + CountIf(NotReady, init) >= Promised(plan, |init|)
  {
    KeptAbove(plan, init, r);
    BelowFinished(plan, r);
    ServingPods(plan, r);
    ReleasedAtMost(plan, r);
    assert r.partition <= |init|;
    hide Available, BaseDone, AboveDone, SurgeDone, Kept, WantReplicas, CarriedFrom, Peak;
    assert |r.pods| == Peak(plan) || 2 * plan.replicas <= |r.pods| + BaseDone(plan, r) + 1;
  }

  lemma BelowFinished(plan: Plan, r: Rollout)
    requires r.partition <= plan.replicas <= |r.pods|
    ensures BaseDone(plan, r) <= AboveDone(plan, r) + r.partition
  {
    CountSlice(Done, r.pods, r.partition, plan.replicas);
  }

  /** In any state of the invariant enough replicas serve. */
  lemma InvAvailable(plan: Plan, init: seq<ReplicaState>, r: Rollout)
    requires ValidPlan(plan) && Inv(plan, init, r) && Covered(plan, init)
    ensures Available(r) >= Promised(plan, |init|) - CountIf(NotReady, init)
  {
    UnfinishedBound(plan, r);
    if SurgeDone(plan, r) == |r.pods| - plan.replicas {
      SurgeFull(plan, init, r);
    } else if r.partition < |init| {
      FrontServing(plan, init, r);
      SurgeShort(plan, init, r);
      EnoughEitherWay(plan, init, r.partition, Available(r) + CountIf(NotReady, init));
    } else {
      FrontServing(plan, init, r);
    }
  }

  /** The pods below the partition serve, and those let go that were on the target revision, unless they were down. */
  lemma FrontServing(plan: Plan, init: seq<ReplicaState>, r: Rollout)
    requires |init| <= plan.replicas <= |r.pods| && Kept(init, r)
    ensures Available(r) + CountIf(NotReady, init) >= r.partition + CarriedFrom(init, r.partition)
  {
    KeptAbove(plan, init, r);
    ServingPods(plan, r);
  }

  lemma EnoughEitherWay(plan: Plan, init: seq<ReplicaState>, partition: nat, serving: int)
    requires partition <= |init| <= plan.replicas && Covered(plan, init)
    requires serving >= partition + CarriedFrom(init, partition)
    requires serving + NonZeroValue(Peak(plan) + 1 - 2 * plan.replicas + CarriedFrom(init, 0))
             >= plan.replicas - plan.unavailable + CarriedFrom(init, partition)
    ensures serving >= Promised(plan, |init|)
  {
    var low := Target(plan, |init|) - EarlyRelease(plan, init);
    if partition <= low {
      CarriedSlope(init, partition, low);
    } else {
      CarriedSlope(init, low, partition);
    }
    hide CarriedFrom, Peak;
  }

  /**
   After a template change, in every state of every interleaving, at most max(1, maxUnavailable)
   role replicas' worth of serving pods is missing, beyond those that were down or not yet there to
   begin with; and the StatefulSet always has the role's replicas and at most the surge on top.
   That asks nothing of a change to a new revision (NewRevisionCovered). For a change that leads
   back to a revision some pods still carry it asks for Covered, which is exactly what it takes
   (see DocumentedBound).
   */
  lemma Availability(plan: Plan, before: Rollout, trace: seq<Rollout>, events: seq<Event>, k: nat)
    requires ValidPlan(plan) && 1 <= plan.replicas
    requires IsRun(plan, trace, events) && trace[0] == Start(plan, before) && k < |trace|
    ensures NewRevision(before) || Covered(plan, Initial(plan, before)) ==>
              Available(trace[k]) >= Promised(plan, |before.pods|) - DownBefore(plan, before)
    ensures plan.replicas <= |trace[k].pods| <= plan.replicas + plan.surge
    ensures trace[k].partition <= plan.replicas
  {
    var init := Initial(plan, before);
    InvAtStart(plan, before);
    RunKeepsInv(plan, init, trace, events, k);
    if NewRevision(before) {
      NewRevisionCovered(plan, before);
    }
    if Covered(plan, init) {
      InvAvailable(plan, init, trace[k]);
    }
  }
}
