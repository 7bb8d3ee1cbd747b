/**
 Availability after a role was resized during a rollout: the reconcile that takes the resize up gives
 back surge pods whether they serve or not. Exactly when the new size's bound holds from then on.
 The rollout is one whose kept pods are old and serve, as in any to a new revision begun with all
 replicas serving.
 */
module ResizedAvailability {
  import opened Counting
  import opened RollingUpdate
  import opened RolloutRuns
  import opened RolloutAvailability
  import opened RolloutProgress
  import opened WorstCase
  import opened ResizedRollouts

  predicate FrontServes(r: Rollout) { forall i :: 0 <= i < r.partition && i < |r.pods| ==> HealthyOld(r.pods[i]) }

  // ---------- Once the partition has been lowered ----------

  /** As many serving old replicas as the role wants. */
  function AllOld(n: nat): (s: seq<ReplicaState>)
    ensures |s| == n
  {
    seq(n, _ => ReplicaState(false, true))
  }

  lemma AllOldCovered(plan: Plan)
    requires ValidPlan(plan) && 1 <= plan.replicas
    ensures Covered(plan, AllOld(plan.replicas)) && CountIf(NotReady, AllOld(plan.replicas)) == 0
  {
    var init := AllOld(plan.replicas);
    CountNone(Updated, init[0..]);
    CountNone(NotReady, init);
  }

  /** A reconcile that lowers the partition sets up the bounds of the ordinary invariant. */
  lemma LoweredSetsBounds(plan: Plan, r: Rollout, next: Rollout)
    requires plan.replicas <= |next.pods| <= |r.pods| <= Peak(plan) && next.pods == r.pods[..|next.pods|]
    requires next.partition <= plan.replicas
    requires next.partition >= plan.replicas - plan.unavailable - TailCount(r.pods)
    ensures SurgeDone(plan, next) < |next.pods| - plan.replicas ==>
              next.partition >= plan.replicas - plan.unavailable - SurgeDone(plan, next) - (Peak(plan) - |next.pods|)
    ensures |next.pods| == Peak(plan) ==>
              next.partition + AboveDone(plan, next) + SurgeDone(plan, next) >= plan.replicas - plan.unavailable
  {
    ShrinkCounts(plan, r, next);
    if |next.pods| == Peak(plan) {
      assert next.pods == r.pods;
      TailAbove(plan, next);
    }
    hide TailCount, SurgeDone, AboveDone;
  }

  lemma FrontKept(plan: Plan, r: Rollout, e: Event)
    requires Enabled(plan, r, e) && !e.Reconcile? && FrontServes(r)
    ensures var next := Apply(plan, r, e);
            next.partition == r.partition && |next.pods| == |r.pods| && FrontServes(next)
    ensures forall i :: 0 <= i < |r.pods| && Done(r.pods[i]) ==> Done(Apply(plan, r, e).pods[i])
  {
  }

  // ---------- What every run keeps ----------

  predicate SizedWithin(plan: Plan, r: Rollout) {
    && 1 <= plan.replicas <= |r.pods| <= Peak(plan) && plan.surge <= plan.replicas
    && WantReplicas(plan.replicas, plan.surge, plan.replicas - BaseDone(plan, r)) <= |r.pods|
  }

  /** The partition is where the resize left it, and no more finished surge was given back than replicas finished. */
  predicate NotLowered(plan: Plan, first: Rollout, r: Rollout)
    requires plan.replicas <= |first.pods|
  {
    && SizedWithin(plan, r) && r.partition == first.partition <= plan.replicas && |r.pods| <= |first.pods|
    && BaseDone(plan, first) <= BaseDone(plan, r)
    && SurgeDone(plan, first) + |r.pods| <= SurgeDone(plan, r) + |first.pods|
  }

  /** Above the new size, lowered within it, or not lowered. */
  predicate Holds(plan: Plan, first: Rollout, r: Rollout)
    requires plan.replicas <= |first.pods|
  {
    && SizedWithin(plan, r) && FrontServes(r)
    && (plan.replicas < r.partition || Inv(plan, AllOld(plan.replicas), r) || NotLowered(plan, first, r))
  }

  lemma LoweredHolds(plan: Plan, r: Rollout, next: Rollout)
    requires SizedWithin(plan, r) && FrontServes(r) && SizedWithin(plan, next)
    requires |next.pods| <= |r.pods| && next.pods == r.pods[..|next.pods|]
    requires next.partition <= r.partition && next.partition <= plan.replicas
    requires next.partition >= plan.replicas - plan.unavailable - TailCount(r.pods)
    ensures Inv(plan, AllOld(plan.replicas), next)
  {
    LoweredSetsBounds(plan, r, next);
    assert Kept(AllOld(plan.replicas), next);
    hide TailCount, SurgeDone, AboveDone, BaseDone, Kept;
  }

  /** A reconcile shortens the rollout to what is asked for and does not raise the partition. */
  lemma ReconciledWithin(plan: Plan, r: Rollout)
    requires ValidPlan(plan) && SizedWithin(plan, r)
    ensures var next := Reconciled(plan, r);
            && SizedWithin(plan, next) && |next.pods| <= |r.pods| && next.pods == r.pods[..|next.pods|]
            && BaseDone(plan, next) == BaseDone(plan, r)
            && next.partition <= r.partition
            && (next.partition == r.partition || next.partition >= plan.replicas - plan.unavailable - TailCount(r.pods))
  {
    ReconciledMeaning(plan, r);
    RoleUnreadyMeaning(plan, r);
    PartitionFloor(plan, r);
    var next := Reconciled(plan, r);
    hide RollingPartition, TailCount, Reconciled;
    assert next.pods == r.pods[..|next.pods|];
    assert next.pods[..plan.replicas] == r.pods[..plan.replicas];
  }

  lemma ReconcileHolds(plan: Plan, first: Rollout, r: Rollout)
    requires ValidPlan(plan) && plan.replicas <= |first.pods| && Holds(plan, first, r)
    ensures Holds(plan, first, Reconciled(plan, r))
  {
    var next := Reconciled(plan, r);
    ReconciledWithin(plan, r);
    hide Reconciled, TailCount, WantReplicas;
    if next.partition <= plan.replicas {
      if next.partition < r.partition {
        LoweredHolds(plan, r, next);
      } else if NotLowered(plan, first, r) {
        ShrinkCounts(plan, r, next);
      } else {
        ReconcileKeepsInv(plan, AllOld(plan.replicas), r);
      }
    }
  }

  lemma PodEventHolds(plan: Plan, first: Rollout, r: Rollout, e: Event)
    requires ValidPlan(plan) && plan.replicas <= |first.pods| && Holds(plan, first, r)
    requires Enabled(plan, r, e) && !e.Reconcile?
    ensures Holds(plan, first, Apply(plan, r, e))
  {
    var n, next := plan.replicas, Apply(plan, r, e);
    FrontKept(plan, r, e);
    CountPointwise(Done, r.pods[..n], next.pods[..n]);
    CountPointwise(Done, r.pods[n..], next.pods[n..]);
    if r.partition <= n && Inv(plan, AllOld(n), r) {
      EventIsPodStep(plan, r, e);
      PodStepKeepsInv(plan, AllOld(n), r, next);
    }
    hide Apply, Inv, FrontServes;
  }

  lemma {:induction false} RunHolds(plan: Plan, first: Rollout, trace: seq<Rollout>, events: seq<Event>, k: nat)
    requires ValidPlan(plan) && plan.replicas <= |first.pods| && Holds(plan, first, first)
    requires IsRun(plan, trace, events) && trace[0] == first && k < |trace|
    ensures Holds(plan, first, trace[k])
  {
    hide Holds;
    if k > 0 {
      RunHolds(plan, first, trace, events, k - 1);
      if events[k - 1] == Reconcile {
        ReconcileHolds(plan, first, trace[k - 1]);
      } else {
        PodEventHolds(plan, first, trace[k - 1], events[k - 1]);
      }
    }
  }

  // ---------- Availability ----------

  lemma FrontAvailable(plan: Plan, r: Rollout)
    requires plan.replicas <= |r.pods| && r.partition <= plan.replicas && FrontServes(r)
    ensures Available(r) >= r.partition + BaseDone(plan, r) + SurgeDone(plan, r)
    ensures LeftServing(r) == r.partition + BaseDone(plan, r) + SurgeDone(plan, r)
  {
    var p, n := r.partition, plan.replicas;
    assert forall i :: 0 <= i < p ==> r.pods[..p][i] == r.pods[i];
    CountAll(Ready, r.pods[..p]);
    CountNone(Done, r.pods[..p]);
    CountSplit(Ready, r.pods, p);
    CountImplies(Done, Ready, r.pods[p..]);
    CountSlice(Done, r.pods, p, n);
    CountSuffix(Done, r.pods, p, n);
  }

  lemma RoleServes(plan: Plan, r: Rollout)
    requires plan.replicas < r.partition && plan.replicas <= |r.pods| && FrontServes(r)
    ensures Available(r) >= plan.replicas && LeftServing(r) >= plan.replicas
  {
    var n, p := plan.replicas, Min(r.partition, |r.pods|);
    assert forall i :: 0 <= i < p ==> r.pods[..p][i] == r.pods[i];
    CountAll(Ready, r.pods[..p]);
    CountSplit(Ready, r.pods, p);
  }

  lemma HoldsAvailable(plan: Plan, first: Rollout, r: Rollout)
    requires ValidPlan(plan) && plan.replicas <= |first.pods| && Holds(plan, first, r) && FrontServes(first)
    requires |first.pods| == WantReplicas(plan.replicas, plan.surge, plan.replicas - BaseDone(plan, first))
    requires LeftServing(first) >= Promised(plan, plan.replicas)
    ensures Available(r) >= Promised(plan, plan.replicas)
  {
    if plan.replicas < r.partition {
      RoleServes(plan, r);
    } else if Inv(plan, AllOld(plan.replicas), r) {
      AllOldCovered(plan);
      InvAvailable(plan, AllOld(plan.replicas), r);
    } else {
      FrontAvailable(plan, first);
      FrontAvailable(plan, r);
      UnfinishedBound(plan, r);
      hide Available, LeftServing, BaseDone, SurgeDone, FrontServes, Inv;
    }
  }

  // ---------- Exactly ----------

  /**
   From the reconcile that takes up a resize the new size's bound holds in every run exactly if it
   holds at once: if the old pods kept and the finished ones not given back are enough.
   */
  lemma ResizedAvailableExactly(plan: Plan, r: Rollout)
    requires ValidPlan(plan) && 1 <= plan.replicas && r.partition <= |r.pods| && FrontServes(r)
    ensures !CanReach(plan, Resized(plan, r), BelowGoal(Promised(plan, plan.replicas)))
            <==> LeftServing(Resized(plan, r)) >= Promised(plan, plan.replicas)
  {
    var first := Resized(plan, r);
    ResizedSized(plan, r);
    UnfinishedBound(plan, first);
    assert FrontServes(first);
    assert Holds(plan, first, first);
    if LeftServing(first) >= Promised(plan, plan.replicas) {
      forall trace, events | IsRun(plan, trace, events) && trace[0] == first
        ensures Available(trace[|trace| - 1]) >= Promised(plan, plan.replicas)
      {
        RunHolds(plan, first, trace, events, |trace| - 1);
        HoldsAvailable(plan, first, trace[|trace| - 1]);
      }
    } else {
      if plan.replicas < first.partition {
        RoleServes(plan, first);
      }
      FallsBelowFrom(plan, first, Promised(plan, plan.replicas));
    }
  }

  /** Three replicas, all being replaced, two surge pods serving: shrinking to two leaves none of them. */
  lemma ShrinkLeavesNone()
    ensures var down, done := ReplicaState(false, false), ReplicaState(true, true);
            var r := Rollout(0, [down, down, down, done, done]);
            Available(r) == 2 && Resized(Plan(2, 2, 1), r) == Rollout(0, [down, down, down])
            && LeftServing(Resized(Plan(2, 2, 1), r)) == 0 < Promised(Plan(2, 2, 1), 2)
  {
    var down, done := ReplicaState(false, false), ReplicaState(true, true);
    var r, plan := Rollout(0, [down, down, down, done, done]), Plan(2, 2, 1);
    CountSplit(Ready, r.pods, 3);
    CountNone(Ready, r.pods[..3]);
    CountAll(Ready, r.pods[3..]);
    CountAll(NotDone, r.pods[..2]);
    assert r.pods[..3] == [down, down, down];
    CountNone(Done, [down, down, down]);
    assert [down, down, down][0..] == [down, down, down];
  }
}
