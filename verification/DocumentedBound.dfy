/**
 The strategy's documented promise: during an update all but maxUnavailable of the replicas are
 available at all times. Exactly which rollouts keep it, and exactly which keep all but one
 available if nothing may be unavailable.
 */
module DocumentedBound {
  import opened Counting
  import opened RollingUpdate
  import opened PartitionBounds
  import opened RolloutRuns
  import opened RolloutAvailability
  import opened RolloutProgress
  import opened StuckRollouts
  import opened WorstCase
  import opened FirstRelease

  // ---------- The closed form ----------

  lemma CarriedWithin(init: seq<ReplicaState>, k: int)
    requires k <= |init|
    ensures CarriedFrom(init, k) <= |init| - NonZeroValue(k)
  {
  }

  /** The sizes that make an uncovered rollout fall short. */
  lemma UncoveredSizes(plan: Plan, init: seq<ReplicaState>)
    requires ValidPlan(plan) && 1 <= plan.replicas && |init| <= plan.replicas && !Covered(plan, init)
    ensures var n, carried, low := plan.replicas, CarriedFrom(init, 0), Target(plan, |init|) - EarlyRelease(plan, init);
            && 1 <= low < |init| && carried + 2 <= n
            && low + CarriedFrom(init, low) < Promised(plan, |init|)
            && 1 <= n - plan.unavailable - low < Peak(plan) - n
            && WantReplicas(n, plan.surge, n - carried) == Peak(plan) - (n - plan.unavailable - low)
  {
    var low := Target(plan, |init|) - EarlyRelease(plan, init);
    CarriedSlope(init, if low < 0 then low else 0, if low < 0 then 0 else low);
    CarriedWithin(init, 0);
    hide CarriedFrom;
  }

  lemma SurgeStaysUnfinished(plan: Plan, before: Rollout)
    requires ValidPlan(plan) && 1 <= plan.replicas && SurgeUnfinished(plan, before)
    ensures forall i :: plan.replicas <= i < |Start(plan, before).pods| ==> !Done(Start(plan, before).pods[i])
  {
    StartMeaning(plan, before);
  }

  /** An uncovered rollout is not secured: the surge replica just below those given back early shows it. */
  lemma UncoveredNotSecured(plan: Plan, before: Rollout)
    requires ValidPlan(plan) && 1 <= plan.replicas && SurgeUnfinished(plan, before)
    requires !Covered(plan, Initial(plan, before))
    ensures !Secured(plan, before)
  {
    var r, init := Start(plan, before), Initial(plan, before);
    StartMeaning(plan, before);
    SurgeStaysUnfinished(plan, before);
    var m := UncoveredWitness(plan, init, r.pods);
    assert !Done(r.pods[m]);
  }

  lemma UncoveredWitness(plan: Plan, init: seq<ReplicaState>, pods: seq<ReplicaState>) returns (m: nat)
    requires ValidPlan(plan) && 1 <= plan.replicas && |init| <= plan.replicas && !Covered(plan, init)
    requires |pods| == Peak(plan) && forall i :: plan.replicas <= i < |pods| ==> !Done(pods[i])
    ensures plan.replicas <= m < |pods| && FirstSize(plan, init) <= |pods|
    ensures ServingAfter(plan, init, pods, m) < Promised(plan, |init|)
  {
    UncoveredSizes(plan, init);
    var low: nat := Target(plan, |init|) - EarlyRelease(plan, init);
    m := |pods| - 1 - (plan.replicas - plan.unavailable - low);
    hide Covered, EarlyRelease, Target, Promised, CarriedFrom;
    UncoveredServing(plan, init, pods, low, m);
  }

  lemma UncoveredServing(plan: Plan, init: seq<ReplicaState>, pods: seq<ReplicaState>, low: nat, m: nat)
    requires low <= |init| <= plan.replicas <= m < |pods| && low == plan.replicas - plan.unavailable - (|pods| - 1 - m)
    requires CarriedFrom(init, 0) <= plan.replicas && FirstSize(plan, init) == m + 1
    requires forall i :: plan.replicas <= i < |pods| ==> !Done(pods[i])
    ensures ServingAfter(plan, init, pods, m) == low + CarriedFrom(init, low)
  {
    CountNone(Done, pods[plan.replicas..m]);
  }

  /**
   With no surge pod finished on the target revision at the start, which a rollout to a new revision
   and one taken back without a resize both have, the closed form decides.
   */
  lemma CoveredExactly(plan: Plan, before: Rollout)
    requires ValidPlan(plan) && 1 <= plan.replicas && SurgeUnfinished(plan, before) && DownBefore(plan, before) == 0
    ensures !CanReach(plan, Start(plan, before), BelowGoal(Promised(plan, FirstPartition(plan, before))))
            <==> Covered(plan, Initial(plan, before))
  {
    if !Covered(plan, Initial(plan, before)) {
      UncoveredNotSecured(plan, before);
      AvailabilityExactly(plan, before);
    } else {
      forall trace, events | IsRun(plan, trace, events) && trace[0] == Start(plan, before)
        ensures Available(trace[|trace| - 1]) >= Promised(plan, FirstPartition(plan, before))
      {
        Availability(plan, before, trace, events, |trace| - 1);
      }
    }
  }

  // ---------- The documented bound ----------

  /**
   Below the partition everything is finished and the surge is shorter than the unfinished: one serving pod too
   few is left.
   */
  lemma ReleaseLeavesOneShort(plan: Plan, r: Rollout)
    requires ValidPlan(plan) && plan.unavailable == 0 && plan.replicas <= |r.pods| && BaseDone(plan, r) < plan.replicas
    requires |r.pods| == WantReplicas(plan.replicas, plan.surge, plan.replicas - BaseDone(plan, r))
    requires r.partition <= plan.replicas && forall i :: 0 <= i < r.partition ==> Done(r.pods[i])
    ensures CanReach(plan, r, BelowGoal(plan.replicas))
  {
    CountSplit(Done, r.pods, plan.replicas);
    CountSplit(Done, r.pods, r.partition);
    AllDone(r.pods[..r.partition]);
    FallsBelowFrom(plan, r, plan.replicas);
  }

  /**
   With maxUnavailable 0 the reconcile that lets the last old pods go gives back a surge replica at
   the same time: there is one replica fewer above them than the role wants.
   */
  lemma {:induction false} FallsBelow(plan: Plan, r: Rollout)
    requires ValidPlan(plan) && Sized(plan, r) && plan.unavailable == 0
    requires r.partition <= plan.replicas < |r.pods| && !NoneOldBelow(r)
    ensures CanReach(plan, r, BelowGoal(plan.replicas))
    decreases Measure(plan, r)
  {
    var settled := Settle(r, 0, |r.pods|);
    var next := Reconciled(plan, settled);
    var i :| 0 <= i < r.partition && !r.pods[i].updated;
    assert !settled.pods[i].updated;
    SettleKeepsSized(plan, r);
    SettledProgress(plan, settled);
    ReconcileKeepsSized(plan, settled);
    LastReconcile(plan, settled, i);
    hide Reconciled, Settle, BelowGoal, Sized, BaseDone, CanReach;
    if NoneOldBelow(next) {
      ReleaseLeavesOneShort(plan, next);
    } else {
      FallsBelow(plan, next);
    }
    PrependStep(plan, settled, Reconcile, BelowGoal(plan.replicas));
    SettleFirst(plan, r, 0, |r.pods|, BelowGoal(plan.replicas));
  }

  lemma LastReconcile(plan: Plan, r: Rollout, i: nat)
    requires ValidPlan(plan) && Settled(r) && plan.replicas < |r.pods|
    requires i < r.partition <= plan.replicas && !r.pods[i].updated
    requires WantReplicas(plan.replicas, plan.surge, plan.replicas - BaseDone(plan, r)) <= |r.pods|
    ensures var next := Reconciled(plan, r);
            && next.partition <= plan.replicas <= |next.pods| && BaseDone(plan, next) < plan.replicas
            && |next.pods| == WantReplicas(plan.replicas, plan.surge, plan.replicas - BaseDone(plan, next))
            && (NoneOldBelow(next) ==> forall k :: 0 <= k < next.partition ==> Done(next.pods[k]))
  {
    ReconciledMeaning(plan, r);
    RoleUnreadyMeaning(plan, r);
    PartitionFloor(plan, r);
    var next, base := Reconciled(plan, r), r.pods[..plan.replicas];
    assert next.pods[..plan.replicas] == base;
    UnfinishedBound(plan, r);
    CountAll(Done, base);
    assert !Done(base[i]) && base[i] in base;
  }

  /**
   Exactly when the documented bound holds in every run of a rollout begun with all its replicas
   serving. With maxUnavailable 0 that takes a single replica, or nothing to replace at all.
   */
  lemma DocumentedBoundExactly(plan: Plan, before: Rollout)
    requires ValidPlan(plan) && 1 <= plan.replicas <= |before.pods| && DownBefore(plan, before) == 0
    ensures !CanReach(plan, Start(plan, before), BelowGoal(plan.replicas - plan.unavailable))
            <==> if plan.unavailable >= 1 then Secured(plan, before)
                 else plan.replicas == 1 || forall s <- Initial(plan, before) :: s.updated
  {
    var r, init := Start(plan, before), Initial(plan, before);
    InvAtStart(plan, before);
    StartMeaning(plan, before);
    if plan.unavailable >= 1 {
      AvailabilityExactly(plan, before);
    } else if plan.replicas == 1 || forall s <- init :: s.updated {
      forall trace, events | IsRun(plan, trace, events) && trace[0] == r
        ensures Available(trace[|trace| - 1]) >= plan.replicas
      {
        NothingReplaced(plan, before, trace, events);
      }
    } else {
      var i :| 0 <= i < |init| && !init[i].updated;
      assert r.pods[..r.partition][i] == r.pods[i];
      FallsBelow(plan, r);
    }
  }

  lemma NothingReplaced(plan: Plan, before: Rollout, trace: seq<Rollout>, events: seq<Event>)
    requires ValidPlan(plan) && 1 <= plan.replicas <= |before.pods| && plan.unavailable == 0
               && DownBefore(plan, before) == 0
    requires IsRun(plan, trace, events) && trace[0] == Start(plan, before)
    requires plan.replicas == 1 || forall s <- Initial(plan, before) :: s.updated
    ensures Available(trace[|trace| - 1]) >= plan.replicas
  {
    var init, last := Initial(plan, before), trace[|trace| - 1];
    InvAtStart(plan, before);
    StartMeaning(plan, before);
    StartServing(plan, before);
    RunKeepsInv(plan, init, trace, events, |trace| - 1);
    if !init[0].updated && plan.replicas == 1 {
      SoloNeverMoves(plan, init, trace, events, |trace| - 1);
    }
    forall i | 0 <= i < plan.replicas ensures last.pods[i].ready {
      assert init[i] in init;
    }
    CountSplit(Ready, last.pods, plan.replicas);
    CountAll(Ready, last.pods[..plan.replicas]);
  }

  /**
   With a new revision it holds exactly if something may be unavailable or there is one replica, which then is
   never updated.
   */
  lemma NewRevisionBoundExactly(plan: Plan, before: Rollout)
    requires ValidPlan(plan) && 1 <= plan.replicas <= |before.pods| && NewRevision(before)
               && DownBefore(plan, before) == 0
    ensures !CanReach(plan, Start(plan, before), BelowGoal(plan.replicas - plan.unavailable))
            <==> plan.unavailable >= 1 || plan.replicas == 1
  {
    DocumentedBoundExactly(plan, before);
    NewRevisionCovered(plan, before);
    CoveredExactly(plan, before);
    AvailabilityExactly(plan, before);
    assert Initial(plan, before)[0] in Initial(plan, before);
  }

  // ---------- Taking a rollout back ----------

  /**
   Taking a rollout back half-way keeps the bound exactly if no more were let go than may be missing,
   or so many that no surge replica is given back on account of those never replaced.
   */
  lemma TakenBackAvailableExactly(plan: Plan, r: Rollout)
    requires ValidPlan(plan) && 1 <= plan.replicas && HalfWay(plan, r)
    ensures !CanReach(plan, Start(plan, TakenBack(r)), BelowGoal(Promised(plan, plan.replicas)))
            <==> || r.partition >= Promised(plan, plan.replicas)
                 || r.partition + Peak(plan) + 1 - 2 * plan.replicas
                   <= plan.replicas - plan.unavailable - Promised(plan, plan.replicas)
  {
    var init := Initial(plan, TakenBack(r));
    TakenBackMeaning(plan, r);
    CountNone(NotReady, init);
    CoveredExactly(plan, TakenBack(r));
    HalfWayCoveredExactly(plan, init, r.partition);
  }

  lemma HalfWayCoveredExactly(plan: Plan, init: seq<ReplicaState>, p: nat)
    requires ValidPlan(plan) && 1 <= plan.replicas == |init| && p <= |init|
    requires forall i :: 0 <= i < |init| ==> (init[i].updated <==> i < p)
    ensures Covered(plan, init)
            <==> || p >= Promised(plan, plan.replicas)
                 || p + Peak(plan) + 1 - 2 * plan.replicas
                    <= plan.replicas - plan.unavailable - Promised(plan, plan.replicas)
  {
    CarriedHalfWay(init, p, 0);
    CarriedHalfWay(init, p, Target(plan, |init|) - EarlyRelease(plan, init));
    hide CarriedFrom;
  }

  lemma CarriedHalfWay(init: seq<ReplicaState>, p: nat, k: int)
    requires p <= |init| && k <= |init|
    requires forall i :: 0 <= i < |init| ==> (init[i].updated <==> i < p)
    ensures CarriedFrom(init, k) == NonZeroValue(p - NonZeroValue(k))
  {
    var from := NonZeroValue(k);
    CountSuffix(Updated, init, from, if from <= p then p else from);
    CountAll(Updated, init[from..if from <= p then p else from]);
    CountNone(Updated, init[if from <= p then p else from..]);
  }

  /**
   Three serving replicas, a new revision, maxSurge 2, maxUnavailable 1: two replicas are replaced and the surge
   is gone.
   */
  lemma HalfWayReached()
    ensures CanReach(Plan(3, 2, 1), Start(Plan(3, 2, 1), Rollout(0, [SERVING_OLD, SERVING_OLD, SERVING_OLD])),
                     AtGoal(Rollout(1, [SERVING_OLD, FINISHED, FINISHED])))
  {
    var plan, before := Plan(3, 2, 1), Rollout(0, [SERVING_OLD, SERVING_OLD, SERVING_OLD]);
    var goal := Rollout(1, [SERVING_OLD, FINISHED, FINISHED]);
    StartMeaning(plan, before);
    var first := Start(plan, before);
    assert first == Rollout(3, [SERVING_OLD, SERVING_OLD, SERVING_OLD, MISSING, MISSING]);
    hide Start;
    HalfWayStepsDown(plan);
    HalfWayGivesBack(plan);
    var surged := Settle(first, 4, 5);
    var lowered := Rollout(1, surged.pods);
    var replaced := Settle(lowered, 1, 3);
    assert surged == Rollout(3, [SERVING_OLD, SERVING_OLD, SERVING_OLD, MISSING, FINISHED]);
    assert replaced == Rollout(1, [SERVING_OLD, FINISHED, FINISHED, MISSING, FINISHED]);
    hide Settle, Reconciled;
    ReachedAlready(plan, goal, AtGoal(goal));
    PrependStep(plan, replaced, Reconcile, AtGoal(goal));
    SettleFirst(plan, lowered, 1, 3, AtGoal(goal));
    PrependStep(plan, surged, Reconcile, AtGoal(goal));
    SettleFirst(plan, first, 4, 5, AtGoal(goal));
  }

  /** The one finished surge pod lets two replicas go. */
  lemma HalfWayStepsDown(plan: Plan)
    requires plan == Plan(3, 2, 1)
    ensures var pods := [SERVING_OLD, SERVING_OLD, SERVING_OLD, MISSING, FINISHED];
            Reconciled(plan, Rollout(3, pods)) == Rollout(1, pods)
  {
    var r := Rollout(3, [SERVING_OLD, SERVING_OLD, SERVING_OLD, MISSING, FINISHED]);
    CountNone(Done, r.pods[..3]);
    TailStep(plan, r, 1, 1);
    OneReconcile(plan, r, Rollout(1, r.pods));
  }

  /** Once they are finished the surge is given back. */
  lemma HalfWayGivesBack(plan: Plan)
    requires plan == Plan(3, 2, 1)
    ensures Reconciled(plan, Rollout(1, [SERVING_OLD, FINISHED, FINISHED, MISSING, FINISHED]))
            == Rollout(1, [SERVING_OLD, FINISHED, FINISHED])
  {
    var r := Rollout(1, [SERVING_OLD, FINISHED, FINISHED, MISSING, FINISHED]);
    OneMissing(plan, r, 0);
    TailStep(plan, r, 1, 1);
    OneReconcile(plan, r, Rollout(1, [SERVING_OLD, FINISHED, FINISHED]));
  }

  lemma OneReconcile(plan: Plan, r: Rollout, next: Rollout)
    requires ValidPlan(plan) && plan.replicas < |r.pods|
    requires next.partition == RollingPartition(r.pods, plan.unavailable + |r.pods| - plan.replicas, r.partition)
    requires |next.pods| == WantReplicas(plan.replicas, plan.surge, NonZeroValue(plan.replicas - BaseDone(plan, r)))
    requires |next.pods| <= |r.pods| && next.pods == r.pods[..|next.pods|]
    ensures Reconciled(plan, r) == next
  {
    ReconciledMeaning(plan, r);
    RoleUnreadyMeaning(plan, r);
    UnfinishedBound(plan, r);
  }

  /** Taken back from there, only one replica may be left serving. */
  lemma TakenBackFallsShort()
    ensures var halfWay := Rollout(1, [SERVING_OLD, FINISHED, FINISHED]);
            CanReach(Plan(3, 2, 1), Start(Plan(3, 2, 1), TakenBack(halfWay)), BelowGoal(2))
  {
    TakenBackAvailableExactly(Plan(3, 2, 1), Rollout(1, [SERVING_OLD, FINISHED, FINISHED]));
  }
}
