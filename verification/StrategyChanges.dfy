/**
 A strategy changed while a rollout is under way: exactly which changes still let it finish. The
 plan is the new strategy's; the rollout may have come about under any other.
 */
module StrategyChanges {
  import opened Counting
  import opened RollingUpdate
  import opened PartitionBounds
  import opened RolloutRuns
  import opened RolloutProgress
  import opened StuckRollouts

  /**
   The pod in front of the partition carries the target revision, so the partition can move without
   a step; and two pods below that one are unfinished, so that the move asks for surge.
   */
  predicate BringsSurge(r: Rollout)
    requires r.partition <= |r.pods|
  {
    1 <= r.partition && r.pods[r.partition - 1].updated && CountIf(NotDone, r.pods[..r.partition - 1]) >= 2
  }

  // ---------- A move that brings surge ----------

  /**
   Everything above the last unfinished pod below the partition is finished: the partition comes down to it,
   with surge.
   */
  lemma SurgeBrought(plan: Plan, r: Rollout, f: nat)
    requires ValidPlan(plan) && plan.unavailable == 0 && 1 <= plan.replicas == |r.pods|
    requires 1 <= f < r.partition <= plan.replicas && !Done(r.pods[f - 1]) && CountIf(NotDone, r.pods[..f]) >= 2
    requires forall i :: f <= i < r.partition ==> r.pods[i].updated
    ensures var next := Reconciled(plan, Settle(r, f, |r.pods|));
            next.partition == f && plan.replicas < |next.pods|
  {
    var ready := Settle(r, f, |r.pods|);
    assert ready.pods[..f] == r.pods[..f];
    ReconciledMeaning(plan, ready);
    CountSplit(NotDone, ready.pods, f);
    assert ready.pods[..plan.replicas] == ready.pods;
    MovesToTail(ready, f);
  }

  /** Without a step the partition comes down to the finished tail if that lies below it. */
  lemma MovesToTail(r: Rollout, f: nat)
    requires 1 <= f < r.partition <= |r.pods| && !Done(r.pods[f - 1])
    requires forall i :: f <= i < |r.pods| ==> Done(r.pods[i])
    ensures RollingPartition(r.pods, 0, r.partition) == f
  {
    TailCountMeaning(r.pods);
    TailCountLongest(r.pods, f);
    BoundaryMeaning(r.pods, 0);
    var top := f + UnavailableBelow(r.pods, 0);
    assert Clear(r.pods, f, top);
  }

  lemma BroughtSurgeFinishes(plan: Plan, r: Rollout)
    requires ValidPlan(plan) && plan.unavailable == 0 && Fits(plan, r) && r.partition <= plan.replicas == |r.pods|
    requires BringsSurge(r)
    ensures CanFinish(plan, r)
  {
    var below := r.pods[..r.partition - 1];
    var last := LastOf(NotDone, below);
    var f := last + 1;
    LastOfAbove(below, last);
    assert forall i :: 0 <= i < |below| ==> below[i] == r.pods[i];
    assert below[..f] == r.pods[..f];
    SurgeBrought(plan, r, f);
    var ready := Settle(r, f, |r.pods|);
    MovingCanFinish(plan, Reconciled(plan, ready));
    PrependStep(plan, ready, Reconcile, FinishedGoal(plan));
    SettleFirst(plan, r, f, |r.pods|, FinishedGoal(plan));
  }

  /** Behind the last unfinished pod of a sequence all are finished; up to it all the unfinished are. */
  lemma {:induction false} LastOfAbove(s: seq<ReplicaState>, last: nat)
    requires last < |s| && NotDone(s[last]) && CountIf(NotDone, s[..last]) == CountIf(NotDone, s) - 1
    ensures forall i :: last < i < |s| ==> Done(s[i])
    ensures CountIf(NotDone, s[..last + 1]) == CountIf(NotDone, s)
  {
    var rest := s[last + 1..];
    CountSplit(NotDone, s, last + 1);
    assert s[..last + 1][..last] == s[..last];
    CountNone(NotDone, rest);
    forall i | last < i < |s| ensures Done(s[i]) {
      assert s[i] == rest[i - last - 1] && rest[i - last - 1] in rest;
    }
  }

  // ---------- Strategies that leave the rollout standing ----------

  /** No surge, an old pod below the partition, and no move that brings surge. */
  predicate Standing(plan: Plan, r: Rollout, x: nat) {
    && plan.unavailable == 0 && x < r.partition <= plan.replicas == |r.pods| && Old(r.pods[x]) && !BringsSurge(r)
  }

  lemma PodStepKeepsStanding(plan: Plan, r: Rollout, next: Rollout, x: nat)
    requires Standing(plan, r, x) && PodStep(r, next)
    ensures Standing(plan, next, x)
  {
    var q := r.partition - 1;
    CountPointwise(NotDone, next.pods[..q], r.pods[..q]);
  }

  lemma ReconcileKeepsStanding(plan: Plan, r: Rollout, x: nat)
    requires ValidPlan(plan) && 1 <= plan.replicas && Standing(plan, r, x)
    ensures Standing(plan, Reconciled(plan, r), x)
  {
    ReconciledMeaning(plan, r);
    PartitionFloor(plan, r);
    var next := Reconciled(plan, r);
    hide Reconciled, RollingPartition;
    if next.partition < r.partition {
      MovedPast(plan, r, x);
      assert next.pods == r.pods && x < next.partition;
      ShorterFront(r, next, x);
    } else {
      assert next.pods == r.pods;
    }
  }

  lemma ShorterFront(r: Rollout, next: Rollout, x: nat)
    requires x < next.partition < r.partition <= |r.pods| && next.pods == r.pods && r.pods[r.partition - 1].updated
    requires !BringsSurge(r)
    ensures !BringsSurge(next)
  {
    CountSlice(NotDone, r.pods, next.partition - 1, r.partition - 1);
  }

  /** If the partition can move at all, only the old pod is unfinished, so no surge is asked for and it stops above. */
  lemma MovedPast(plan: Plan, r: Rollout, x: nat)
    requires Standing(plan, r, x) && |r.pods| - TailCount(r.pods) < r.partition
    ensures r.pods[r.partition - 1].updated && x < |r.pods| - TailCount(r.pods)
    ensures RoleUnready(r.pods, plan.replicas) == 1
  {
    TailCountMeaning(r.pods);
    var q := r.partition - 1;
    assert Done(r.pods[q]) && x < q;
    var below := r.pods[..q];
    assert forall i :: 0 <= i < q ==> below[i] == r.pods[i];
    OnlyUnfinished(below, x);
    AllButOneDone(plan, r, x);
  }

  lemma {:induction false} OnlyUnfinished(s: seq<ReplicaState>, x: nat)
    requires x < |s| && NotDone(s[x]) && CountIf(NotDone, s) <= 1
    ensures forall i :: 0 <= i < |s| && i != x ==> Done(s[i])
  {
    forall i | 0 <= i < |s| && i != x ensures Done(s[i]) {
      if !Done(s[i]) {
        CountTwo(NotDone, s, if i < x then i else x, if i < x then x else i);
      }
    }
  }

  lemma AllButOneDone(plan: Plan, r: Rollout, x: nat)
    requires x < plan.replicas == |r.pods| && !Done(r.pods[x])
    requires forall i :: 0 <= i < |r.pods| && i != x ==> Done(r.pods[i])
    ensures RoleUnready(r.pods, plan.replicas) == 1
  {
    OneMissing(plan, r, x);
    RoleUnreadyMeaning(plan, r);
  }

  lemma {:induction false} StandingRun(plan: Plan, trace: seq<Rollout>, events: seq<Event>, k: nat, x: nat)
    requires ValidPlan(plan) && 1 <= plan.replicas && IsRun(plan, trace, events) && k < |trace|
               && Standing(plan, trace[0], x)
    ensures Standing(plan, trace[k], x)
  {
    if k > 0 {
      StandingRun(plan, trace, events, k - 1, x);
      if events[k - 1] == Reconcile {
        ReconcileKeepsStanding(plan, trace[k - 1], x);
      } else {
        EventIsPodStep(plan, trace[k - 1], events[k - 1]);
        PodStepKeepsStanding(plan, trace[k - 1], trace[k], x);
      }
    }
  }

  // ---------- Exactly ----------

  /**
   Whatever strategy a rollout came about under, with the plan's it can finish exactly if something
   may be unavailable, some surge is there, nothing old is below the partition, or a move of the
   partition past a pod on the target revision brings surge.
   */
  lemma StrategyChangeFinishesExactly(plan: Plan, r: Rollout)
    requires ValidPlan(plan) && 1 <= plan.replicas <= |r.pods| && r.partition <= plan.replicas
    ensures CanFinish(plan, r) <==> Moves(plan, r) || BringsSurge(r)
  {
    if Moves(plan, r) {
      MovingCanFinish(plan, r);
    } else if BringsSurge(r) {
      BroughtSurgeFinishes(plan, r);
    } else {
      var x :| 0 <= x < r.partition && x < |r.pods| && !r.pods[x].updated;
      forall trace, events | IsRun(plan, trace, events) && trace[0] == r
        ensures !FinishedGoal(plan)(trace[|trace| - 1])
      {
        StandingRun(plan, trace, events, |trace| - 1, x);
      }
    }
  }

  /** Surge can come back into a rollout begun without: five replicas, two replaced, then maxSurge 2. */
  lemma SurgeAddedUnderWay()
    ensures var serving, done := ReplicaState(false, true), ReplicaState(true, true);
            var r := Reconciled(Plan(5, 2, 1), Rollout(3, [serving, serving, serving, done, done]));
            r.partition == 2 && |r.pods| == 7
  {
    var serving, done := ReplicaState(false, true), ReplicaState(true, true);
    var r, plan := Rollout(3, [serving, serving, serving, done, done]), Plan(5, 2, 1);
    ReconciledMeaning(plan, r);
    RoleUnreadyMeaning(plan, r);
    TailCountMeaning(r.pods);
    TailCountLongest(r.pods, 3);
    assert !Done(r.pods[2]) && TailCount(r.pods) == 2;
    SettledBoundary(plan, r);
    CountSplit(Done, r.pods, 3);
    CountNone(Done, r.pods[..3]);
    assert r.pods[..5] == r.pods;
  }
}
