/**
 Progress of rollouts: what a reconcile gains once the pods have come as far as they get, what runs
 can reach, and exactly which rollouts can finish.
 */
module RolloutProgress {
  import opened Counting
  import opened RollingUpdate
  import opened PartitionBounds
  import opened RolloutRuns

  /** Every pod the partition lets through is finished. */
  predicate Quiescent(r: Rollout) {
    r.partition <= |r.pods| && forall i :: r.partition <= i < |r.pods| ==> Done(r.pods[i])
  }

  predicate Finished(plan: Plan, r: Rollout) { r.partition == 0 && |r.pods| == plan.replicas }

  /**
   Exactly when a reconcile at a quiescent state gets on, whatever the pods below the partition are
   like: the next pod to go is finished, or the step reaches below the partition and either the
   unready pods there leave some of it over or the next pod is itself unready.
   */
  lemma QuiescentProgressExactly(plan: Plan, r: Rollout)
    requires 1 <= r.partition <= |r.pods| && plan.replicas <= |r.pods| && Quiescent(r)
    ensures var step, next := plan.unavailable + |r.pods| - plan.replicas, r.pods[r.partition - 1];
            RollingPartition(r.pods, step, r.partition) < r.partition
            <==> Done(next) || (0 < step && (UnavailableBelow(r.pods, step) < r.partition - StepPartition(r.pods, step)
                                             || !next.ready))
  {
    if Done(r.pods[r.partition - 1]) {
      DonePodPassed(plan, r);
    } else {
      OldPodPassedExactly(plan, r);
    }
  }

  lemma DonePodPassed(plan: Plan, r: Rollout)
    requires 1 <= r.partition <= |r.pods| && plan.replicas <= |r.pods| && Quiescent(r) && Done(r.pods[r.partition - 1])
    ensures RollingPartition(r.pods, plan.unavailable + |r.pods| - plan.replicas, r.partition) < r.partition
  {
    var step, p := plan.unavailable + |r.pods| - plan.replicas, r.partition;
    BoundaryMeaning(r.pods, step);
    TailCountLongest(r.pods, p - 1);
    var top := StepPartition(r.pods, step) + UnavailableBelow(r.pods, step);
    if p <= top {
      assert Clear(r.pods, p - 1, top);
    }
  }

  lemma OldPodPassedExactly(plan: Plan, r: Rollout)
    requires 1 <= r.partition <= |r.pods| && plan.replicas <= |r.pods| && Quiescent(r) && !Done(r.pods[r.partition - 1])
    ensures var step := plan.unavailable + |r.pods| - plan.replicas;
            RollingPartition(r.pods, step, r.partition) < r.partition
            <==> 0 < step && (UnavailableBelow(r.pods, step) < r.partition - StepPartition(r.pods, step)
                              || !r.pods[r.partition - 1].ready)
  {
    var step, p := plan.unavailable + |r.pods| - plan.replicas, r.partition;
    TailCountLongest(r.pods, p);
    TailCountMeaning(r.pods);
    assert TailCount(r.pods) == |r.pods| - p;
    BoundaryMeaning(r.pods, step);
    var top := StepPartition(r.pods, step) + UnavailableBelow(r.pods, step);
    if 0 < step && p <= top {
      if !r.pods[p - 1].ready {
        assert Clear(r.pods, p - 1, top);
      } else {
        assert !Passable(r.pods[p - 1]);
      }
    }
  }

  /** Every pod serves, and those the partition lets through are finished. */
  predicate Settled(r: Rollout) {
    forall i :: 0 <= i < |r.pods| ==> r.pods[i].ready && (r.partition <= i ==> r.pods[i].updated)
  }

  /**
   At a settled state a reconcile lowers a positive partition exactly if it has a step at all, or the next pod
   is on target.
   */
  lemma SettledLowersExactly(plan: Plan, r: Rollout)
    requires 1 <= r.partition <= |r.pods| && plan.replicas <= |r.pods| && Settled(r)
    ensures RollingPartition(r.pods, plan.unavailable + |r.pods| - plan.replicas, r.partition) < r.partition
            <==> 0 < plan.unavailable + |r.pods| - plan.replicas || r.pods[r.partition - 1].updated
  {
    var step := plan.unavailable + |r.pods| - plan.replicas;
    TailCountLongest(r.pods, r.partition);
    NoneUnready(r.pods[..StepPartition(r.pods, step)]);
    QuiescentProgressExactly(plan, r);
  }

  lemma {:induction false} NoneUnready(s: seq<ReplicaState>)
    requires forall i :: 0 <= i < |s| ==> s[i].ready
    ensures CountIf(NotReady, s) == 0
  {
    if s != [] {
      NoneUnready(s[..|s| - 1]);
    }
  }

  /**
   With none unready below it the step partition is the boundary; it lies below the last unfinished pod if there
   is a step.
   */
  lemma SettledBoundary(plan: Plan, r: Rollout)
    requires plan.replicas <= |r.pods|
    requires forall i :: 0 <= i < |r.pods| ==> r.pods[i].ready
    ensures var step := plan.unavailable + |r.pods| - plan.replicas;
            RollingPartition(r.pods, step, r.partition) == Min(StepPartition(r.pods, step), r.partition)
  {
    var step := plan.unavailable + |r.pods| - plan.replicas;
    NoneUnready(r.pods[..StepPartition(r.pods, step)]);
    BoundaryMeaning(r.pods, step);
  }

  /** With just the last t pods finished, and everything serving below where that leads, it leads there. */
  lemma TailStep(plan: Plan, r: Rollout, t: nat, q: nat)
    requires r.partition <= plan.replicas <= |r.pods| - t - 1
    requires forall i :: |r.pods| - t <= i < |r.pods| ==> Done(r.pods[i])
    requires !Done(r.pods[|r.pods| - t - 1])
    requires q == NonZeroValue(plan.replicas - plan.unavailable - t) && q <= r.partition
    requires forall i :: 0 <= i < q ==> r.pods[i].ready
    ensures RollingPartition(r.pods, plan.unavailable + |r.pods| - plan.replicas, r.partition) == q
  {
    var step := plan.unavailable + |r.pods| - plan.replicas;
    TailCountMeaning(r.pods);
    TailCountLongest(r.pods, |r.pods| - t);
    assert TailCount(r.pods) == t;
    NoneUnready(r.pods[..q]);
    BoundaryMeaning(r.pods, step);
  }

  // ---------- The measure ----------

  function Measure(plan: Plan, r: Rollout): nat { r.partition + if plan.replicas < |r.pods| then 1 else 0 }

  lemma MeasureNeverRises(plan: Plan, init: seq<ReplicaState>, r: Rollout, e: Event)
    requires ValidPlan(plan) && Inv(plan, init, r) && Enabled(plan, r, e)
    ensures Measure(plan, Apply(plan, r, e)) <= Measure(plan, r)
  {
    ReconciledMeaning(plan, r);
    RoleUnreadyMeaning(plan, r);
    PartitionFloor(plan, r);
  }

  /** No pod below the partition is left to replace. */
  predicate NoneOldBelow(r: Rollout) { forall i :: 0 <= i < r.partition && i < |r.pods| ==> r.pods[i].updated }

  /**
   The next reconcile is sure to get on: something may be unavailable, there is surge left, or nothing is left
   to replace.
   */
  predicate Moves(plan: Plan, r: Rollout) {
    1 <= plan.unavailable || plan.replicas < |r.pods| || NoneOldBelow(r)
  }

  predicate Old(s: ReplicaState) { !s.updated }

  predicate Fits(plan: Plan, r: Rollout) { 1 <= plan.replicas <= |r.pods| && plan.surge <= plan.replicas }

  /**
   The partition is within the role's size, or it is not the case that just one role replica is old
   and a surge pod the partition holds back is old too. It can only be above after the role shrank.
   */
  predicate Untangled(plan: Plan, r: Rollout)
    requires plan.replicas <= |r.pods|
  {
    || r.partition <= plan.replicas
    || CountIf(Old, r.pods[..plan.replicas]) != 1
    || forall i :: plan.replicas <= i < |r.pods| && i < r.partition ==> r.pods[i].updated
  }

  /** Size and partition are within the plan, the size no smaller than the unfinished replicas ask for. */
  predicate Sized(plan: Plan, r: Rollout) {
    && 1 <= plan.replicas <= |r.pods| && plan.surge <= plan.replicas && r.partition <= plan.replicas
    && WantReplicas(plan.replicas, plan.surge, plan.replicas - BaseDone(plan, r)) <= |r.pods|
  }

  lemma ReconcileKeepsSized(plan: Plan, r: Rollout)
    requires ValidPlan(plan) && Sized(plan, r)
    ensures Sized(plan, Reconciled(plan, r))
  {
    ReconciledMeaning(plan, r);
    RoleUnreadyMeaning(plan, r);
    PartitionFloor(plan, r);
    assert Reconciled(plan, r).pods[..plan.replicas] == r.pods[..plan.replicas];
  }

  lemma {:induction false} CountFull(s: seq<ReplicaState>)
    requires CountIf(Done, s) == |s|
    ensures forall i :: 0 <= i < |s| ==> Done(s[i])
  {
    if s != [] {
      CountFull(s[..|s| - 1]);
    }
  }

  /** If all but one are finished and i is not, the others are. */
  lemma {:induction false} OthersDone(s: seq<ReplicaState>, i: nat)
    requires i < |s| && !Done(s[i]) && CountIf(Done, s) >= |s| - 1
    ensures forall k :: 0 <= k < |s| && k != i ==> Done(s[k])
  {
    var front := s[..|s| - 1];
    if i == |s| - 1 || !Done(s[|s| - 1]) {
      CountFull(front);
    } else {
      OthersDone(front, i);
    }
  }

  /** At a settled state that can move, a reconcile lowers the partition, or at 0 it gives all surge back. */
  lemma SettledGetsOn(plan: Plan, r: Rollout)
    requires ValidPlan(plan) && Fits(plan, r) && Settled(r) && !Finished(plan, r) && Moves(plan, r)
               && Untangled(plan, r)
    ensures var next := Reconciled(plan, r);
            && Fits(plan, next) && next.partition <= plan.replicas && Moves(plan, next)
            && (if r.partition > 0 then next.partition < r.partition
                else next.partition == 0 && |next.pods| == plan.replicas < |r.pods|)
  {
    ReconciledMeaning(plan, r);
    RoleUnreadyMeaning(plan, r);
    SettledBoundary(plan, r);
    if r.partition > 0 {
      SettledLowers(plan, r);
      SettledKeepsMoving(plan, r);
    } else {
      AllDone(r.pods[..plan.replicas]);
    }
  }

  lemma SettledLowers(plan: Plan, r: Rollout)
    requires plan.replicas <= |r.pods| && Settled(r) && Moves(plan, r) && 1 <= r.partition
    ensures RollingPartition(r.pods, plan.unavailable + |r.pods| - plan.replicas, r.partition) < r.partition
  {
    SettledBoundary(plan, r);
    TailCountMeaning(r.pods);
  }

  /** The surge is not used up before all old pods have been let go. */
  lemma SettledKeepsMoving(plan: Plan, r: Rollout)
    requires ValidPlan(plan) && Fits(plan, r) && Settled(r) && Moves(plan, r) && Untangled(plan, r) && r.partition > 0
    ensures Moves(plan, Reconciled(plan, r))
  {
    var next := Reconciled(plan, r);
    ReconciledMeaning(plan, r);
    RoleUnreadyMeaning(plan, r);
    SettledLowers(plan, r);
    if |next.pods| == plan.replicas && plan.unavailable == 0 {
      UnfinishedBound(plan, r);
      assert BaseDone(plan, r) >= plan.replicas - 1;
      SettledBoundary(plan, r);
      assert next.pods == r.pods[..plan.replicas];
      hide RollingPartition, Reconciled, BaseDone, WantReplicas, Untangled, Fits;
      LastReleasePassesAll(plan, r, next);
    }
  }

  lemma LastReleasePassesAll(plan: Plan, r: Rollout, next: Rollout)
    requires Fits(plan, r) && Settled(r) && Moves(plan, r) && Untangled(plan, r) && plan.unavailable == 0
    requires BaseDone(plan, r) >= plan.replicas - 1 && next.pods == r.pods[..plan.replicas]
    requires next.partition < r.partition
    requires next.partition == Min(StepPartition(r.pods, |r.pods| - plan.replicas), r.partition)
    ensures NoneOldBelow(next)
  {
    if |r.pods| > plan.replicas {
      TailCountMeaning(r.pods);
      var last := |r.pods| - 1 - TailCount(r.pods);
      forall i | 0 <= i < next.partition && i < plan.replicas ensures r.pods[i].updated {
        if !r.pods[i].updated {
          OneOld(plan, r, i);
          assert i < last;
          BaseOthersDone(plan, r, i);
          assert false;
        }
      }
    }
  }

  /** At a settled state with one role replica unfinished at most, an old one is the only one. */
  lemma OneOld(plan: Plan, r: Rollout, i: nat)
    requires plan.replicas <= |r.pods| && Settled(r) && BaseDone(plan, r) >= plan.replicas - 1
    requires i < plan.replicas && !r.pods[i].updated
    ensures CountIf(Old, r.pods[..plan.replicas]) == 1
  {
    var base := r.pods[..plan.replicas];
    BaseOthersDone(plan, r, i);
    assert base[i] == r.pods[i];
    CountSplit(Old, base, i);
    CountSuffix(Old, base, i, i + 1);
    CountNone(Old, base[..i]);
    CountNone(Old, base[i + 1..]);
    assert base[i..i + 1] == [r.pods[i]];
    CountAll(Old, [r.pods[i]]);
  }

  lemma SettledProgress(plan: Plan, r: Rollout)
    requires ValidPlan(plan) && Sized(plan, r) && Settled(r) && !Finished(plan, r) && Moves(plan, r)
    ensures Measure(plan, Reconciled(plan, r)) < Measure(plan, r)
    ensures Moves(plan, Reconciled(plan, r))
  {
    ReconciledMeaning(plan, r);
    RoleUnreadyMeaning(plan, r);
    SettledGetsOn(plan, r);
  }

  lemma BaseOthersDone(plan: Plan, r: Rollout, i: nat)
    requires i < plan.replicas <= |r.pods| && !Done(r.pods[i]) && BaseDone(plan, r) >= plan.replicas - 1
    ensures forall k :: 0 <= k < plan.replicas && k != i ==> Done(r.pods[k])
  {
    OthersDone(r.pods[..plan.replicas], i);
    assert forall k :: 0 <= k < plan.replicas ==> r.pods[..plan.replicas][k] == r.pods[k];
  }

  // ---------- What runs can reach ----------

  /** Some run from r comes to a state of that kind. */
  ghost predicate CanReach(plan: Plan, r: Rollout, goal: Rollout -> bool) {
    exists trace, events :: IsRun(plan, trace, events) && trace[0] == r && goal(trace[|trace| - 1])
  }

  lemma ReachedAlready(plan: Plan, r: Rollout, goal: Rollout -> bool)
    requires goal(r)
    ensures CanReach(plan, r, goal)
  {
    assert IsRun(plan, [r], []) && [r][0] == r;
  }

  lemma PrependStep(plan: Plan, r: Rollout, e: Event, goal: Rollout -> bool)
    requires Enabled(plan, r, e) && CanReach(plan, Apply(plan, r, e), goal)
    ensures CanReach(plan, r, goal)
  {
    var trace, events :| IsRun(plan, trace, events) && trace[0] == Apply(plan, r, e) && goal(trace[|trace| - 1]);
    var trace', events' := [r] + trace, [e] + events;
    forall i | 0 <= i < |events'|
      ensures Enabled(plan, trace'[i], events'[i]) && trace'[i + 1] == Apply(plan, trace'[i], events'[i])
    {
      if i > 0 {
        assert events'[i] == events[i - 1] && trace'[i] == trace[i - 1] && trace'[i + 1] == trace[i];
      }
    }
    assert IsRun(plan, trace', events');
    assert trace'[|trace'| - 1] == trace[|trace| - 1];
  }

  /**
   What becomes of a pod left to itself: it serves, on the target revision if the partition lets it or it
   carried it.
   */
  function SettledPod(r: Rollout, i: nat): ReplicaState
    requires i < |r.pods|
  {
    ReplicaState(r.partition <= i || r.pods[i].updated, true)
  }

  /** The pods from i up to k left to themselves. */
  function Settle(r: Rollout, i: nat, k: nat): (r': Rollout)
    requires i <= k <= |r.pods|
    ensures |r'.pods| == |r.pods|
  {
    r.(pods := seq(|r.pods|, j requires 0 <= j < |r.pods| => if i <= j < k then SettledPod(r, j) else r.pods[j]))
  }

  /** Replace, create, become ready: one pod is driven there. */
  lemma SettleOne(plan: Plan, r: Rollout, i: nat, goal: Rollout -> bool)
    requires i < |r.pods| && CanReach(plan, r.(pods := r.pods[i := SettledPod(r, i)]), goal)
    ensures CanReach(plan, r, goal)
  {
    var settled := r.(pods := r.pods[i := SettledPod(r, i)]);
    if r.pods[i] == SettledPod(r, i) {
      assert settled == r;
    } else if i < r.partition {
      assert Apply(plan, r, BecomeReady(i)) == settled;
      PrependStep(plan, r, BecomeReady(i), goal);
    } else {
      var down := if r.pods[i].ready then Apply(plan, r, Replace(i)) else r;
      var created := Apply(plan, down, Create(i));
      assert Apply(plan, created, BecomeReady(i)) == settled;
      PrependStep(plan, created, BecomeReady(i), goal);
      PrependStep(plan, down, Create(i), goal);
      if r.pods[i].ready {
        PrependStep(plan, r, Replace(i), goal);
      }
    }
  }

  lemma {:induction false} SettleFirst(plan: Plan, r: Rollout, i: nat, k: nat, goal: Rollout -> bool)
    requires i <= k <= |r.pods| && CanReach(plan, Settle(r, i, k), goal)
    ensures CanReach(plan, r, goal)
    decreases k
  {
    if i == k {
      assert Settle(r, i, i) == r;
    } else {
      var before := Settle(r, i, k - 1);
      assert before.(pods := before.pods[k - 1 := SettledPod(before, k - 1)]) == Settle(r, i, k);
      SettleOne(plan, before, k - 1, goal);
      SettleFirst(plan, r, i, k - 1, goal);
    }
  }

  lemma SettleKeepsSized(plan: Plan, r: Rollout)
    requires Sized(plan, r)
    ensures Sized(plan, Settle(r, 0, |r.pods|)) && Settled(Settle(r, 0, |r.pods|))
  {
    var n, settled := plan.replicas, Settle(r, 0, |r.pods|);
    CountPointwise(Done, r.pods[..n], settled.pods[..n]);
  }

  // ---------- Exactly which rollouts can finish ----------

  function FinishedGoal(plan: Plan): Rollout -> bool { r => Finished(plan, r) }

  ghost predicate CanFinish(plan: Plan, r: Rollout) { CanReach(plan, r, FinishedGoal(plan)) }

  /** A single old replica with maxUnavailable 0: its surge replica is released before it is made. */
  lemma {:induction false} SoloNeverMoves(plan: Plan, init: seq<ReplicaState>, trace: seq<Rollout>,
                                          events: seq<Event>, k: nat)
    requires ValidPlan(plan) && plan.replicas == 1 && plan.unavailable == 0
    requires |init| == 1 && !init[0].updated
    requires IsRun(plan, trace, events) && Inv(plan, init, trace[0]) && trace[0].partition == 1 && k < |trace|
    ensures trace[k].partition == 1 == |trace[k].pods|
  {
    RunKeepsInv(plan, init, trace, events, k);
    if k > 0 {
      SoloNeverMoves(plan, init, trace, events, k - 1);
      var r := trace[k - 1];
      RunKeepsInv(plan, init, trace, events, k - 1);
      ReconciledMeaning(plan, r);
      assert TailCount(r.pods) == 0;
      BoundaryMeaning(r.pods, 0);
    }
  }

  lemma SettleKeepsUntangled(plan: Plan, r: Rollout)
    requires Fits(plan, r) && Moves(plan, r) && Untangled(plan, r)
    ensures var settled := Settle(r, 0, |r.pods|);
            Fits(plan, settled) && Moves(plan, settled) && Untangled(plan, settled) && Settled(settled)
  {
    var n, settled := plan.replicas, Settle(r, 0, |r.pods|);
    if n < r.partition {
      CountPointwise(Old, r.pods[..n], settled.pods[..n]);
      CountPointwise(Old, settled.pods[..n], r.pods[..n]);
    }
  }

  lemma {:induction false} MovingCanFinish(plan: Plan, r: Rollout)
    requires ValidPlan(plan) && Fits(plan, r) && Moves(plan, r) && Untangled(plan, r)
    ensures CanFinish(plan, r)
    decreases r.partition, |r.pods| > plan.replicas
  {
    var settled := Settle(r, 0, |r.pods|);
    SettleKeepsUntangled(plan, r);
    if Finished(plan, settled) {
      ReachedAlready(plan, settled, FinishedGoal(plan));
    } else {
      SettledGetsOn(plan, settled);
      MovingCanFinish(plan, Reconciled(plan, settled));
      PrependStep(plan, settled, Reconcile, FinishedGoal(plan));
    }
    SettleFirst(plan, r, 0, |r.pods|, FinishedGoal(plan));
  }

  /**
   A rollout can finish unless the role has one replica, its pod is there on an old revision and
   none may be unavailable; then no run ever replaces that pod, whatever the surge.
   */
  lemma CanFinishExactly(plan: Plan, before: Rollout)
    requires ValidPlan(plan)
    ensures CanFinish(plan, Start(plan, before))
            <==> !(plan.replicas == 1 && plan.unavailable == 0 && before.pods != [] && !before.pods[0].updated)
  {
    var r, init := Start(plan, before), Initial(plan, before);
    StartMeaning(plan, before);
    if plan.replicas == 0 {
      ReachedAlready(plan, r, FinishedGoal(plan));
    } else {
      InvAtStart(plan, before);
      if Moves(plan, r) {
        MovingCanFinish(plan, r);
      } else {
        forall trace, events | IsRun(plan, trace, events) && trace[0] == r
          ensures !Finished(plan, trace[|trace| - 1])
        {
          SoloNeverMoves(plan, init, trace, events, |trace| - 1);
        }
      }
    }
  }
}
