/**
 A role resized while its rollout is under way: exactly which resizes still let the rollout finish.
 Until the resize is taken up the annotation holds the size the rollout was made for.
 */
module ResizedRollouts {
  import opened Wrappers
  import opened Counting
  import opened RollingUpdate
  import opened RolloutRuns
  import opened RolloutProgress

  /** A rollout and the role size its StatefulSet is annotated with. */
  datatype Resizing = Resizing(roleSize: nat, rollout: Rollout)

  predicate CanStep(plan: Plan, x: Resizing, e: Event) {
    if e.Reconcile? then x.roleSize <= |x.rollout.pods| else Enabled(plan, x.rollout, e)
  }

  function StepResizing(plan: Plan, x: Resizing, e: Event): Resizing
    requires CanStep(plan, x, e)
  {
    if e.Reconcile? then ReconciledResizing(plan, x) else x.(rollout := Apply(plan, x.rollout, e))
  }

  function ReconciledResizing(plan: Plan, x: Resizing): Resizing
    requires x.roleSize <= |x.rollout.pods|
  {
    var r := x.rollout;
    match NextFor(plan, Sts(|r.pods|, r.partition, Some(x.roleSize)), true, Ok(r.pods))
    case Ok(Sts(size, partition, Some(roleSize))) => Resizing(roleSize, Rollout(partition, Resize(r.pods, size)))
    case _ => x
  }

  predicate IsResizedRun(plan: Plan, trace: seq<Resizing>, events: seq<Event>) {
    && |trace| == |events| + 1
    && forall i :: 0 <= i < |events| ==>
         CanStep(plan, trace[i], events[i]) && trace[i + 1] == StepResizing(plan, trace[i], events[i])
  }

  ghost predicate CanStillFinish(plan: Plan, x: Resizing) {
    exists trace: seq<Resizing>, events :: IsResizedRun(plan, trace, events) && trace[0] == x
                            && Finished(plan, trace[|trace| - 1].rollout)
  }

  // ---------- Once the resize is taken up ----------

  /** From then on the reconciles are those of an ordinary rollout. */
  lemma {:induction false} ReconciledAlike(plan: Plan, r: Rollout)
    requires plan.replicas <= |r.pods|
    ensures ReconciledResizing(plan, Resizing(plan.replicas, r)) == Resizing(plan.replicas, Reconciled(plan, r))
  {
    hide RollingPartition, RoleUnready, WantReplicas;
  }

  function Lifted(plan: Plan, trace: seq<Rollout>): seq<Resizing> {
    seq(|trace|, i requires 0 <= i < |trace| => Resizing(plan.replicas, trace[i]))
  }

  lemma RunLifted(plan: Plan, trace: seq<Rollout>, events: seq<Event>)
    requires IsRun(plan, trace, events)
    ensures IsResizedRun(plan, Lifted(plan, trace), events)
  {
    forall i | 0 <= i < |events|
      ensures var x := Lifted(plan, trace)[i];
              CanStep(plan, x, events[i]) && Lifted(plan, trace)[i + 1] == StepResizing(plan, x, events[i])
    {
      assert Enabled(plan, trace[i], events[i]) && trace[i + 1] == Apply(plan, trace[i], events[i]);
      if events[i] == Reconcile {
        ReconciledAlike(plan, trace[i]);
      }
    }
  }

  lemma FinishThrough(plan: Plan, x: Resizing, r: Rollout)
    requires x.roleSize <= |x.rollout.pods| && ReconciledResizing(plan, x) == Resizing(plan.replicas, r)
               && CanFinish(plan, r)
    ensures CanStillFinish(plan, x)
  {
    var trace, events :| IsRun(plan, trace, events) && trace[0] == r && FinishedGoal(plan)(trace[|trace| - 1]);
    var rest := Lifted(plan, trace);
    RunLifted(plan, trace, events);
    var trace', events' := [x] + rest, [Reconcile] + events;
    forall i | 0 <= i < |events'|
      ensures CanStep(plan, trace'[i], events'[i]) && trace'[i + 1] == StepResizing(plan, trace'[i], events'[i])
    {
      if i > 0 {
        assert events'[i] == events[i - 1] && trace'[i] == rest[i - 1] && trace'[i + 1] == rest[i];
      }
    }
    assert IsResizedRun(plan, trace', events') && trace'[|trace'| - 1] == rest[|rest| - 1];
  }

  // ---------- The reconcile that takes it up ----------

  /** The StatefulSet already has the role's new size, so the resize is never taken up. */
  predicate Unnoticed(plan: Plan, x: Resizing) {
    |x.rollout.pods| == plan.replicas && x.rollout.partition <= plan.replicas + plan.surge
  }

  function Resized(plan: Plan, r: Rollout): Rollout {
    Rollout(Min(r.partition, plan.replicas + plan.surge),
            Resize(r.pods, WantReplicas(plan.replicas, plan.surge, RoleUnready(r.pods, plan.replicas))))
  }

  lemma TakenUp(plan: Plan, x: Resizing)
    requires x.roleSize <= |x.rollout.pods| && x.roleSize != plan.replicas && 1 <= x.rollout.partition
    ensures ReconciledResizing(plan, x)
            == if Unnoticed(plan, x) then x else Resizing(plan.replicas, Resized(plan, x.rollout))
  {
    hide RoleUnready, WantReplicas, RollingPartition;
    var r := x.rollout;
    assert Resize(r.pods, |r.pods|) == r.pods;
  }

  /** The pods that stay count as before, and those that are new are unfinished. */
  lemma ResizedSized(plan: Plan, r: Rollout)
    requires 1 <= plan.replicas && plan.surge <= plan.replicas
    ensures var r' := Resized(plan, r);
            && plan.replicas <= |r'.pods|
            && |r'.pods| == WantReplicas(plan.replicas, plan.surge, plan.replicas - BaseDone(plan, r'))
  {
    var r', n := Resized(plan, r), plan.replicas;
    RoleUnreadyMeaning(plan, r');
    var base := r'.pods[..n];
    if n <= |r.pods| {
      assert base == r.pods[..n];
      UnreadyIsNotDone(base);
    } else {
      assert base[..|r.pods|] == r.pods;
      CountSplit(NotDone, base, |r.pods|);
      CountAll(NotDone, base[|r.pods|..]);
    }
  }

  // ---------- Resizes that cannot finish ----------

  /** All the new size's replicas are finished but one old one below the partition, and there is no surge. */
  predicate LastOldKept(plan: Plan, x: Resizing, i: nat) {
    var r := x.rollout;
    && plan.unavailable == 0 && i < r.partition && i < plan.replicas <= |r.pods| && x.roleSize <= |r.pods|
    && !r.pods[i].updated && (forall k :: 0 <= k < plan.replicas && k != i ==> Done(r.pods[k]))
    && (x.roleSize == plan.replicas ==> |r.pods| == plan.replicas)
  }

  lemma LastOldStays(plan: Plan, x: Resizing, e: Event, i: nat)
    requires ValidPlan(plan) && LastOldKept(plan, x, i) && CanStep(plan, x, e)
    ensures LastOldKept(plan, StepResizing(plan, x, e), i)
  {
    if e.Reconcile? {
      if x.roleSize == plan.replicas {
        ReconciledAlike(plan, x.rollout);
        LastOldNotPassed(plan, x.rollout, i);
      } else {
        TakenUp(plan, x);
        LastOldResized(plan, x.rollout, i);
      }
    }
  }

  lemma LastOldNotPassed(plan: Plan, r: Rollout, i: nat)
    requires ValidPlan(plan) && plan.unavailable == 0 && i < r.partition && i < plan.replicas == |r.pods|
    requires !r.pods[i].updated && forall k :: 0 <= k < plan.replicas && k != i ==> Done(r.pods[k])
    ensures i < Reconciled(plan, r).partition && Reconciled(plan, r).pods == r.pods
  {
    ReconciledMeaning(plan, r);
    RoleUnreadyMeaning(plan, r);
    AllButOne(plan, r.pods, i);
    TailCountMeaning(r.pods);
    PartitionFloor(plan, r);
    assert r.pods[..plan.replicas] == r.pods;
  }

  lemma AllButOne(plan: Plan, pods: seq<ReplicaState>, i: nat)
    requires i < plan.replicas <= |pods| && !Done(pods[i])
    requires forall k :: 0 <= k < plan.replicas && k != i ==> Done(pods[k])
    ensures RoleUnready(pods, plan.replicas) == 1
  {
    var base := pods[..plan.replicas];
    CountSplit(NotDone, base, i);
    CountSuffix(NotDone, base, i, i + 1);
    CountNone(NotDone, base[..i]);
    CountNone(NotDone, base[i + 1..]);
    assert base[i..i + 1] == [pods[i]];
    CountAll(NotDone, [pods[i]]);
  }

  lemma LastOldResized(plan: Plan, r: Rollout, i: nat)
    requires ValidPlan(plan) && plan.unavailable == 0 && i < r.partition && i < plan.replicas <= |r.pods|
    requires !r.pods[i].updated && forall k :: 0 <= k < plan.replicas && k != i ==> Done(r.pods[k])
    ensures i < Resized(plan, r).partition && Resized(plan, r).pods == r.pods[..plan.replicas]
  {
    AllButOne(plan, r.pods, i);
  }

  /** If the resized rollout does not move, it kept just one old replica and all surge is gone. */
  lemma NotMovingKeptOne(plan: Plan, x: Resizing) returns (i: nat)
    requires ValidPlan(plan) && 1 <= plan.replicas && !Moves(plan, Resized(plan, x.rollout))
               && x.roleSize <= |x.rollout.pods|
    requires x.roleSize != plan.replicas && x.rollout.partition <= |x.rollout.pods|
    ensures LastOldKept(plan, x, i)
  {
    var r, n := x.rollout, plan.replicas;
    var r' := Resized(plan, r);
    ResizedSized(plan, r);
    UnfinishedBound(plan, r');
    i :| 0 <= i < r'.partition && i < |r'.pods| && !r'.pods[i].updated;
    BaseOthersDone(plan, r', i);
    assert n <= |r.pods|;
  }

  /** Nothing the pods or the reconciler do will end the rollout. */
  ghost predicate Doomed(plan: Plan, x: Resizing) {
    || (Unnoticed(plan, x) && x.roleSize != plan.replicas && x.roleSize <= |x.rollout.pods| && 1 <= x.rollout.partition)
    || exists i :: LastOldKept(plan, x, i)
  }

  lemma DoomedStays(plan: Plan, x: Resizing, e: Event)
    requires ValidPlan(plan) && Doomed(plan, x) && CanStep(plan, x, e)
    ensures Doomed(plan, StepResizing(plan, x, e))
  {
    if i :| LastOldKept(plan, x, i) {
      LastOldStays(plan, x, e, i);
    } else if e.Reconcile? {
      TakenUp(plan, x);
    }
  }

  lemma {:induction false} DoomedRun(plan: Plan, trace: seq<Resizing>, events: seq<Event>, k: nat)
    requires ValidPlan(plan) && IsResizedRun(plan, trace, events) && Doomed(plan, trace[0]) && k < |trace|
    ensures Doomed(plan, trace[k]) && !Finished(plan, trace[k].rollout)
  {
    if k > 0 {
      DoomedRun(plan, trace, events, k - 1);
      DoomedStays(plan, trace[k - 1], events[k - 1]);
    }
  }

  // ---------- Exactly ----------

  predicate ResizedUntangled(plan: Plan, r: Rollout) {
    plan.replicas <= |Resized(plan, r).pods| ==> Untangled(plan, Resized(plan, r))
  }

  /** In particular if the rollout is to a new revision. */
  lemma NewRevisionUntangled(plan: Plan, r: Rollout)
    requires ValidPlan(plan) && 1 <= plan.replicas && r.partition <= |r.pods|
    requires forall i :: 0 <= i < r.partition ==> !r.pods[i].updated
    ensures ResizedUntangled(plan, r)
  {
    var r', n := Resized(plan, r), plan.replicas;
    ResizedSized(plan, r);
    if n < r'.partition {
      CountAll(Old, r'.pods[..n]);
    }
  }

  /**
   A rollout under way can still finish after its role was resized exactly if the resize is noticed
   at all, and if nothing may be unavailable it leaves some surge or nothing old below the partition.
   */
  lemma ResizeFinishesExactly(plan: Plan, x: Resizing)
    requires ValidPlan(plan) && x.roleSize != plan.replicas && x.roleSize <= |x.rollout.pods|
    requires 1 <= x.rollout.partition <= |x.rollout.pods| && ResizedUntangled(plan, x.rollout)
    ensures CanStillFinish(plan, x) <==> !Unnoticed(plan, x) && Moves(plan, Resized(plan, x.rollout))
  {
    var r := x.rollout;
    if Unnoticed(plan, x) {
      NeverFinishes(plan, x);
    } else if Moves(plan, Resized(plan, r)) {
      if plan.replicas == 0 {
        ReachedAlready(plan, Resized(plan, r), FinishedGoal(plan));
      } else {
        ResizedSized(plan, r);
        MovingCanFinish(plan, Resized(plan, r));
      }
      TakenUp(plan, x);
      FinishThrough(plan, x, Resized(plan, r));
    } else {
      var i := NotMovingKeptOne(plan, x);
      NeverFinishes(plan, x);
    }
  }

  lemma NeverFinishes(plan: Plan, x: Resizing)
    requires ValidPlan(plan) && Doomed(plan, x)
    ensures !CanStillFinish(plan, x)
  {
    forall trace: seq<Resizing>, events | IsResizedRun(plan, trace, events) && trace[0] == x
      ensures !Finished(plan, trace[|trace| - 1].rollout)
    {
      DoomedRun(plan, trace, events, |trace| - 1);
    }
  }
}
