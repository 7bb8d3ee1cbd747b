/**
 Rollouts that come to a standstill: exactly which ones some run leads there, and that all others
 take a bounded number of rounds.
 */
module StuckRollouts {
  import opened Counting
  import opened RollingUpdate
  import opened PartitionBounds
  import opened RolloutRuns
  import opened RolloutProgress

  /** Unfinished, every pod as far as it gets, and a reconcile changes nothing: nothing ever will. */
  predicate Stuck(plan: Plan, r: Rollout)
    requires plan.replicas <= |r.pods|
  {
    Settled(r) && !Finished(plan, r) && Reconciled(plan, r) == r
  }

  lemma StuckForever(plan: Plan, r: Rollout, e: Event)
    requires plan.replicas <= |r.pods| && Stuck(plan, r) && Enabled(plan, r, e)
    ensures Apply(plan, r, e) == r
  {
  }

  function StuckGoal(plan: Plan): Rollout -> bool { (r: Rollout) => plan.replicas <= |r.pods| && Stuck(plan, r) }

  /**
   While a surge replica is unfinished the partition stays above or at this ordinal, if nothing may be
   unavailable.
   */
  function HeldBack(plan: Plan): int { 2 * plan.replicas + 1 - Peak(plan) }

  /**
   Nothing may be unavailable, some replica there to begin with is old, and at most one old replica
   is among those a single unfinished surge replica holds back. Then all replicas but one can be
   finished while a surge replica is not, and the surge is given back before it was of use.
   */
  predicate CanStick(plan: Plan, init: seq<ReplicaState>)
    requires 1 <= plan.replicas
  {
    && plan.unavailable == 0
    && (exists s <- init :: Old(s))
    && CountIf(Old, init[..Min(|init|, HeldBack(plan))]) <= 1
  }

  // ---------- Counting two ----------

  lemma CountTwo<T>(p: T -> bool, s: seq<T>, i: nat, k: nat)
    requires i < k < |s| && p(s[i]) && p(s[k])
    ensures CountIf(p, s) >= 2
  {
    CountSplit(p, s, k);
    CountNone(p, s[..k]);
    CountNone(p, s[k..]);
    assert s[..k][i] == s[i] && s[k..][0] == s[k];
  }

  /** The last element that satisfies the predicate. */
  lemma {:induction false} LastOf<T>(p: T -> bool, s: seq<T>) returns (k: nat)
    requires CountIf(p, s) >= 1
    ensures k < |s| && p(s[k]) && CountIf(p, s[..k]) == CountIf(p, s) - 1
  {
    k := |s| - 1;
    if !p(s[k]) {
      k := LastOf(p, s[..|s| - 1]);
      assert s[..|s| - 1][..k] == s[..k];
    }
  }

  lemma {:induction false} TwoOf<T>(p: T -> bool, s: seq<T>) returns (i: nat, k: nat)
    requires CountIf(p, s) >= 2
    ensures i < k < |s| && p(s[i]) && p(s[k])
  {
    k := LastOf(p, s);
    i := LastOf(p, s[..k]);
  }

  // ---------- What cannot stick ----------

  /** With one unfinished role replica, and that one below the partition, all the surge is finished. */
  lemma SurgeFinishedByThen(plan: Plan, init: seq<ReplicaState>, r: Rollout, i: nat)
    requires ValidPlan(plan) && Inv(plan, init, r) && plan.unavailable == 0
    requires CountIf(Old, init[..Min(|init|, HeldBack(plan))]) >= 2
    requires i < r.partition && Old(r.pods[i]) && BaseDone(plan, r) >= plan.replicas - 1
    ensures SurgeDone(plan, r) == |r.pods| - plan.replicas
  {
    BaseOthersDone(plan, r, i);
    var front := init[..Min(|init|, HeldBack(plan))];
    var x1, x2 := TwoOf(Old, front);
    assert front[x1] == init[x1] && front[x2] == init[x2];
    assert r.partition <= x2;
    UnfinishedBound(plan, r);
  }

  /** Then the reconcile that gives the last surge replica back also lets that replica go. */
  lemma LastOldPassed(plan: Plan, r: Rollout, i: nat)
    requires plan.unavailable == 0 && i < r.partition <= plan.replicas < |r.pods| && Old(r.pods[i])
    requires forall k :: 0 <= k < |r.pods| && k != i ==> Done(r.pods[k])
    ensures RollingPartition(r.pods, plan.unavailable + |r.pods| - plan.replicas, r.partition) <= i
  {
    var step := plan.unavailable + |r.pods| - plan.replicas;
    TailCountMeaning(r.pods);
    TailCountLongest(r.pods, i + 1);
    assert TailCount(r.pods) == |r.pods| - 1 - i;
    NoneUnready(r.pods[..StepPartition(r.pods, step)]);
    BoundaryMeaning(r.pods, step);
  }

  lemma ReconcileKeepsMoving(plan: Plan, init: seq<ReplicaState>, r: Rollout)
    requires ValidPlan(plan) && Inv(plan, init, r) && Moves(plan, r) && !CanStick(plan, init)
    ensures Moves(plan, Reconciled(plan, r))
  {
    var r', n := Reconciled(plan, r), plan.replicas;
    ReconciledMeaning(plan, r);
    RoleUnreadyMeaning(plan, r);
    PartitionFloor(plan, r);
    if plan.unavailable == 0 && |r'.pods| == n < |r.pods| {
      forall i | 0 <= i < r'.partition ensures r'.pods[i].updated {
        if !r.pods[i].updated {
          OldOutlastsSurge(plan, init, r, i);
          assert false;
        }
      }
    }
  }

  /**
   An old replica that was one below the partition from the start is let go before the last surge replica is
   given back.
   */
  lemma OldOutlastsSurge(plan: Plan, init: seq<ReplicaState>, r: Rollout, i: nat)
    requires ValidPlan(plan) && Inv(plan, init, r) && !CanStick(plan, init) && plan.unavailable == 0
    requires plan.replicas < |r.pods| && |Reconciled(plan, r).pods| == plan.replicas
    requires i < r.partition && Old(r.pods[i])
    ensures Reconciled(plan, r).partition <= i
  {
    ReconciledMeaning(plan, r);
    RoleUnreadyMeaning(plan, r);
    assert Old(init[i]) && init[i] in init;
    SurgeFinishedByThen(plan, init, r, i);
    BaseOthersDone(plan, r, i);
    CountFull(r.pods[plan.replicas..]);
    assert forall k :: plan.replicas <= k < |r.pods| ==> r.pods[k] == r.pods[plan.replicas..][k - plan.replicas];
    LastOldPassed(plan, r, i);
  }

  lemma {:induction false} RunKeepsMoving(plan: Plan, init: seq<ReplicaState>, trace: seq<Rollout>,
                                          events: seq<Event>, k: nat)
    requires ValidPlan(plan) && IsRun(plan, trace, events) && Inv(plan, init, trace[0]) && k < |trace|
    requires Moves(plan, trace[0]) && !CanStick(plan, init)
    ensures Inv(plan, init, trace[k]) && Moves(plan, trace[k])
  {
    if k > 0 {
      RunKeepsMoving(plan, init, trace, events, k - 1);
      RunKeepsInv(plan, init, trace, events, k);
      if events[k - 1] == Reconcile {
        ReconcileKeepsMoving(plan, init, trace[k - 1]);
      } else {
        EventIsPodStep(plan, trace[k - 1], events[k - 1]);
      }
    }
  }

  lemma StartMoves(plan: Plan, before: Rollout)
    requires ValidPlan(plan) && 1 <= plan.replicas && !CanStick(plan, Initial(plan, before))
    ensures Moves(plan, Start(plan, before))
  {
    StartMeaning(plan, before);
    var init := Initial(plan, before);
    if plan.unavailable == 0 && plan.replicas == 1 {
      forall i | 0 <= i < |init| ensures init[i].updated {
        assert init[i] in init;
      }
    }
  }

  // ---------- Rounds ----------

  /** How many of the first k steps were reconciles at a settled, unfinished state. */
  function SettledRounds(plan: Plan, trace: seq<Rollout>, events: seq<Event>, k: nat): nat
    requires k <= |events| < |trace|
  {
    if k == 0 then 0
    else SettledRounds(plan, trace, events, k - 1)
         + if events[k - 1] == Reconcile && Settled(trace[k - 1]) && !Finished(plan, trace[k - 1]) then 1 else 0
  }

  lemma {:induction false} RoundsSpendMeasure(plan: Plan, init: seq<ReplicaState>, trace: seq<Rollout>,
                                              events: seq<Event>, k: nat)
    requires ValidPlan(plan) && IsRun(plan, trace, events) && k <= |events| && Inv(plan, init, trace[0])
    requires Moves(plan, trace[0]) && !CanStick(plan, init)
    ensures SettledRounds(plan, trace, events, k) + Measure(plan, trace[k]) <= Measure(plan, trace[0])
  {
    if k > 0 {
      RoundsSpendMeasure(plan, init, trace, events, k - 1);
      var r, e := trace[k - 1], events[k - 1];
      RunKeepsMoving(plan, init, trace, events, k - 1);
      MeasureNeverRises(plan, init, r, e);
      if e == Reconcile && Settled(r) && !Finished(plan, r) {
        SettledProgress(plan, r);
      }
    }
  }

  /**
   Unless the rollout can stick no run reconciles more than once for each replica it began with,
   and once more, at a settled state before it is finished.
   */
  lemma RoundsBounded(plan: Plan, before: Rollout, trace: seq<Rollout>, events: seq<Event>)
    requires ValidPlan(plan) && 1 <= plan.replicas && !CanStick(plan, Initial(plan, before))
    requires IsRun(plan, trace, events) && trace[0] == Start(plan, before)
    ensures SettledRounds(plan, trace, events, |events|) <= FirstPartition(plan, before) + 1
  {
    InvAtStart(plan, before);
    StartMoves(plan, before);
    RoundsSpendMeasure(plan, Initial(plan, before), trace, events, |events|);
  }

  // ---------- What can stick ----------

  /** Without surge, all finished but one old replica: the partition comes down to that replica and stays. */
  lemma FullSizeStep(plan: Plan, r: Rollout, x: nat)
    requires ValidPlan(plan) && plan.unavailable == 0 && x < r.partition <= plan.replicas == |r.pods|
               && HealthyOld(r.pods[x])
    requires forall k :: 0 <= k < |r.pods| && k != x ==> Done(r.pods[k])
    ensures Reconciled(plan, r) == Rollout(x + 1, r.pods)
  {
    ReconciledMeaning(plan, r);
    RoleUnreadyMeaning(plan, r);
    TailCountMeaning(r.pods);
    TailCountLongest(r.pods, x + 1);
    assert TailCount(r.pods) == |r.pods| - 1 - x;
    SettledBoundary(plan, r);
    OneMissing(plan, r, x);
  }

  lemma OneMissing(plan: Plan, r: Rollout, x: nat)
    requires x < plan.replicas <= |r.pods| && !Done(r.pods[x])
    requires forall k :: 0 <= k < plan.replicas && k != x ==> Done(r.pods[k])
    ensures BaseDone(plan, r) == plan.replicas - 1
  {
    var base := r.pods[..plan.replicas];
    assert forall k :: 0 <= k < plan.replicas ==> base[k] == r.pods[k];
    AllDoneButOne(base, x);
  }

  lemma AllDoneButOne(s: seq<ReplicaState>, x: nat)
    requires x < |s| && !Done(s[x]) && forall k :: 0 <= k < |s| && k != x ==> Done(s[k])
    ensures CountIf(Done, s) == |s| - 1
  {
    var front, rest := s[..x], s[x + 1..];
    CountSplit(Done, s, x);
    CountSuffix(Done, s, x, x + 1);
    assert forall k :: 0 <= k < |front| ==> front[k] == s[k];
    assert forall k :: 0 <= k < |rest| ==> rest[k] == s[x + 1 + k];
    AllDone(front);
    AllDone(rest);
    assert s[x..x + 1] == [s[x]];
    CountNone(Done, [s[x]]);
  }

  lemma FullSizeGetsStuck(plan: Plan, r: Rollout, x: nat)
    requires ValidPlan(plan) && plan.unavailable == 0 && x < r.partition <= plan.replicas == |r.pods|
               && HealthyOld(r.pods[x])
    requires forall k :: 0 <= k < |r.pods| && k != x ==> Done(r.pods[k])
    ensures CanReach(plan, r, StuckGoal(plan))
  {
    var low := Rollout(x + 1, r.pods);
    FullSizeStep(plan, r, x);
    FullSizeStep(plan, low, x);
    assert StuckGoal(plan)(low);
    ReachedAlready(plan, low, StuckGoal(plan));
    PrependStep(plan, r, Reconcile, StuckGoal(plan));
  }

  /** One old replica is left below the partition and surge replica k is not finished. */
  predicate OneOldLeft(plan: Plan, r: Rollout, x: nat, k: nat) {
    && x < r.partition <= plan.replicas <= k < |r.pods| && |r.pods| - 1 - k < plan.replicas - x
    && (forall i :: 0 <= i < r.partition ==> (Old(r.pods[i]) <==> i == x))
    && !Done(r.pods[k])
  }

  /**
   The other role replicas are finished, and the reconcile gives the surge back without letting the old replica
   go.
   */
  lemma OneOldStep(plan: Plan, r: Rollout, x: nat, k: nat)
    requires ValidPlan(plan) && plan.unavailable == 0 && OneOldLeft(plan, r, x, k)
    ensures var settled := Settle(r, 0, plan.replicas);
            var next := Reconciled(plan, settled);
            && x < next.partition <= plan.replicas && next.pods == settled.pods[..plan.replicas]
  {
    var settled, n := Settle(r, 0, plan.replicas), plan.replicas;
    ReconciledMeaning(plan, settled);
    RoleUnreadyMeaning(plan, settled);
    PartitionFloor(plan, settled);
    assert !Done(settled.pods[k]) && Old(settled.pods[x]);
    TailWithinSurge(settled.pods, n, k);
    OneMissing(plan, settled, x);
  }

  lemma OneOldGetsStuck(plan: Plan, r: Rollout, x: nat, k: nat)
    requires ValidPlan(plan) && plan.unavailable == 0 && OneOldLeft(plan, r, x, k)
    ensures CanReach(plan, r, StuckGoal(plan))
  {
    var settled := Settle(r, 0, plan.replicas);
    var next := Reconciled(plan, settled);
    OneOldStep(plan, r, x, k);
    assert settled.pods[x] == ReplicaState(false, true);
    FullSizeGetsStuck(plan, next, x);
    PrependStep(plan, settled, Reconcile, StuckGoal(plan));
    SettleFirst(plan, r, 0, plan.replicas, StuckGoal(plan));
  }

  /** No surge replica is finished on the target revision when the rollout begins. */
  predicate SurgeUnfinished(plan: Plan, before: Rollout) {
    forall i :: plan.replicas <= i < |before.pods| ==> !Done(before.pods[i])
  }

  /** The first two old replicas, if there are two. */
  lemma FirstOld(s: seq<ReplicaState>) returns (x: nat)
    requires exists t <- s :: Old(t)
    ensures x < |s| && Old(s[x]) && forall i :: 0 <= i < x ==> !Old(s[i])
  {
    x := 0;
    while !Old(s[x])
      invariant x < |s| && forall i :: 0 <= i < x ==> !Old(s[i])
      decreases |s| - x
    {
      if x == |s| - 1 {
        assert false;
      }
      x := x + 1;
    }
  }

  /** Two old replicas or more: the surge is finished so far that the partition sinks just to the second. */
  function SurgePart(plan: Plan, r: Rollout, x2: nat): (ready: Rollout)
    requires x2 <= plan.replicas && r.partition <= plan.replicas <= |r.pods| - (plan.replicas - x2)
    ensures |ready.pods| == |r.pods| && ready.partition == r.partition
  {
    Settle(Settle(r, |r.pods| - (plan.replicas - x2), |r.pods|), 0, r.partition)
  }

  lemma SecondOldStep(plan: Plan, r: Rollout, x1: nat, x2: nat)
    requires ValidPlan(plan) && 1 <= plan.replicas && plan.unavailable == 0
    requires x1 < x2 < r.partition <= plan.replicas && |r.pods| == Peak(plan) && HeldBack(plan) <= x2
    requires forall i :: plan.replicas <= i < |r.pods| ==> !Done(r.pods[i])
    requires Old(r.pods[x1]) && Old(r.pods[x2])
    ensures var next := Reconciled(plan, SurgePart(plan, r, x2));
            && next.partition == x2 && plan.replicas < |next.pods| <= |r.pods|
            && next.pods == SurgePart(plan, r, x2).pods[..|next.pods|]
  {
    var ready, n := SurgePart(plan, r, x2), plan.replicas;
    ReconciledMeaning(plan, ready);
    RoleUnreadyMeaning(plan, ready);
    SurgePartMeaning(plan, r, x1, x2);
    hide SurgePart, BaseDone;
    TailStep(plan, ready, n - x2, x2);
    hide RollingPartition;
  }

  lemma SurgePartMeaning(plan: Plan, r: Rollout, x1: nat, x2: nat)
    requires x1 < x2 < r.partition <= plan.replicas < |r.pods| - (plan.replicas - x2)
    requires !Done(r.pods[|r.pods| - (plan.replicas - x2) - 1])
    requires Old(r.pods[x1]) && Old(r.pods[x2])
    ensures var pods, t := SurgePart(plan, r, x2).pods, plan.replicas - x2;
            && (forall i :: |pods| - t <= i < |pods| ==> Done(pods[i])) && !Done(pods[|pods| - t - 1])
            && (forall i :: 0 <= i < x2 ==> pods[i].ready)
    ensures BaseDone(plan, SurgePart(plan, r, x2)) <= plan.replicas - 2
  {
    var base := SurgePart(plan, r, x2).pods[..plan.replicas];
    assert Old(base[x1]) && Old(base[x2]);
    UnreadyIsNotDone(base);
    CountTwo(NotDone, base, x1, x2);
  }

  lemma TwoOldGetStuck(plan: Plan, r: Rollout, x1: nat, x2: nat)
    requires ValidPlan(plan) && 1 <= plan.replicas && plan.unavailable == 0
    requires x1 < x2 < r.partition <= plan.replicas && |r.pods| == Peak(plan) && HeldBack(plan) <= x2
    requires forall i :: plan.replicas <= i < |r.pods| ==> !Done(r.pods[i])
    requires Old(r.pods[x2]) && forall i :: 0 <= i < x2 ==> (Old(r.pods[i]) <==> i == x1)
    ensures CanReach(plan, r, StuckGoal(plan))
  {
    var ready, t := SurgePart(plan, r, x2), plan.replicas - x2;
    var next := Reconciled(plan, ready);
    SecondOldStep(plan, r, x1, x2);
    SecondOldLeft(plan, r, x1, x2, next);
    hide SurgePart, Reconciled, OneOldLeft, StuckGoal, IsRun;
    OneOldGetsStuck(plan, next, x1, Min(|r.pods| - t, |next.pods|) - 1);
    PrependStep(plan, ready, Reconcile, StuckGoal(plan));
    SurgePartFirst(plan, r, x2, StuckGoal(plan));
  }

  lemma SurgePartFirst(plan: Plan, r: Rollout, x2: nat, goal: Rollout -> bool)
    requires x2 <= plan.replicas && r.partition <= plan.replicas <= |r.pods| - (plan.replicas - x2)
    requires CanReach(plan, SurgePart(plan, r, x2), goal)
    ensures CanReach(plan, r, goal)
  {
    var t := plan.replicas - x2;
    SettleFirst(plan, Settle(r, |r.pods| - t, |r.pods|), 0, r.partition, goal);
    SettleFirst(plan, r, |r.pods| - t, |r.pods|, goal);
  }

  lemma SecondOldLeft(plan: Plan, r: Rollout, x1: nat, x2: nat, next: Rollout)
    requires x1 < x2 < r.partition <= plan.replicas && |r.pods| == Peak(plan) && HeldBack(plan) <= x2
    requires forall i :: plan.replicas <= i < |r.pods| ==> !Done(r.pods[i])
    requires forall i :: 0 <= i < x2 ==> (Old(r.pods[i]) <==> i == x1)
    requires next.partition == x2 && plan.replicas < |next.pods| <= |r.pods|
    requires next.pods == SurgePart(plan, r, x2).pods[..|next.pods|]
    ensures OneOldLeft(plan, next, x1, Min(|r.pods| - (plan.replicas - x2), |next.pods|) - 1)
  {
    var k := Min(|r.pods| - (plan.replicas - x2), |next.pods|) - 1;
    assert next.pods[k] == r.pods[k];
    assert forall i :: 0 <= i < x2 ==> next.pods[i].updated == r.pods[i].updated;
  }

  lemma StartGetsStuck(plan: Plan, before: Rollout)
    requires ValidPlan(plan) && 1 <= plan.replicas && SurgeUnfinished(plan, before)
    requires CanStick(plan, Initial(plan, before))
    ensures CanReach(plan, Start(plan, before), StuckGoal(plan))
  {
    var r, init := Start(plan, before), Initial(plan, before);
    StartMeaning(plan, before);
    assert forall i :: 0 <= i < |init| ==> r.pods[i] == init[i];
    assert forall i :: plan.replicas <= i < |r.pods| ==> !Done(r.pods[i]);
    hide Start, Initial, SurgeUnfinished;
    RolloutGetsStuck(plan, r, init);
  }

  lemma RolloutGetsStuck(plan: Plan, r: Rollout, init: seq<ReplicaState>)
    requires ValidPlan(plan) && 1 <= plan.replicas && |init| == r.partition <= plan.replicas && |r.pods| == Peak(plan)
    requires forall i :: 0 <= i < |init| ==> r.pods[i] == init[i]
    requires forall i :: plan.replicas <= i < |r.pods| ==> !Done(r.pods[i])
    requires CanStick(plan, init)
    ensures CanReach(plan, r, StuckGoal(plan))
  {
    var x1 := FirstOld(init);
    var rest := init[x1 + 1..];
    assert forall i :: x1 < i < |init| ==> init[i] == rest[i - x1 - 1];
    hide StuckGoal, IsRun;
    if exists t <- rest :: Old(t) {
      var x := FirstOld(rest);
      var x2 := x1 + 1 + x;
      if x2 < HeldBack(plan) {
        CountTwo(Old, init[..Min(|init|, HeldBack(plan))], x1, x2);
      }
      TwoOldGetStuck(plan, r, x1, x2);
    } else {
      SingleOldGetsStuck(plan, r, x1);
    }
  }

  lemma SingleOldGetsStuck(plan: Plan, r: Rollout, x: nat)
    requires ValidPlan(plan) && 1 <= plan.replicas && plan.unavailable == 0
    requires x < r.partition <= plan.replicas <= |r.pods|
    requires forall i :: plan.replicas <= i < |r.pods| ==> !Done(r.pods[i])
    requires forall i :: 0 <= i < r.partition ==> (Old(r.pods[i]) <==> i == x)
    ensures CanReach(plan, r, StuckGoal(plan))
  {
    if |r.pods| == plan.replicas {
      FullSizeGetsStuck(plan, Settle(r, 0, plan.replicas), x);
      SettleFirst(plan, r, 0, plan.replicas, StuckGoal(plan));
    } else {
      OneOldGetsStuck(plan, r, x, |r.pods| - 1);
    }
  }

  // ---------- Exactly ----------

  lemma CannotGetStuck(plan: Plan, before: Rollout)
    requires ValidPlan(plan) && 1 <= plan.replicas && !CanStick(plan, Initial(plan, before))
    ensures !CanReach(plan, Start(plan, before), StuckGoal(plan))
  {
    var init := Initial(plan, before);
    InvAtStart(plan, before);
    StartMoves(plan, before);
    forall trace, events | IsRun(plan, trace, events) && trace[0] == Start(plan, before)
      ensures !StuckGoal(plan)(trace[|trace| - 1])
    {
      var last := trace[|trace| - 1];
      RunKeepsMoving(plan, init, trace, events, |trace| - 1);
      if Settled(last) && !Finished(plan, last) {
        SettledProgress(plan, last);
      }
    }
  }

  /** Exactly which rollouts some run gets stuck in, by which replicas are old when the rollout begins. */
  lemma GetsStuckExactly(plan: Plan, before: Rollout)
    requires ValidPlan(plan) && 1 <= plan.replicas && SurgeUnfinished(plan, before)
    ensures CanReach(plan, Start(plan, before), StuckGoal(plan)) <==> CanStick(plan, Initial(plan, before))
  {
    if CanStick(plan, Initial(plan, before)) {
      StartGetsStuck(plan, before);
    } else {
      CannotGetStuck(plan, before);
    }
  }

  /**
   With a new revision that is when one replica was there to begin with, as when a role of one
   replica grows together with its template.
   */
  lemma NewRevisionGetsStuckExactly(plan: Plan, before: Rollout)
    requires ValidPlan(plan) && 1 <= plan.replicas && NewRevision(before)
    ensures CanReach(plan, Start(plan, before), StuckGoal(plan))
            <==> plan.unavailable == 0 && FirstPartition(plan, before) == 1
  {
    var init := Initial(plan, before);
    GetsStuckExactly(plan, before);
    CountAll(Old, init[..Min(|init|, HeldBack(plan))]);
    if init != [] {
      assert Old(init[0]) && init[0] in init;
    }
  }

  // ---------- Taking a rollout back ----------

  /** The pods as they compare with the revision the rollout came from: those it did not replace are on it. */
  function TakenBack(r: Rollout): (r': Rollout)
    ensures |r'.pods| == |r.pods|
  {
    r.(pods := seq(|r.pods|, i requires 0 <= i < |r.pods| => r.pods[i].(updated := !r.pods[i].updated)))
  }

  /** A settled state of a rollout to a new revision: old pods below the partition, finished ones above. */
  predicate HalfWay(plan: Plan, r: Rollout) {
    && r.partition <= plan.replicas <= |r.pods| && Settled(r)
    && forall i :: 0 <= i < r.partition ==> !r.pods[i].updated
  }

  lemma {:induction false} CountFrom(p: ReplicaState -> bool, s: seq<ReplicaState>, k: nat)
    requires forall i :: 0 <= i < |s| ==> (p(s[i]) <==> k <= i)
    ensures CountIf(p, s) == NonZeroValue(|s| - k)
  {
    if s != [] {
      CountFrom(p, s[..|s| - 1], k);
    }
  }

  lemma TakenBackMeaning(plan: Plan, r: Rollout)
    requires ValidPlan(plan) && HalfWay(plan, r)
    ensures var init := Initial(plan, TakenBack(r));
            && |init| == plan.replicas && SurgeUnfinished(plan, TakenBack(r))
            && forall i :: 0 <= i < |init| ==> init[i] == ReplicaState(i < r.partition, true)
  {
  }

  /**
   Taking a rollout back half-way can get stuck exactly when nothing may be unavailable and the
   replicas let go so far are at least one, no more than the surge and, but for a single one, not all.
   */
  lemma TakenBackGetsStuckExactly(plan: Plan, r: Rollout)
    requires ValidPlan(plan) && 1 <= plan.replicas && HalfWay(plan, r)
    ensures CanReach(plan, Start(plan, TakenBack(r)), StuckGoal(plan))
            <==> plan.unavailable == 0 && plan.replicas - plan.surge <= r.partition < plan.replicas
                 && (1 <= r.partition || plan.replicas == 1)
  {
    var init := Initial(plan, TakenBack(r));
    TakenBackMeaning(plan, r);
    GetsStuckExactly(plan, TakenBack(r));
    CountFrom(Old, init[..Min(|init|, HeldBack(plan))], r.partition);
    if r.partition < plan.replicas {
      assert Old(init[r.partition]) && init[r.partition] in init;
    } else {
      assert forall t <- init :: !Old(t);
    }
  }

  const FINISHED := ReplicaState(true, true)

  function AtGoal(goal: Rollout): Rollout -> bool { r => r == goal }

  /** One reconcile at a settled state, by numbers. */
  lemma SettledStep(plan: Plan, r: Rollout, tail: nat, done: nat, p: nat)
    requires ValidPlan(plan) && plan.replicas <= |r.pods| && forall i :: 0 <= i < |r.pods| ==> r.pods[i].ready
    requires tail < |r.pods| && !r.pods[|r.pods| - 1 - tail].updated
    requires forall i :: |r.pods| - tail <= i < |r.pods| ==> r.pods[i].updated
    requires BaseDone(plan, r) == done <= plan.replicas
    requires p == NonZeroValue(plan.replicas - plan.unavailable - tail) < r.partition
    ensures Reconciled(plan, r)
            == Rollout(p, Resize(r.pods, WantReplicas(plan.replicas, plan.surge, plan.replicas - done)))
  {
    TailCountMeaning(r.pods);
    TailCountLongest(r.pods, |r.pods| - tail);
    assert TailCount(r.pods) == tail;
    SettledBoundary(plan, r);
    ReconciledMeaning(plan, r);
    RoleUnreadyMeaning(plan, r);
  }

  /**
   Three serving replicas, a new revision, maxSurge 1, maxUnavailable 0: the surge pod and one replica are
   replaced.
   */
  lemma HalfWayReached()
    ensures CanReach(Plan(3, 1, 0), Start(Plan(3, 1, 0), Rollout(0, [SERVING_OLD, SERVING_OLD, SERVING_OLD])),
                     AtGoal(Rollout(2, [SERVING_OLD, SERVING_OLD, FINISHED, FINISHED])))
  {
    var plan, before := Plan(3, 1, 0), Rollout(0, [SERVING_OLD, SERVING_OLD, SERVING_OLD]);
    var goal := Rollout(2, [SERVING_OLD, SERVING_OLD, FINISHED, FINISHED]);
    StartMeaning(plan, before);
    var first := Start(plan, before);
    assert first == Rollout(3, [SERVING_OLD, SERVING_OLD, SERVING_OLD, MISSING]);
    var surged := Settle(first, 3, 4);
    assert surged == Rollout(3, [SERVING_OLD, SERVING_OLD, SERVING_OLD, FINISHED]);
    CountNone(Done, surged.pods[..3]);
    SettledStep(plan, surged, 1, 0, 2);
    var lowered := Rollout(2, surged.pods);
    assert Reconciled(plan, surged) == lowered;
    assert Settle(lowered, 2, 4) == goal;
    hide Settle, Reconciled, Start;
    ReachedAlready(plan, goal, AtGoal(goal));
    SettleFirst(plan, lowered, 2, 4, AtGoal(goal));
    PrependStep(plan, surged, Reconcile, AtGoal(goal));
    SettleFirst(plan, first, 3, 4, AtGoal(goal));
  }

  /** Taken back from there, the rollout can get stuck. */
  lemma TakenBackGetsStuck()
    ensures var halfWay := Rollout(2, [SERVING_OLD, SERVING_OLD, FINISHED, FINISHED]);
            CanReach(Plan(3, 1, 0), Start(Plan(3, 1, 0), TakenBack(halfWay)), StuckGoal(Plan(3, 1, 0)))
  {
    TakenBackGetsStuckExactly(Plan(3, 1, 0), Rollout(2, [SERVING_OLD, SERVING_OLD, FINISHED, FINISHED]));
  }
}
