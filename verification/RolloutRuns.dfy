/**
 Whole rollouts: the reconcile step interleaved in any order with what the StatefulSet controller
 and the pods do. Pods do not fail on their own here; a pod goes down only because the controller
 replaces it, which it may do at or above the partition only.

 A rollout leads to the highest revision, the one the change of the template made so. Pods may carry
 that revision before the rollout begins: a change that takes back an earlier one leads to a
 revision that others still run, and then they count as updated from the start.
 */
module RolloutRuns {
  import opened Wrappers
  import opened Counting
  import opened RollingUpdate
  import opened PartitionBounds

  /**
   A StatefulSet in a rollout: the partition and one state per ordinal. For a pod that is down
   below the partition `updated` tells the revision it will come up on.
   */
  datatype Rollout = Rollout(partition: nat, pods: seq<ReplicaState>)

  /** Percentages are rounded up for the surge and down for what may be unavailable. */
  lemma ScaledRounding(n: nat, total: nat)
    ensures var up := Scaled(Percent(n), total, true).value;
            n * total <= 100 * up && (forall k: nat :: n * total <= 100 * k ==> up <= k)
    ensures var down := Scaled(Percent(n), total, false).value;
            100 * down <= n * total && (forall k: nat :: 100 * k <= n * total ==> k <= down)
  {
    assert n * total >= 0;
  }

  /**
   Without a strategy pods are replaced one at a time; with one, exactly the strategies that allow no step are
   refused.
   */
  lemma ValidationExactly(strategy: Option<Strategy>, replicas: nat)
    ensures strategy.None? ==> PlanFor(Role(replicas, strategy)) == Ok(Plan(replicas, 0, 1))
    ensures strategy.Some? ==>
              var surge := Scaled(strategy.value.maxSurge, replicas, true);
              var unavailable := Scaled(strategy.value.maxUnavailable, replicas, false);
              ValidateRolloutStrategy(strategy, replicas) == Err(InvalidStrategy) <==> surge == Ok(0) == unavailable
  {
  }

  // ---------- Steps ----------

  const MISSING := ReplicaState(false, false)

  function Resize(pods: seq<ReplicaState>, n: nat): (r: seq<ReplicaState>)
    ensures |r| == n
  {
    if n <= |pods| then pods[..n] else pods + seq(n - |pods|, _ => MISSING)
  }

  /**
   The first reconcile after a template change, wherever the previous rollout had got to. The pods
   before are seen as they compare with the revision the change leads to.
   */
  function Start(plan: Plan, before: Rollout): Rollout {
    var sts := Sts(|before.pods|, before.partition, None);
    match NextFor(plan, sts, false, Ok(before.pods))
    case Ok(next) => Rollout(next.partition, Resize(before.pods, next.replicas))
    case Err(_) => before
  }

  /** The change leads to a revision that no pod carries. */
  predicate NewRevision(before: Rollout) { forall s <- before.pods :: !s.updated }

  /** A later reconcile, the role unchanged. */
  function Reconciled(plan: Plan, r: Rollout): Rollout
    requires plan.replicas <= |r.pods|
  {
    match NextFor(plan, Sts(|r.pods|, r.partition, Some(plan.replicas)), true, Ok(r.pods))
    case Ok(next) => Rollout(next.partition, Resize(r.pods, next.replicas))
    case Err(_) => r
  }

  datatype Event =
    | Reconcile
    | Replace(i: nat)      // a serving old pod at or above the partition is deleted
    | Create(i: nat)       // a pod that is down comes back, on the revision its ordinal is due
    | BecomeReady(i: nat)

  predicate Enabled(plan: Plan, r: Rollout, e: Event) {
    match e
    case Reconcile => plan.replicas <= |r.pods|   // holds in every state of a run: see Availability
    case Replace(i) => r.partition <= i < |r.pods| && HealthyOld(r.pods[i])
    case Create(i) => i < |r.pods| && !r.pods[i].ready
    case BecomeReady(i) => i < |r.pods| && !r.pods[i].ready
  }

  function Apply(plan: Plan, r: Rollout, e: Event): Rollout
    requires Enabled(plan, r, e)
  {
    match e
    case Reconcile => Reconciled(plan, r)
    case Replace(i) => r.(pods := r.pods[i := MISSING])
    case Create(i) => r.(pods := r.pods[i := ReplicaState(r.partition <= i || r.pods[i].updated, false)])
    case BecomeReady(i) => r.(pods := r.pods[i := r.pods[i].(ready := true)])
  }

  // ---------- The reconcile step, unfolded ----------

  function Available(r: Rollout): nat { CountIf(Ready, r.pods) }

  /** The partition a template change starts with. */
  function FirstPartition(plan: Plan, before: Rollout): nat { Min(plan.replicas, |before.pods|) }

  /** The pods below that partition, as they were. */
  function Initial(plan: Plan, before: Rollout): seq<ReplicaState> { before.pods[..FirstPartition(plan, before)] }

  lemma StartMeaning(plan: Plan, before: Rollout)
    requires ValidPlan(plan)
    ensures var r := Start(plan, before);
            && r.partition == FirstPartition(plan, before) <= |r.pods|
            && |r.pods| == WantReplicas(plan.replicas, plan.surge, plan.replicas)
            && r.pods[..r.partition] == Initial(plan, before)
            && (forall i :: 0 <= i < |r.pods| ==> r.pods[i] == if i < |before.pods| then before.pods[i] else MISSING)
  {
  }

  lemma ReconciledMeaning(plan: Plan, r: Rollout)
    requires ValidPlan(plan) && plan.replicas <= |r.pods|
    ensures var next := Reconciled(plan, r);
            if r.partition == 0 && |r.pods| == plan.replicas then next == r
            else
              && next.partition == RollingPartition(r.pods, plan.unavailable + |r.pods| - plan.replicas, r.partition)
              && next.pods == Resize(r.pods, |next.pods|)
              && |next.pods| == (if next.partition == r.partition && |r.pods| == plan.replicas then |r.pods|
                                 else WantReplicas(plan.replicas, plan.surge, RoleUnready(r.pods, plan.replicas)))
  {
    assert r.pods[..|r.pods|] == r.pods;
  }

  // ---------- The invariant ----------

  /** The most replicas a rollout ever has. */
  function Peak(plan: Plan): int { Min(plan.replicas + plan.surge, 2 * plan.replicas - 1) }

  /** The serving pods the partition is to keep: no more than there were to begin with. */
  function Target(plan: Plan, start: nat): int { Min(start, plan.replicas - plan.unavailable) }

  function BaseDone(plan: Plan, r: Rollout): nat
    requires plan.replicas <= |r.pods|
  {
    CountIf(Done, r.pods[..plan.replicas])
  }

  /** The role replicas that were let go and are finished. */
  function AboveDone(plan: Plan, r: Rollout): nat
    requires r.partition <= plan.replicas <= |r.pods|
  {
    CountIf(Done, r.pods[r.partition..plan.replicas])
  }

  function SurgeDone(plan: Plan, r: Rollout): nat
    requires plan.replicas <= |r.pods|
  {
    CountIf(Done, r.pods[plan.replicas..])
  }

  /** Below the partition pods keep their revision; nothing that served or was finished got lost. */
  predicate Kept(init: seq<ReplicaState>, r: Rollout) {
    && r.partition <= |init| <= |r.pods|
    && (forall i :: 0 <= i < r.partition ==>
          r.pods[i].updated == init[i].updated && (init[i].ready ==> r.pods[i].ready))
    && (forall i :: r.partition <= i < |init| ==> Done(init[i]) ==> Done(r.pods[i]))
  }

  /**
   Surge replicas are given back no faster than role replicas finish, and the partition sinks no
   faster than finished replicas make up for. `init` are the role replicas the rollout began with.
   */
  predicate Inv(plan: Plan, init: seq<ReplicaState>, r: Rollout) {
    && 1 <= plan.replicas && plan.surge <= plan.replicas
    && |init| <= plan.replicas <= |r.pods| <= Peak(plan)
    && Kept(init, r)
    && WantReplicas(plan.replicas, plan.surge, plan.replicas - BaseDone(plan, r)) <= |r.pods|
    && (SurgeDone(plan, r) < |r.pods| - plan.replicas ==>
          r.partition >= Min(|init|, plan.replicas - plan.unavailable - SurgeDone(plan, r) - (Peak(plan) - |r.pods|)))
    && (|r.pods| == Peak(plan) ==>
          r.partition + AboveDone(plan, r) + SurgeDone(plan, r) >= Target(plan, |init|))
  }

  lemma {:induction false} UnreadyIsNotDone(pods: seq<ReplicaState>)
    ensures CountIf(NotDone, pods) == |pods| - CountIf(Done, pods)
  {
    CountComplement(Done, NotDone, pods);
  }

  lemma RoleUnreadyMeaning(plan: Plan, r: Rollout)
    requires plan.replicas <= |r.pods|
    ensures RoleUnready(r.pods, plan.replicas) == plan.replicas - BaseDone(plan, r)
  {
    UnreadyIsNotDone(r.pods[..plan.replicas]);
  }

  /** How many of the role's replicas there were are unready when the template changes. */
  function DownBefore(plan: Plan, before: Rollout): nat { CountIf(NotReady, Initial(plan, before)) }

  /**
   A template change starts a rollout in the invariant, even in the middle of another one, even if
   it leads back to a revision some pods still carry and even if the role grows or shrinks with it.
   */
  lemma InvAtStart(plan: Plan, before: Rollout)
    requires ValidPlan(plan) && 1 <= plan.replicas
    ensures Inv(plan, Initial(plan, before), Start(plan, before))
  {
    StartMeaning(plan, before);
    var r := Start(plan, before);
    assert forall i :: 0 <= i < r.partition ==> r.pods[i] == r.pods[..r.partition][i];
  }

  // ---------- Preservation ----------

  /** What pods do: finished ones stay finished, and below the partition revisions stay and nothing goes down. */
  predicate PodStep(r: Rollout, r': Rollout) {
    && r'.partition == r.partition <= |r.pods| == |r'.pods|
    && (forall i :: 0 <= i < |r.pods| && Done(r.pods[i]) ==> Done(r'.pods[i]))
    && (forall i :: 0 <= i < r.partition ==> r'.pods[i].updated == r.pods[i].updated)
    && (forall i :: 0 <= i < r.partition && r.pods[i].ready ==> r'.pods[i].ready)
  }

  lemma PodStepKeepsInv(plan: Plan, init: seq<ReplicaState>, r: Rollout, r': Rollout)
    requires Inv(plan, init, r) && PodStep(r, r')
    ensures Inv(plan, init, r')
  {
    PodStepCounts(plan, r, r');
    assert Kept(init, r');
    hide BaseDone, AboveDone, SurgeDone, Kept, PodStep;
  }

  lemma PodStepCounts(plan: Plan, r: Rollout, r': Rollout)
    requires r.partition <= plan.replicas <= |r.pods| && PodStep(r, r')
    ensures BaseDone(plan, r) <= BaseDone(plan, r') <= plan.replicas
    ensures AboveDone(plan, r) <= AboveDone(plan, r') && SurgeDone(plan, r) <= SurgeDone(plan, r')
  {
    var n := plan.replicas;
    CountPointwise(Done, r.pods[..n], r'.pods[..n]);
    CountPointwise(Done, r.pods[r.partition..n], r'.pods[r.partition..n]);
    CountPointwise(Done, r.pods[n..], r'.pods[n..]);
  }

  lemma EventIsPodStep(plan: Plan, r: Rollout, e: Event)
    requires Enabled(plan, r, e) && !e.Reconcile? && r.partition <= |r.pods|
    ensures PodStep(r, Apply(plan, r, e))
  {
  }

  /** With a surge replica unfinished, the finished tail lies within the surge. */
  lemma TailWithinSurge(pods: seq<ReplicaState>, n: nat, k: nat)
    requires n <= k < |pods| && !Done(pods[k])
    ensures TailCount(pods) <= CountIf(Done, pods[n..]) && TailCount(pods) < |pods| - k
  {
    TailCountMeaning(pods);
    var cut := |pods| - TailCount(pods);
    CountSuffix(Done, pods, n, cut);
    AllDone(pods[cut..]);
  }

  /** From the partition on, the finished pods make up for what the tail counts. */
  lemma TailAbove(plan: Plan, r: Rollout)
    requires r.partition <= plan.replicas <= |r.pods|
    ensures AboveDone(plan, r) + SurgeDone(plan, r) >= Min(|r.pods| - r.partition, TailCount(r.pods))
  {
    TailCountMeaning(r.pods);
    var p, cut := r.partition, |r.pods| - TailCount(r.pods);
    var from := if cut <= p then p else cut;
    CountSuffix(Done, r.pods, p, plan.replicas);
    CountSuffix(Done, r.pods, p, from);
    AllDone(r.pods[from..]);
  }

  lemma {:induction false} AllDone(s: seq<ReplicaState>)
    requires forall i :: 0 <= i < |s| ==> Done(s[i])
    ensures CountIf(Done, s) == |s|
  {
    if s != [] {
      AllDone(s[..|s| - 1]);
    }
  }

  /** If fewer are finished than there are, one of them is not. */
  lemma {:induction false} SomeNotDone(s: seq<ReplicaState>) returns (k: nat)
    requires CountIf(Done, s) < |s|
    ensures k < |s| && !Done(s[k])
  {
    k := |s| - 1;
    if Done(s[k]) {
      k := SomeNotDone(s[..|s| - 1]);
    }
  }

  /** The new partition is the old one or no lower than the step partition. */
  lemma PartitionFloor(plan: Plan, r: Rollout)
    requires plan.replicas <= |r.pods|
    ensures var p := RollingPartition(r.pods, plan.unavailable + |r.pods| - plan.replicas, r.partition);
            && p <= r.partition
            && (p == r.partition || p >= plan.replicas - plan.unavailable - TailCount(r.pods))
  {
    BoundaryMeaning(r.pods, plan.unavailable + |r.pods| - plan.replicas);
  }

  /** Releasing surge replicas: what the counts of the shortened rollout have to do with the old ones. */
  lemma ShrinkCounts(plan: Plan, r: Rollout, r': Rollout)
    requires plan.replicas <= |r'.pods| <= |r.pods| && r'.pods == r.pods[..|r'.pods|]
    ensures BaseDone(plan, r') == BaseDone(plan, r)
    ensures SurgeDone(plan, r) <= SurgeDone(plan, r') + |r.pods| - |r'.pods|
    ensures SurgeDone(plan, r') < |r'.pods| - plan.replicas ==>
              SurgeDone(plan, r) < |r.pods| - plan.replicas && TailCount(r.pods) <= SurgeDone(plan, r)
  {
    var n := plan.replicas;
    assert r'.pods[..n] == r.pods[..n];
    assert r'.pods[n..] == r.pods[n..|r'.pods|];
    CountSuffix(Done, r.pods, n, |r'.pods|);
    if SurgeDone(plan, r') < |r'.pods| - n {
      var k := SomeNotDone(r'.pods[n..]);
      assert r'.pods[n..][k] == r.pods[n + k];
      TailWithinSurge(r.pods, n, n + k);
    }
  }

  lemma KeptLower(init: seq<ReplicaState>, r: Rollout, r': Rollout)
    requires Kept(init, r) && r'.partition <= r.partition
    requires |init| <= |r'.pods| <= |r.pods| && r'.pods == r.pods[..|r'.pods|]
    ensures Kept(init, r')
  {
  }

  /** The two bounds on the partition survive a reconcile that stays above the step partition. */
  lemma ShrinkKeepsBounds(plan: Plan, init: seq<ReplicaState>, r: Rollout, r': Rollout)
    requires Inv(plan, init, r)
    requires plan.replicas <= |r'.pods| <= |r.pods| && r'.pods == r.pods[..|r'.pods|]
    requires r'.partition <= r.partition
    requires r'.partition == r.partition || r'.partition >= plan.replicas - plan.unavailable - TailCount(r.pods)
    ensures Kept(init, r') && BaseDone(plan, r') == BaseDone(plan, r)
    ensures SurgeDone(plan, r') < |r'.pods| - plan.replicas ==>
              r'.partition
              >= Min(|init|, plan.replicas - plan.unavailable - SurgeDone(plan, r') - (Peak(plan) - |r'.pods|))
    ensures |r'.pods| == Peak(plan) ==>
              r'.partition + AboveDone(plan, r') + SurgeDone(plan, r') >= Target(plan, |init|)
  {
    KeptLower(init, r, r');
    hide TailCount, BaseDone, SurgeDone, Kept, WantReplicas;
    ShrinkCounts(plan, r, r');
    if |r'.pods| == Peak(plan) {
      assert r'.pods == r.pods;
      if r'.partition == r.partition {
        assert r' == r;
      } else {
        TailAbove(plan, r');
      }
    }
  }

  lemma ReconcileKeepsInv(plan: Plan, init: seq<ReplicaState>, r: Rollout)
    requires ValidPlan(plan) && Inv(plan, init, r)
    ensures Inv(plan, init, Reconciled(plan, r))
  {
    ReconciledMeaning(plan, r);
    RoleUnreadyMeaning(plan, r);
    PartitionFloor(plan, r);
    var r' := Reconciled(plan, r);
    hide Reconciled, RollingPartition, TailCount, BaseDone, AboveDone, SurgeDone, Kept;
    if r' != r {
      assert r'.pods == r.pods[..|r'.pods|];
      ShrinkKeepsBounds(plan, init, r, r');
    }
  }

  lemma StepKeepsInv(plan: Plan, init: seq<ReplicaState>, r: Rollout, e: Event)
    requires ValidPlan(plan) && Inv(plan, init, r) && Enabled(plan, r, e)
    ensures Inv(plan, init, Apply(plan, r, e))
  {
    if e == Reconcile {
      ReconcileKeepsInv(plan, init, r);
    } else {
      EventIsPodStep(plan, r, e);
      PodStepKeepsInv(plan, init, r, Apply(plan, r, e));
    }
  }

  // ---------- Whole runs ----------

  predicate IsRun(plan: Plan, trace: seq<Rollout>, events: seq<Event>) {
    && |trace| == |events| + 1
    && forall i :: 0 <= i < |events| ==>
         Enabled(plan, trace[i], events[i]) && trace[i + 1] == Apply(plan, trace[i], events[i])
  }

  lemma {:induction false} RunKeepsInv(plan: Plan, init: seq<ReplicaState>, trace: seq<Rollout>, events: seq<Event>,
                                       k: nat)
    requires ValidPlan(plan) && IsRun(plan, trace, events) && Inv(plan, init, trace[0]) && k < |trace|
    ensures Inv(plan, init, trace[k])
  {
    if k > 0 {
      RunKeepsInv(plan, init, trace, events, k - 1);
      StepKeepsInv(plan, init, trace[k - 1], events[k - 1]);
    }
  }

  lemma UnfinishedBound(plan: Plan, r: Rollout)
    requires plan.replicas <= |r.pods|
    ensures BaseDone(plan, r) <= plan.replicas && SurgeDone(plan, r) <= |r.pods| - plan.replicas
  {
  }
}
