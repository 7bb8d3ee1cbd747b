/** The worst the pods of a rollout can do at a state: all that the partition lets go are down at once. */
module WorstCase {
  import opened Counting
  import opened RollingUpdate
  import opened RolloutRuns
  import opened RolloutProgress

  function BelowGoal(bound: int): Rollout -> bool { r => Available(r) < bound }

  /** All that may be replaced below ordinal k is down at once. */
  function TakenDown(r: Rollout, k: nat): (r': Rollout)
    requires k <= |r.pods|
    ensures |r'.pods| == |r.pods|
  {
    r.(pods := seq(|r.pods|, i requires 0 <= i < |r.pods| =>
                     if r.partition <= i < k && HealthyOld(r.pods[i]) then MISSING else r.pods[i]))
  }

  lemma {:induction false} TakeDown(plan: Plan, r: Rollout, k: nat, goal: Rollout -> bool)
    requires k <= |r.pods| && CanReach(plan, TakenDown(r, k), goal)
    ensures CanReach(plan, r, goal)
  {
    if k == 0 {
      assert TakenDown(r, 0) == r;
    } else {
      var before := TakenDown(r, k - 1);
      if r.partition <= k - 1 && HealthyOld(r.pods[k - 1]) {
        assert Apply(plan, before, Replace(k - 1)) == TakenDown(r, k);
        PrependStep(plan, before, Replace(k - 1), goal);
      } else {
        assert before == TakenDown(r, k);
      }
      TakeDown(plan, r, k - 1, goal);
    }
  }

  /** What serves then: the pods below the partition, and from it on the finished ones. */
  function LeftServing(r: Rollout): nat {
    var p := Min(r.partition, |r.pods|);
    CountIf(Ready, r.pods[..p]) + CountIf(Done, r.pods[p..])
  }

  lemma TakenDownServing(r: Rollout)
    requires r.partition <= |r.pods|
    ensures Available(TakenDown(r, |r.pods|)) == LeftServing(r)
  {
    var p, down := r.partition, TakenDown(r, |r.pods|);
    CountSplit(Ready, down.pods, p);
    assert down.pods[..p] == r.pods[..p];
    OnlyDoneServe(r.pods[p..], down.pods[p..]);
  }

  lemma {:induction false} OnlyDoneServe(pods: seq<ReplicaState>, down: seq<ReplicaState>)
    requires |pods| == |down|
    requires forall i :: 0 <= i < |pods| ==> (down[i].ready <==> Done(pods[i]))
    ensures CountIf(Ready, down) == CountIf(Done, pods)
  {
    if pods != [] {
      OnlyDoneServe(pods[..|pods| - 1], down[..|pods| - 1]);
    }
  }

  lemma FallsBelowFrom(plan: Plan, r: Rollout, bound: int)
    requires r.partition <= |r.pods|
    requires LeftServing(r) < bound
    ensures CanReach(plan, r, BelowGoal(bound))
  {
    TakenDownServing(r);
    ReachedAlready(plan, TakenDown(r, |r.pods|), BelowGoal(bound));
    TakeDown(plan, r, |r.pods|, BelowGoal(bound));
  }
}
