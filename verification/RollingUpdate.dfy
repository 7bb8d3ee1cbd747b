/**
 The rolling-update decision of the StatefulSet reconciler: how many replicas the StatefulSet
 should have and below which ordinal ("partition") pods keep their old revision.
 The loops are methods over the state array; each one is tied to a specification function, and
 the lemmas of this and the following modules are about those functions.
 */
module RollingUpdate {
  import opened Wrappers
  import opened Counting

  datatype Error = InvalidStrategy | BadScaledValue | BadAnnotation | StatesUnavailable | IndexPanic

  /** What the controller knows of the pod at one ordinal. */
  datatype ReplicaState = ReplicaState(updated: bool, ready: bool)

  predicate Ready(s: ReplicaState) { s.ready }
  predicate NotReady(s: ReplicaState) { !s.ready }

  /** Ready and on the newest revision. */
  predicate Done(s: ReplicaState) { s.ready && s.updated }
  predicate NotDone(s: ReplicaState) { !Done(s) }

  /** Replacing this replica costs no availability (or it is already replaced). */
  predicate Passable(s: ReplicaState) { !s.ready || s.updated }

  /** Ready on an old revision: replacing it takes a serving pod away. */
  predicate HealthyOld(s: ReplicaState) { s.ready && !s.updated }

  function Min(a: int, b: int): int { if a <= b then a else b }
  function NonZeroValue(value: int): nat { if value < 0 then 0 else value }

  // ---------- Rollout strategy ----------

  /** A Kubernetes IntOrString; `Malformed` is a string that is not a percentage. */
  datatype IntOrPercent = IntValue(n: nat) | Percent(n: nat) | Malformed

  function Scaled(v: IntOrPercent, total: nat, roundUp: bool): Result<nat, Error> {
    match v
    case IntValue(n) => Ok(n)
    case Percent(n) => Ok(if roundUp then (n * total + 99) / 100 else n * total / 100)
    case Malformed => Err(BadScaledValue)
  }

  datatype Strategy = Strategy(maxUnavailable: IntOrPercent, maxSurge: IntOrPercent)
  datatype Role = Role(replicas: nat, strategy: Option<Strategy>)

  /** An absent strategy becomes one-at-a-time; a strategy that permits no step is an error. */
  function ValidateRolloutStrategy(strategy: Option<Strategy>, replicas: nat): Result<Strategy, Error> {
    if strategy.None? then Ok(Strategy(IntValue(1), IntValue(0)))
    else
      var surge := Scaled(strategy.value.maxSurge, replicas, true);
      if surge.Err? then Err(surge.error) else
      var unavailable := Scaled(strategy.value.maxUnavailable, replicas, false);
      if unavailable.Err? then Err(unavailable.error) else
      if unavailable.value == 0 && surge.value == 0 then Err(InvalidStrategy)
      else Ok(strategy.value)
  }

  /** The surge that counts: never more than the replicas themselves. */
  function EffectiveSurge(maxSurge: nat, roleReplicas: nat): nat { Min(maxSurge, roleReplicas) }

  function WantReplicas(roleReplicas: nat, surge: nat, unready: nat): nat {
    if unready <= surge then roleReplicas + NonZeroValue(unready - 1) else roleReplicas + surge
  }

  /** The numbers a role's strategy comes to. */
  datatype Plan = Plan(replicas: nat, surge: nat, unavailable: nat)

  /** Something may move, unless there are no replicas; the surge is within the role. */
  predicate ValidPlan(plan: Plan) {
    plan.surge <= plan.replicas && (plan.unavailable >= 1 || plan.surge >= 1 || plan.replicas == 0)
  }

  function PlanFor(role: Role): Result<Plan, Error> {
    var strategy := ValidateRolloutStrategy(role.strategy, role.replicas);
    if strategy.Err? then Err(strategy.error) else
    var surge := Scaled(strategy.value.maxSurge, role.replicas, true);
    var unavailable := Scaled(strategy.value.maxUnavailable, role.replicas, false);
    if surge.Err? then Err(surge.error) else
    if unavailable.Err? then Err(unavailable.error)
    else Ok(Plan(role.replicas, EffectiveSurge(surge.value, role.replicas), unavailable.value))
  }

  /** Every role that passes validation has a valid plan, and every valid plan is some role's. */
  lemma PlansAreValid(role: Role, plan: Plan)
    ensures PlanFor(role) == Ok(plan) ==> ValidPlan(plan)
    ensures ValidPlan(plan) && plan.replicas > 0 ==>
              PlanFor(Role(plan.replicas, Some(Strategy(IntValue(plan.unavailable), IntValue(plan.surge))))) == Ok(plan)
  {
  }

  /**
   What the strategy's numbers mean in the plan. An integer counts as it is; a percentage of the
   role's replicas is rounded down for what may be unavailable and up for the surge; and the surge
   is never more than the replicas.
   */
  lemma PlanRounding(role: Role, plan: Plan, unavailable: IntOrPercent, surge: IntOrPercent)
    requires PlanFor(role) == Ok(plan)
    ensures plan.replicas == role.replicas
    ensures role.strategy == None ==> plan.unavailable == 1 && plan.surge == 0
    ensures role.strategy == Some(Strategy(unavailable, surge)) ==>
              match unavailable
              case IntValue(k) => plan.unavailable == k
              case Percent(p) => 100 * plan.unavailable <= p * role.replicas < 100 * (plan.unavailable + 1)
              case Malformed => false
    ensures role.strategy == Some(Strategy(unavailable, surge)) ==>
              match surge
              case IntValue(k) => plan.surge == if k < role.replicas then k else role.replicas
              case Percent(p) =>
                && plan.surge <= role.replicas && 100 * plan.surge < p * role.replicas + 100
                && (plan.surge < role.replicas ==> p * role.replicas <= 100 * plan.surge)
              case Malformed => false
  {
    if role.strategy == Some(Strategy(unavailable, surge)) {
      if unavailable.Percent? {
        assert unavailable.n * role.replicas >= 0;
      }
      if surge.Percent? {
        assert surge.n * role.replicas >= 0;
      }
    }
  }

  /**
   A strategy is refused exactly if one of its values is malformed or it comes to no surge and nothing
   unavailable.
   */
  lemma PlanRefusedExactly(role: Role, unavailable: IntOrPercent, surge: IntOrPercent)
    requires role.strategy == Some(Strategy(unavailable, surge))
    ensures PlanFor(role).Err? <==>
              || unavailable == Malformed || surge == Malformed
              || ((unavailable == IntValue(0) || (unavailable.Percent? && unavailable.n * role.replicas < 100))
                  && (surge == IntValue(0) || (surge.Percent? && surge.n * role.replicas == 0)))
  {
    if unavailable.Percent? {
      assert unavailable.n * role.replicas >= 0;
    }
    if surge.Percent? {
      assert surge.n * role.replicas >= 0;
    }
  }

  /** Five replicas, a quarter of them allowed to be unavailable: one, not two. */
  lemma QuarterOfFive()
    ensures PlanFor(Role(5, Some(Strategy(Percent(25), IntValue(1))))) == Ok(Plan(5, 1, 1))
  {
  }

  // ---------- Specification of the three loops ----------

  /** Length of the longest all-Done tail. */
  function TailCount(states: seq<ReplicaState>): (c: nat)
    ensures c <= |states|
  {
    if states == [] || !Done(states[|states| - 1]) then 0
    else 1 + TailCount(states[..|states| - 1])
  }

  lemma {:induction false} TailCountMeaning(states: seq<ReplicaState>)
    ensures var c := TailCount(states);
            && (forall i :: |states| - c <= i < |states| ==> Done(states[i]))
            && (c < |states| ==> !Done(states[|states| - 1 - c]))
  {
    if states != [] && Done(states[|states| - 1]) {
      TailCountMeaning(states[..|states| - 1]);
    }
  }

  /** Any all-Done tail is within the counted one. */
  lemma TailCountLongest(states: seq<ReplicaState>, k: nat)
    requires k <= |states|
    requires forall i :: k <= i < |states| ==> Done(states[i])
    ensures |states| - k <= TailCount(states)
  {
    TailCountMeaning(states);
  }

  /** Ordinals below the role size that have no Done pod; ordinals without a state count too. */
  function RoleUnready(states: seq<ReplicaState>, roleReplicas: nat): nat {
    if |states| < roleReplicas then roleReplicas - |states| + CountIf(NotDone, states)
    else CountIf(NotDone, states[..roleReplicas])
  }

  lemma RoleUnreadyBound(states: seq<ReplicaState>, roleReplicas: nat)
    ensures RoleUnready(states, roleReplicas) <= roleReplicas
  {
  }

  function StepPartition(states: seq<ReplicaState>, step: int): nat {
    NonZeroValue(|states| - TailCount(states) - step)
  }

  /** Unready replicas below the step partition. */
  function UnavailableBelow(states: seq<ReplicaState>, step: int): nat
    requires 0 <= step + TailCount(states)
  {
    CountIf(NotReady, states[..StepPartition(states, step)])
  }

  /** The last loop of rollingUpdatePartition: walk down while replacing is free. */
  function Descend(states: seq<ReplicaState>, floor: nat, idx: int, boundary: nat): nat
    requires idx < |states|
    decreases idx + 1 - floor
  {
    if idx < floor || !Passable(states[idx]) then boundary
    else Descend(states, floor, idx - 1, idx)
  }

  function Boundary(states: seq<ReplicaState>, step: int): nat
    requires 0 <= step + TailCount(states)
  {
    var floor := StepPartition(states, step);
    var top := floor + UnavailableBelow(states, step);
    Descend(states, floor, Min(top, |states| - 1), top)
  }

  function RollingPartition(states: seq<ReplicaState>, step: int, current: nat): nat
    requires 0 <= step + TailCount(states)
  {
    Min(Boundary(states, step), current)
  }

  // ---------- The loops ----------

  method CalculateContinuousReadyReplicas(states: array<ReplicaState>) returns (count: nat)
    ensures count == TailCount(states[..])
  {
    count := 0;
    var idx := states.Length - 1;
    assert states[..idx + 1] == states[..];
    while idx >= 0
      invariant -1 <= idx < states.Length
      invariant count == states.Length - 1 - idx
      invariant TailCount(states[..]) == count + TailCount(states[..idx + 1])
    {
      assert states[..idx + 1][..idx] == states[..idx];
      if !states[idx].ready || !states[idx].updated {
        break;
      }
      count := count + 1;
      idx := idx - 1;
    }
  }

  method CalculateRoleUnreadyReplicas(states: array<ReplicaState>, roleReplicas: nat) returns (unready: nat)
    ensures unready == RoleUnready(states[..], roleReplicas)
  {
    unready := 0;
    var idx := 0;
    while idx < roleReplicas
      invariant 0 <= idx <= roleReplicas
      invariant unready == if idx <= states.Length then CountIf(NotDone, states[..idx])
                           else idx - states.Length + CountIf(NotDone, states[..])
    {
      if idx < states.Length {
        assert states[..idx + 1][..idx] == states[..idx];
      } else if idx == states.Length {
        assert states[..idx] == states[..];
      }
      if idx >= states.Length || !states[idx].ready || !states[idx].updated {
        unready := unready + 1;
      }
      idx := idx + 1;
    }
    assert roleReplicas <= states.Length ==> states[..][..roleReplicas] == states[..roleReplicas];
    assert roleReplicas == states.Length ==> states[..roleReplicas] == states[..];
  }

  /**
   The caller must keep the computed step partition inside the array: the first loop indexes
   every ordinal below it without a bounds check of its own.
   */
  method RollingUpdatePartition(states: array<ReplicaState>, stsReplicas: nat, rollingStep: int, currentPartition: nat)
    returns (result: nat)
    requires stsReplicas == states.Length
    requires 0 <= rollingStep + TailCount(states[..])
    ensures result == RollingPartition(states[..], rollingStep, currentPartition)
  {
    var continuousReady := CalculateContinuousReadyReplicas(states);
    var floor := NonZeroValue(stsReplicas - continuousReady - rollingStep);

    var unavailable := 0;
    var idx := 0;
    while idx < floor
      invariant 0 <= idx <= floor
      invariant unavailable == CountIf(NotReady, states[..idx])
    {
      assert states[..idx + 1][..idx] == states[..idx];
      if !states[idx].ready {
        unavailable := unavailable + 1;
      }
      idx := idx + 1;
    }
    assert states[..][..floor] == states[..floor];

    var partition := floor + unavailable;
    idx := Min(partition, stsReplicas - 1);
    while idx >= floor
      invariant idx < states.Length
      invariant Boundary(states[..], rollingStep) == Descend(states[..], floor, idx, partition)
      decreases idx + 1 - floor
    {
      if !states[idx].ready || states[idx].updated {
        partition := idx;
      } else {
        break;
      }
      idx := idx - 1;
    }
    result := Min(partition, currentPartition);
  }

  // ---------- The five cases ----------

  /** The fields of a StatefulSet the decision depends on; `roleSize` is the role-size annotation. */
  datatype Sts = Absent | Sts(replicas: nat, partition: nat, roleSize: Option<nat>)

  datatype Params = Params(partition: nat, replicas: nat)

  /** The pod states, if the pods and the newest revision could be read. */
  type Observation = Result<seq<ReplicaState>, Error>

  /** The annotation never exceeds the replicas: what keeps every state index in range. */
  predicate Consistent(sts: Sts) {
    sts.Sts? && sts.roleSize.Some? ==> sts.roleSize.value <= sts.replicas
  }

  predicate Covers(obs: Observation, sts: Sts) {
    obs.Ok? && sts.Sts? ==> |obs.value| == sts.replicas
  }

  function Parameters(roleReplicas: nat, strategy: Strategy, sts: Sts, updated: bool,
                      obs: Observation): Result<Params, Error>
    requires Consistent(sts) && Covers(obs, sts)
  {
    if sts.Absent? then Ok(Params(0, roleReplicas))                                        // case 1
    else
      var maxSurge := Scaled(strategy.maxSurge, roleReplicas, true);
      if maxSurge.Err? then Err(maxSurge.error) else
      var surge := EffectiveSurge(maxSurge.value, roleReplicas);
      if updated then                                                                      // case 2
        Ok(Params(Min(roleReplicas, sts.replicas), WantReplicas(roleReplicas, surge, roleReplicas)))
      else if sts.partition == 0 && sts.replicas == roleReplicas then                      // case 3
        Ok(Params(0, roleReplicas))
      else if obs.Err? then Err(obs.error)
      else if sts.roleSize.None? then Err(BadAnnotation)
      else
        var want := WantReplicas(roleReplicas, surge, RoleUnready(obs.value, roleReplicas));
        if sts.roleSize.value != roleReplicas then                                         // case 4
          Ok(Params(Min(sts.partition, roleReplicas + surge), want))
        else                                                                               // case 5
          var unavailable := Scaled(strategy.maxUnavailable, roleReplicas, false);
          if unavailable.Err? then Err(unavailable.error) else
          Ok(Params(RollingPartition(obs.value, unavailable.value + sts.replicas - roleReplicas, sts.partition), want))
  }

  /** The five cases for the numbers of a plan. */
  function Decision(plan: Plan, sts: Sts, updated: bool, obs: Observation): Result<Params, Error>
    requires Consistent(sts) && Covers(obs, sts)
  {
    if sts.Absent? then Ok(Params(0, plan.replicas))
    else if updated then
      Ok(Params(Min(plan.replicas, sts.replicas), WantReplicas(plan.replicas, plan.surge, plan.replicas)))
    else if sts.partition == 0 && sts.replicas == plan.replicas then Ok(Params(0, plan.replicas))
    else if obs.Err? then Err(obs.error)
    else if sts.roleSize.None? then Err(BadAnnotation)
    else
      var want := WantReplicas(plan.replicas, plan.surge, RoleUnready(obs.value, plan.replicas));
      if sts.roleSize.value != plan.replicas then Ok(Params(Min(sts.partition, plan.replicas + plan.surge), want))
      else Ok(Params(RollingPartition(obs.value, plan.unavailable + sts.replicas - plan.replicas, sts.partition), want))
  }

  /** After validation no scaling error is left: the strategy decides as its plan does. */
  lemma ParametersPlanned(role: Role, sts: Sts, updated: bool, obs: Observation)
    requires Consistent(sts) && Covers(obs, sts)
    requires ValidateRolloutStrategy(role.strategy, role.replicas).Ok?
    ensures PlanFor(role).Ok?
    ensures Parameters(role.replicas, ValidateRolloutStrategy(role.strategy, role.replicas).value, sts, updated, obs)
            == Decision(PlanFor(role).value, sts, updated, obs)
  {
    hide WantReplicas, RollingPartition, RoleUnready, TailCount;
  }

  function Observed(fetched: Result<array<ReplicaState>, Error>): Observation
    reads if fetched.Ok? then {fetched.value} else {}
  {
    if fetched.Ok? then Ok(fetched.value[..]) else Err(fetched.error)
  }

  method RollingUpdateParameters(roleReplicas: nat, strategy: Strategy, sts: Sts, stsUpdated: bool,
                                 fetched: Result<array<ReplicaState>, Error>)
    returns (r: Result<Params, Error>)
    requires Consistent(sts) && Covers(Observed(fetched), sts)
    ensures r == Parameters(roleReplicas, strategy, sts, stsUpdated, Observed(fetched))
  {
    hide Scaled, WantReplicas, RollingPartition, RoleUnready, TailCount;
    if sts.Absent? {
      return Ok(Params(0, roleReplicas));
    }
    var scaledSurge := Scaled(strategy.maxSurge, roleReplicas, true);
    if scaledSurge.Err? {
      return Err(scaledSurge.error);
    }
    var maxSurge := scaledSurge.value;
    if maxSurge > roleReplicas {
      maxSurge := roleReplicas;
    }
    var burstReplicas := roleReplicas + maxSurge;
    if stsUpdated {
      return Ok(Params(Min(roleReplicas, sts.replicas), WantReplicas(roleReplicas, maxSurge, roleReplicas)));
    }
    var partition := sts.partition;
    if partition == 0 && sts.replicas == roleReplicas {
      return Ok(Params(0, roleReplicas));
    }
    if fetched.Err? {
      return Err(fetched.error);
    }
    var unready := CalculateRoleUnreadyReplicas(fetched.value, roleReplicas);
    if sts.roleSize.None? {
      return Err(BadAnnotation);
    }
    if sts.roleSize.value != roleReplicas {
      partition := Min(partition, burstReplicas);
      return Ok(Params(partition, WantReplicas(roleReplicas, maxSurge, unready)));
    }
    var scaledUnavailable := Scaled(strategy.maxUnavailable, roleReplicas, false);
    if scaledUnavailable.Err? {
      return Err(scaledUnavailable.error);
    }
    var rollingStep := scaledUnavailable.value;
    rollingStep := rollingStep + maxSurge - (burstReplicas - sts.replicas);
    partition := RollingUpdatePartition(fetched.value, sts.replicas, rollingStep, partition);
    return Ok(Params(partition, WantReplicas(roleReplicas, maxSurge, unready)));
  }

  // ---------- The reconcile step ----------

  /**
   The whole step on values. `equal` is the semantic comparison with the desired object; it is
   never true of an absent StatefulSet. A skip leaves the object, its annotation included.
   */
  function Next(sts: Sts, role: Role, equal: bool, obs: Observation): Result<Sts, Error>
    requires Consistent(sts) && Covers(obs, sts)
    requires equal ==> sts.Sts?
  {
    var plan := PlanFor(role);
    if plan.Err? then Err(plan.error) else NextFor(plan.value, sts, equal, obs)
  }

  function NextFor(plan: Plan, sts: Sts, equal: bool, obs: Observation): Result<Sts, Error>
    requires Consistent(sts) && Covers(obs, sts)
    requires equal ==> sts.Sts?
  {
    var params := Decision(plan, sts, !equal, obs);
    if params.Err? then Err(params.error)
    else if equal && params.value.partition == sts.partition && sts.replicas == plan.replicas then Ok(sts)
    else Ok(Sts(params.value.replicas, params.value.partition, Some(plan.replicas)))
  }

  lemma PlanSize(role: Role)
    ensures PlanFor(role).Ok? ==> PlanFor(role).value.replicas == role.replicas
  {
  }

  /** No decision goes below the role's size. */
  lemma DecisionCovers(plan: Plan, sts: Sts, updated: bool, obs: Observation)
    requires Consistent(sts) && Covers(obs, sts)
    ensures Decision(plan, sts, updated, obs).Ok? ==> plan.replicas <= Decision(plan, sts, updated, obs).value.replicas
  {
  }

  /** The stored StatefulSet, patched in place by the reconciler. */
  class StatefulSet {
    var created: bool
    var replicas: nat
    var partition: nat
    var roleSize: Option<nat>

    ghost function View(): Sts
      reads this
    {
      if created then Sts(replicas, partition, roleSize) else Absent
    }

    constructor ()
      ensures View() == Absent
    {
      created, replicas, partition, roleSize := false, 0, 0, None;
    }

    /** An error leaves the stored object as it was. */
    method Reconcile(role: Role, equal: bool, fetched: Result<array<ReplicaState>, Error>) returns (err: Option<Error>)
      requires Consistent(View()) && Covers(Observed(fetched), View())
      requires equal ==> created
      modifies this
      ensures var next := Next(old(View()), role, equal, old(Observed(fetched)));
              if next.Ok? then err == None && View() == next.value
              else err == Some(next.error) && View() == old(View())
      ensures Consistent(View())
    {
      var strategy := ValidateRolloutStrategy(role.strategy, role.replicas);
      if strategy.Err? {
        assert PlanFor(role) == Err(strategy.error);
        return Some(strategy.error);
      }
      hide PlanFor, Parameters, Decision, ValidateRolloutStrategy;
      var snapshot := if created then Sts(replicas, partition, roleSize) else Absent;
      ParametersPlanned(role, snapshot, !equal, Observed(fetched));
      PlanSize(role);
      DecisionCovers(PlanFor(role).value, snapshot, !equal, Observed(fetched));
      var params := RollingUpdateParameters(role.replicas, strategy.value, snapshot, !equal, fetched);
      if params.Err? {
        return Some(params.error);
      }
      if equal && params.value.partition == partition && replicas == role.replicas {
        return None;
      }
      created, roleSize := true, Some(role.replicas);
      replicas, partition := params.value.replicas, params.value.partition;
      return None;
    }
  }
}
