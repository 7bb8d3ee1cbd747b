/**
 The StatefulSet reconciler under arbitrary changes by the user: any sequence of role sizes,
 strategies, templates and observations. What every run keeps, and exactly when a rollout is
 left standing.
 */
module RoleChanges {
  import opened Wrappers
  import opened RollingUpdate
  import opened PartitionBounds
  import opened RolloutRuns
  import opened RolloutProgress

  /** One reconcile: the role as it is then, whether the object is up to date, what was observed. */
  datatype Input = Input(role: Role, equal: bool, obs: Observation)

  /** The comparison never finds an absent object up to date; the states cover the replicas. */
  predicate Fits(input: Input, sts: Sts) {
    (input.equal ==> sts.Sts?) && Covers(input.obs, sts)
  }

  /** An error leaves the stored object alone. */
  function After(sts: Sts, input: Input): (next: Sts)
    requires Consistent(sts) && Fits(input, sts)
  {
    match Next(sts, input.role, input.equal, input.obs)
    case Ok(s) => s
    case Err(_) => sts
  }

  predicate Steps(sts: Sts, input: Input, next: Sts) {
    Consistent(sts) ==> Fits(input, sts) && next == After(sts, input)
  }

  predicate IsHistory(history: seq<Sts>, inputs: seq<Input>) {
    && |history| == |inputs| + 1 && history[0] == Absent
    && forall i :: 0 <= i < |inputs| ==> Steps(history[i], inputs[i], history[i + 1])
  }

  lemma AfterMeaning(sts: Sts, input: Input)
    requires Consistent(sts) && Fits(input, sts)
    ensures var next := After(sts, input);
            next == sts || (next.Sts? && next.roleSize == Some(input.role.replicas)
                            && input.role.replicas <= next.replicas <= 2 * input.role.replicas)
  {
  }

  /**
   Whatever the user does, the annotation never exceeds the replicas. So whenever the partition is
   computed, the states cover the role and every index the loops use is in range.
   */
  lemma {:induction false} EveryRunConsistent(history: seq<Sts>, inputs: seq<Input>, k: nat)
    requires IsHistory(history, inputs) && k < |history|
    ensures Consistent(history[k])
    ensures history[k].Sts? && history[k].roleSize.Some? ==>
              history[k].roleSize.value <= history[k].replicas <= 2 * history[k].roleSize.value
  {
    if k > 0 {
      EveryRunConsistent(history, inputs, k - 1);
      assert Steps(history[k - 1], inputs[k - 1], history[k]);
      AfterMeaning(history[k - 1], inputs[k - 1]);
    }
  }

  lemma WantReplicasMonotone(roleReplicas: nat, surge: nat, u1: nat, u2: nat)
    requires u1 <= u2
    ensures WantReplicas(roleReplicas, surge, u1) <= WantReplicas(roleReplicas, surge, u2)
    ensures roleReplicas <= WantReplicas(roleReplicas, surge, u1) <= roleReplicas + surge
  {
  }

  /**
   Bounds of every decision: between the role size and the surge; the partition never passes the
   burst size if it started within it, and rises only with a new template.
   */
  lemma DecisionBounds(role: Role, plan: Plan, sts: Sts, equal: bool, obs: Observation)
    requires PlanFor(role) == Ok(plan) && Consistent(sts) && Covers(obs, sts) && (equal ==> sts.Sts?)
    requires Next(sts, role, equal, obs).Ok?
    ensures var next := Next(sts, role, equal, obs).value;
            && next.Sts? && plan.replicas <= next.replicas <= plan.replicas + plan.surge
            && (!equal || sts.partition <= plan.replicas + plan.surge ==> next.partition <= plan.replicas + plan.surge)
            && (equal ==> next.partition <= sts.partition)
  {
  }

  /** Whatever a reconcile decides, the size is what some number of unfinished role replicas asks for. */
  lemma DecisionIsWanted(role: Role, plan: Plan, sts: Sts, equal: bool, obs: Observation) returns (unready: nat)
    requires PlanFor(role) == Ok(plan) && Consistent(sts) && Covers(obs, sts) && (equal ==> sts.Sts?)
    requires Next(sts, role, equal, obs).Ok?
    ensures unready <= plan.replicas
    ensures Next(sts, role, equal, obs).value.replicas == WantReplicas(plan.replicas, plan.surge, unready)
  {
    unready := 0;
    if sts.Sts? && !equal {
      unready := plan.replicas;
    } else if equal && (sts.partition != 0 || sts.replicas != plan.replicas) {
      var next := Next(sts, role, equal, obs).value;
      unready := if next == sts && sts.replicas == plan.replicas then 0 else RoleUnready(obs.value, plan.replicas);
    }
  }

  /**
   Exactly when a reconcile fails, and how. An existing object that is up to date and in a rollout or
   a resize needs its pods read first and its annotation second; nothing else does.
   */
  lemma ReconcileFailsExactly(role: Role, sts: Sts, equal: bool, obs: Observation)
    requires Consistent(sts) && Covers(obs, sts) && (equal ==> sts.Sts?)
    ensures var atRest := !equal || (sts.partition == 0 && sts.replicas == role.replicas);
            match Next(sts, role, equal, obs)
            case Err(e) =>
              || (PlanFor(role) == Err(e))
              || (PlanFor(role).Ok? && !atRest && obs == Err(e))
              || (PlanFor(role).Ok? && !atRest && obs.Ok? && sts.roleSize == None && e == BadAnnotation)
            case Ok(_) => PlanFor(role).Ok? && (atRest || (obs.Ok? && sts.roleSize.Some?))
  {
    PlanSize(role);
  }

  // ---------- Outside a rollout ----------

  /** A new StatefulSet starts out as a finished rollout of the role's size. */
  lemma CreatedFinished(role: Role, obs: Observation)
    ensures var next := Next(Absent, role, false, obs);
            next.Ok? ==> next.value == Sts(role.replicas, 0, Some(role.replicas))
    ensures role.strategy.None? ==> Next(Absent, role, false, obs).Ok?
  {
  }

  /** A finished rollout is left alone, whatever its pods do and even if they cannot be listed. */
  lemma FinishedIsFixpoint(role: Role, plan: Plan, sts: Sts, obs: Observation)
    requires PlanFor(role) == Ok(plan) && sts.Sts? && Consistent(sts) && Covers(obs, sts)
    requires sts.partition == 0 && sts.replicas == plan.replicas
    ensures Next(sts, role, true, obs) == Ok(sts)
  {
  }

  /**
   Growing a role outside any rollout, all its pods running: the StatefulSet goes straight to the
   new size exactly when there is no surge or one replica is added; otherwise it overshoots.
   */
  lemma GrowthDirectExactly(role: Role, plan: Plan, sts: Sts, states: seq<ReplicaState>)
    requires PlanFor(role) == Ok(plan) && sts.Sts? && sts.partition == 0 && sts.roleSize == Some(sts.replicas)
    requires sts.replicas < plan.replicas && |states| == sts.replicas
    requires forall i :: 0 <= i < |states| ==> Done(states[i])
    ensures Next(sts, role, true, Ok(states)) == Ok(Sts(plan.replicas, 0, Some(plan.replicas)))
            <==> plan.surge == 0 || plan.replicas == sts.replicas + 1
  {
    AllDone(states);
    UnreadyIsNotDone(states);
  }

  // ---------- Resizing during a rollout ----------

  lemma AllDonePartition(states: seq<ReplicaState>, step: nat, current: nat)
    requires forall i :: 0 <= i < |states| ==> Done(states[i])
    ensures RollingPartition(states, step, current) == 0
  {
    TailCountLongest(states, 0);
    BoundaryMeaning(states, step);
  }

  ghost predicate Stalled(role: Role, sts: Sts)
    requires sts.Sts? && Consistent(sts)
  {
    forall states: seq<ReplicaState> :: |states| == sts.replicas ==> Next(sts, role, true, Ok(states)) == Ok(sts)
  }

  /**
   A rollout in progress is stalled for good, whatever its pods do, exactly when the role was
   resized to the very number of replicas the StatefulSet has at that moment: the resize case keeps
   the partition, the step is then skipped, and so the annotation never learns of the new size.
   */
  lemma StalledExactly(role: Role, plan: Plan, sts: Sts)
    requires PlanFor(role) == Ok(plan) && sts.Sts? && sts.roleSize.Some? && Consistent(sts) && 1 <= sts.partition
    ensures Stalled(role, sts) <==>
              sts.roleSize.value != plan.replicas && sts.replicas == plan.replicas
              && sts.partition <= plan.replicas + plan.surge
  {
    var done := seq(sts.replicas, _ => ReplicaState(true, true));
    assert |done| == sts.replicas;
    if sts.roleSize.value == plan.replicas {
      AllDonePartition(done, plan.unavailable + sts.replicas - plan.replicas, sts.partition);
      assert Next(sts, role, true, Ok(done)) != Ok(sts);
    } else if sts.replicas != plan.replicas || plan.replicas + plan.surge < sts.partition {
      assert Next(sts, role, true, Ok(done)) != Ok(sts);
    }
  }

  function Sized(replicas: nat, strategy: Strategy): Role { Role(replicas, Some(strategy)) }

  /** Every rollout with a surge can be stalled so: resize the role to the burst size at its start. */
  lemma ResizeToBurstStalls(replicas: nat, unavailable: nat, surge: nat)
    requires 2 <= replicas && 1 <= surge
    ensures var strategy := Strategy(IntValue(unavailable), IntValue(surge));
            var started := Next(Sts(replicas, 0, Some(replicas)), Sized(replicas, strategy), false,
              Err(StatesUnavailable));
            && started.Ok? && started.value.Sts? && started.value.partition == replicas < started.value.replicas
            && Consistent(started.value)
            && Stalled(Sized(started.value.replicas, strategy), started.value)
  {
    var strategy := Strategy(IntValue(unavailable), IntValue(surge));
    var started := Next(Sts(replicas, 0, Some(replicas)), Sized(replicas, strategy), false,
      Err(StatesUnavailable)).value;
    var plan := Plan(started.replicas, EffectiveSurge(surge, started.replicas), unavailable);
    StalledExactly(Sized(started.replicas, strategy), plan, started);
  }

  // ---------- Fixpoints at a quiescent state ----------

  /**
   With every pod serving and those from the partition on finished, a reconcile changes nothing
   exactly when the StatefulSet already has the role's size and either that size is news to the
   annotation, or nothing may be unavailable and the next pod is old.
   */
  lemma SettledFixpointExactly(role: Role, plan: Plan, sts: Sts, states: seq<ReplicaState>)
    requires PlanFor(role) == Ok(plan) && sts.Sts? && sts.roleSize.Some? && Consistent(sts)
    requires |states| == sts.replicas && 1 <= sts.partition <= sts.replicas
    requires Settled(Rollout(sts.partition, states))
    ensures Next(sts, role, true, Ok(states)) == Ok(sts)
            <==> sts.replicas == plan.replicas
                 && (if sts.roleSize.value == plan.replicas
                     then plan.unavailable == 0 && !states[sts.partition - 1].updated
                     else sts.partition <= plan.replicas + plan.surge)
  {
    if sts.roleSize.value == plan.replicas {
      SettledLowersExactly(plan, Rollout(sts.partition, states));
    }
    hide RollingPartition, RoleUnready, WantReplicas, Settled, PlanFor;
  }
}
