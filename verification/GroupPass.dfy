/**
 One reconcile pass of a group over the workloads of the cluster: the gated role loop in dependency
 order, then the removal of orphans. And what holds over many passes.
 */
module GroupPass {
  import opened Wrappers
  import opened Group
  import RollingUpdate

  datatype Key = Key(kind: Kind, name: string)

  /**
   `owner` is the controlling owner's uid, `groupLabel` the value of the group-name label, and
   `selectorLabel` the value its pod selector asks of that label, if any.
   */
  datatype Workload = Workload(
    owner: Option<string>, groupLabel: Option<string>, selectorLabel: Option<string>,
    desired: nat, statusReplicas: nat, ready: nat)

  type Workloads = map<Key, Workload>

  /** A LeaderWorkerSet is compared with its own status, the other kinds with their spec. */
  predicate WorkloadReady(kind: Kind, w: Workload) {
    w.ready == if kind == LeaderWorkerSet then w.statusReplicas else w.desired
  }

  /** What differs from pass to pass and is not decided here. */
  datatype Env = Env(
    failing: set<string>,      // roles that meet an error before their workload is applied
    failingLate: set<string>,  // roles that meet one afterwards: service, adapter or status
    skipping: set<string>,     // roles whose existing workload is found up to date
    unready: map<string, nat>, // by StatefulSet role in a rollout or a resize, its unfinished replicas
    statusFails: bool,         // the status cannot be written after the loop
    unlisted: set<Kind>,       // kinds whose workloads cannot be listed for clean-up
    undeleted: set<Key>,       // workloads whose deletion fails, or would have come after one that failed
    adaptersFail: bool,        // the clean-up of scaling adapters fails
    lwsInstalled: bool)        // whether the LeaderWorkerSet type exists in the cluster

  function KeyFor(group: Group, role: RoleSpec): Key
    requires ReconcilerFor(role.workload).Some?
  {
    Key(ReconcilerFor(role.workload).value, WorkloadName(group, role))
  }

  // ---------- The dependency gate ----------

  datatype Gate = Open | Closed | GateError

  /** Dependencies are checked in the order the role lists them. */
  function CheckDependencies(group: Group, deps: seq<string>, ws: Workloads): Gate {
    if deps == [] then Open
    else
      var dep := GetRole(group.roles, deps[0]);
      if dep.None? || ReconcilerFor(dep.value.workload).None? || KeyFor(group, dep.value) !in ws then GateError
      else if !WorkloadReady(KeyFor(group, dep.value).kind, ws[KeyFor(group, dep.value)]) then Closed
      else CheckDependencies(group, deps[1..], ws)
  }

  /** The gate opens exactly when every dependency is a role whose workload exists and is ready. */
  predicate DependencyServes(group: Group, dep: string, ws: Workloads) {
    var role := GetRole(group.roles, dep);
    && role.Some? && ReconcilerFor(role.value.workload).Some?
    && KeyFor(group, role.value) in ws
    && WorkloadReady(KeyFor(group, role.value).kind, ws[KeyFor(group, role.value)])
  }

  lemma {:induction false} GateMeaning(group: Group, deps: seq<string>, ws: Workloads)
    ensures CheckDependencies(group, deps, ws) == Open <==> forall d <- deps :: DependencyServes(group, d, ws)
  {
    if deps != [] {
      var rest := deps[1..];
      GateMeaning(group, rest, ws);
      assert deps == [deps[0]] + rest;
      assert (forall d <- deps :: DependencyServes(group, d, ws)) <==>
             DependencyServes(group, deps[0], ws) && forall d <- rest :: DependencyServes(group, d, ws);
    }
  }

  // ---------- The role loop ----------

  function PlanOf(role: RoleSpec): Result<RollingUpdate.Plan, RollingUpdate.Error> {
    RollingUpdate.PlanFor(RollingUpdate.Role(role.replicas, role.strategy))
  }

  /** A StatefulSet is refused a strategy that allows no step. */
  predicate StrategyFails(role: RoleSpec) {
    ReconcilerFor(role.workload) == Some(StatefulSet) && PlanOf(role).Err?
  }

  /**
   The size an existing workload gets. A StatefulSet gets what its unfinished replicas ask for (see
   RoleChanges.DecisionIsWanted), the other kinds the role's size.
   */
  function DecidedSize(env: Env, role: RoleSpec): nat
    requires !StrategyFails(role)
  {
    if ReconcilerFor(role.workload) != Some(StatefulSet) || role.name !in env.unready then role.replicas
    else
      RollingUpdate.WantReplicas(role.replicas, PlanOf(role).value.surge,
                                 RollingUpdate.Min(env.unready[role.name], role.replicas))
  }

  /** The most replicas the role's workload may be given. */
  function SizeLimit(role: RoleSpec): nat
    requires !StrategyFails(role)
  {
    role.replicas + if ReconcilerFor(role.workload) == Some(StatefulSet) then PlanOf(role).value.surge else 0
  }

  lemma SizeDecidedWithin(env: Env, role: RoleSpec)
    requires !StrategyFails(role)
    ensures role.replicas <= DecidedSize(env, role) <= SizeLimit(role)
  {
    RollingUpdate.PlanSize(RollingUpdate.Role(role.replicas, role.strategy));
  }

  /**
   The group-name label after an apply: an existing Deployment or StatefulSet gets the labels of its
   own selector, which never changes; a LeaderWorkerSet the group's.
   */
  function AppliedLabel(group: Group, kind: Kind, w: Workload): Option<string> {
    if kind == LeaderWorkerSet then Some(group.name)
    else if w.selectorLabel.Some? then w.selectorLabel
    else w.groupLabel
  }

  function Created(group: Group, role: RoleSpec): Workload {
    Workload(Some(group.uid), Some(group.name), Some(group.name), role.replicas, 0, 0)
  }

  /** The workload after its role was applied; None is an invalid strategy or a refusal by the API server. */
  function Applied(group: Group, role: RoleSpec, existing: Option<Workload>, env: Env): Option<Workload>
    requires ReconcilerFor(role.workload).Some?
  {
    if StrategyFails(role) then None
    else if existing.None? then Some(Created(group, role))
    else if role.name in env.skipping then existing
    else if existing.value.owner.Some? && existing.value.owner.value != group.uid then None   // one controller only
    else Some(existing.value.(owner := Some(group.uid), desired := DecidedSize(env, role),
                              groupLabel := AppliedLabel(group, ReconcilerFor(role.workload).value, existing.value)))
  }

  function Lookup(ws: Workloads, k: Key): Option<Workload> { if k in ws then Some(ws[k]) else None }

  datatype Stop = Completed | Requeued | Failed

  /** One role: None lets the loop go on. */
  function RoleStep(group: Group, role: RoleSpec, env: Env, ws: Workloads): (Option<Stop>, Workloads) {
    match CheckDependencies(group, role.dependencies, ws)
    case GateError => (Some(Failed), ws)
    case Closed => (Some(Requeued), ws)
    case Open =>
      if ReconcilerFor(role.workload).None? || role.name in env.failing then (Some(Failed), ws)
      else
        var applied := Applied(group, role, Lookup(ws, KeyFor(group, role)), env);
        if applied.None? then (Some(Failed), ws)
        else (if role.name in env.failingLate then Some(Failed) else None, ws[KeyFor(group, role) := applied.value])
  }

  function RunRoles(group: Group, sorted: seq<RoleSpec>, env: Env, ws: Workloads): (Stop, Workloads) {
    if sorted == [] then (Completed, ws)
    else
      var step := RoleStep(group, sorted[0], env, ws);
      if step.0.Some? then (step.0.value, step.1)
      else RunRoles(group, sorted[1..], env, step.1)
  }

  // ---------- Orphans ----------

  function KindName(k: Kind): string {
    match k
    case Deployment => "Deployment"
    case StatefulSet => "StatefulSet"
    case LeaderWorkerSet => "LeaderWorkerSet"
  }

  /** Some role asks for a workload of that kind and name; the API version is not looked at. */
  predicate Wanted(group: Group, k: Key) {
    exists i :: 0 <= i < |group.roles| && group.roles[i].workload.kind == KindName(k.kind)
                && WorkloadName(group, group.roles[i]) == k.name
  }

  predicate Controlled(group: Group, w: Workload) { w.owner == Some(group.uid) }

  /** Found when clean-up lists the group's workloads, which it does by label. */
  predicate Listed(group: Group, w: Workload) { w.groupLabel == Some(group.name) }

  predicate Orphan(group: Group, env: Env, k: Key, w: Workload) {
    && Controlled(group, w) && Listed(group, w) && !Wanted(group, k)
    && (k.kind == LeaderWorkerSet ==> env.lwsInstalled)
  }

  predicate Deletable(env: Env, k: Key) { k.kind !in env.unlisted && k !in env.undeleted }

  function WithoutOrphans(group: Group, env: Env, ws: Workloads): Workloads {
    map k | k in ws && !(Orphan(group, env, k, ws[k]) && Deletable(env, k)) :: ws[k]
  }

  /** Cleaning up one kind goes through. */
  predicate CleanupSucceeds(group: Group, env: Env, kind: Kind, ws: Workloads) {
    (kind == LeaderWorkerSet && !env.lwsInstalled)
    || (kind !in env.unlisted
        && forall k <- ws :: k.kind == kind && Orphan(group, env, k, ws[k]) ==> k !in env.undeleted)
  }

  lemma CleanupSucceedsAlike(group: Group, env: Env, kind: Kind, ws: Workloads, ws': Workloads)
    requires forall k: Key :: k.kind == kind ==> Lookup(ws, k) == Lookup(ws', k)
    ensures CleanupSucceeds(group, env, kind, ws) == CleanupSucceeds(group, env, kind, ws')
  {
    forall k | k in ws && k.kind == kind ensures k in ws' && ws'[k] == ws[k] {
      assert Lookup(ws, k) == Lookup(ws', k);
    }
    forall k | k in ws' && k.kind == kind ensures k in ws && ws'[k] == ws[k] {
      assert Lookup(ws, k) == Lookup(ws', k);
    }
  }

  /** The pass: orphans are removed only if every role was reconciled and the status written. */
  function Pass(group: Group, sorted: seq<RoleSpec>, env: Env, ws: Workloads): (Stop, Workloads) {
    var run := RunRoles(group, sorted, env, ws);
    if run.0 != Completed then run
    else if env.statusFails then (Failed, run.1)
    else
      var cleanedUp := !env.adaptersFail && forall kind :: CleanupSucceeds(group, env, kind, run.1);
      (if cleanedUp then Completed else Failed, WithoutOrphans(group, env, run.1))
  }

  /** The workloads of the cluster, changed object by object. */
  class Cluster {
    var workloads: Workloads

    constructor (workloads: Workloads)
      ensures this.workloads == workloads
    {
      this.workloads := workloads;
    }

    method CheckDependencyReady(group: Group, role: RoleSpec) returns (gate: Gate)
      ensures gate == CheckDependencies(group, role.dependencies, workloads)
    {
      for i := 0 to |role.dependencies|
        invariant CheckDependencies(group, role.dependencies, workloads)
                  == CheckDependencies(group, role.dependencies[i..], workloads)
      {
        var dep := GetRole(group.roles, role.dependencies[i]);
        if dep.None? || ReconcilerFor(dep.value.workload).None? {
          return GateError;
        }
        var key := KeyFor(group, dep.value);
        if key !in workloads {
          return GateError;
        }
        if !WorkloadReady(key.kind, workloads[key]) {
          return Closed;
        }
      }
      return Open;
    }

    method ReconcileRoles(group: Group, sorted: seq<RoleSpec>, env: Env) returns (stop: Stop)
      modifies this
      ensures (stop, workloads) == RunRoles(group, sorted, env, old(workloads))
    {
      for i := 0 to |sorted|
        invariant RunRoles(group, sorted, env, old(workloads)) == RunRoles(group, sorted[i..], env, workloads)
      {
        var role := sorted[i];
        assert sorted[i..][0] == role && sorted[i..][1..] == sorted[i + 1..];
        var gate := CheckDependencyReady(group, role);
        if gate == GateError {
          return Failed;
        }
        if gate == Closed {
          return Requeued;
        }
        if ReconcilerFor(role.workload).None? || role.name in env.failing {
          return Failed;
        }
        var key := KeyFor(group, role);
        var applied := Applied(group, role, Lookup(workloads, key), env);
        if applied.None? {
          return Failed;
        }
        workloads := workloads[key := applied.value];
        if role.name in env.failingLate {
          return Failed;
        }
      }
      return Completed;
    }

    /** Delete, one by one, the controlled workloads of one kind that no role wants any more. */
    method CleanupOrphanedWorkloads(group: Group, env: Env, kind: Kind) returns (ok: bool)
      modifies this
      ensures ok == CleanupSucceeds(group, env, kind, old(workloads))
      ensures workloads == map k | k in old(workloads) &&
                             !(k.kind == kind && Orphan(group, env, k, old(workloads)[k]) && Deletable(env, k))
                             :: old(workloads)[k]
    {
      if kind == LeaderWorkerSet && !env.lwsInstalled {
        return true;
      }
      if kind in env.unlisted {
        return false;
      }
      ok := true;
      var listed := set k | k in workloads && k.kind == kind && Listed(group, workloads[k]);
      ghost var was := workloads;
      while listed != {}
        invariant listed <= was.Keys && forall k <- listed :: k.kind == kind && k in workloads
        invariant forall k :: k in workloads ==> k in was && workloads[k] == was[k]
        invariant forall k :: k in was && k !in workloads ==>
                    k.kind == kind && Orphan(group, env, k, was[k]) && Deletable(env, k)
        invariant forall k :: k in workloads && k.kind == kind && k !in listed ==>
                    !Orphan(group, env, k, was[k]) || !Deletable(env, k)
        invariant ok <==> forall k :: k in was && k.kind == kind && k !in listed && Orphan(group, env, k, was[k]) ==>
                    k !in env.undeleted
        decreases listed
      {
        var k :| k in listed;
        listed := listed - {k};
        if !Controlled(group, workloads[k]) {
          continue;
        }
        var found := false;
        for i := 0 to |group.roles|
          invariant found ==> Wanted(group, k)
          invariant !found ==> forall j :: 0 <= j < i ==>
                      !(group.roles[j].workload.kind == KindName(kind) && WorkloadName(group, group.roles[j]) == k.name)
        {
          if group.roles[i].workload.kind == KindName(kind) && WorkloadName(group, group.roles[i]) == k.name {
            found := true;
            break;
          }
        }
        if found {
          continue;
        }
        if k in env.undeleted {
          ok := false;
        } else {
          workloads := map j | j in workloads && j != k :: workloads[j];
        }
      }
    }

    method DeleteRoles(group: Group, env: Env) returns (ok: bool)
      modifies this
      ensures workloads == WithoutOrphans(group, env, old(workloads))
      ensures ok == (!env.adaptersFail && forall kind :: CleanupSucceeds(group, env, kind, old(workloads)))
    {
      ghost var was := workloads;
      var deployments := CleanupOrphanedWorkloads(group, env, Deployment);
      CleanupSucceedsAlike(group, env, StatefulSet, was, workloads);
      CleanupSucceedsAlike(group, env, LeaderWorkerSet, was, workloads);
      var statefulSets := CleanupOrphanedWorkloads(group, env, StatefulSet);
      CleanupSucceedsAlike(group, env, LeaderWorkerSet, was, workloads);
      var leaderWorkerSets := CleanupOrphanedWorkloads(group, env, LeaderWorkerSet);
      ok := deployments && statefulSets && leaderWorkerSets && !env.adaptersFail;
      assert ok ==> forall kind :: CleanupSucceeds(group, env, kind, was) by {
        forall kind | ok ensures CleanupSucceeds(group, env, kind, was) {
          match kind
          case Deployment =>
          case StatefulSet =>
          case LeaderWorkerSet =>
        }
      }
    }

    method Reconcile(group: Group, sorted: seq<RoleSpec>, env: Env) returns (stop: Stop)
      modifies this
      ensures (stop, workloads) == Pass(group, sorted, env, old(workloads))
    {
      stop := ReconcileRoles(group, sorted, env);
      if stop != Completed {
        return;
      }
      if env.statusFails {
        return Failed;
      }
      var ok := DeleteRoles(group, env);
      if !ok {
        return Failed;
      }
    }
  }
}
