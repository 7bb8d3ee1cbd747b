/** What reconcile passes keep and reach: start-up order, bounded start-up, convergence of clean-up. */
module PassRuns {
  import opened Wrappers
  import opened Group
  import opened RoleOrder
  import opened GroupPass
  import RollingUpdate

  /** The roles as the dependency sort hands them to the pass. */
  predicate Ordered(group: Group, sorted: seq<RoleSpec>) {
    && UniqueNames(group.roles) && IsRoleOrder(group.roles, sorted)
    && forall r <- group.roles :: r.name != ""
  }

  /** Every dependency of role i is a role in front of it. */
  predicate DependsOnEarlier(sorted: seq<RoleSpec>, i: nat)
    requires i < |sorted|
  {
    forall d <- sorted[i].dependencies :: exists j :: 0 <= j < i && sorted[j].name == d
  }

  lemma OrderedMeaning(group: Group, sorted: seq<RoleSpec>)
    requires Ordered(group, sorted)
    ensures UniqueNames(sorted)
    ensures forall r :: r in group.roles <==> r in sorted
    ensures forall i :: 0 <= i < |sorted| ==> DependsOnEarlier(sorted, i)
    ensures forall r <- sorted :: GetRole(group.roles, r.name) == Some(r)
  {
    SortedIsPermutation(group.roles, sorted);
  }

  predicate Exists(group: Group, role: RoleSpec, ws: Workloads) {
    ReconcilerFor(role.workload).Some? && KeyFor(group, role) in ws
  }

  // ---------- The loop, role by role ----------

  /** A step that goes on has applied its role; one that stops has at most done the same. */
  lemma StepMeaning(group: Group, role: RoleSpec, env: Env, ws: Workloads)
    ensures var step := RoleStep(group, role, env, ws);
            && ws.Keys <= step.1.Keys && step.0 != Some(Completed)
            && (step.1 != ws || step.0.None? ==>
                  && ReconcilerFor(role.workload).Some?
                  && CheckDependencies(group, role.dependencies, ws) == Open
                  && var key := KeyFor(group, role);
                     var applied := Applied(group, role, Lookup(ws, key), env);
                     applied.Some? && step.1 == ws[key := applied.value])
  {
    hide ReconcilerFor, CheckDependencies, Applied;
  }

  /** The workloads when the loop gets to role k, if it does. */
  function Reaches(group: Group, sorted: seq<RoleSpec>, env: Env, ws: Workloads, k: nat): Option<Workloads>
    requires k <= |sorted|
  {
    if k == 0 then Some(ws)
    else
      var before := Reaches(group, sorted, env, ws, k - 1);
      if before.None? then None
      else
        var step := RoleStep(group, sorted[k - 1], env, before.value);
        if step.0.Some? then None else Some(step.1)
  }

  lemma {:induction false} ReachesShift(group: Group, sorted: seq<RoleSpec>, env: Env, ws: Workloads, k: nat)
    requires 1 <= k <= |sorted| && RoleStep(group, sorted[0], env, ws).0.None?
    ensures Reaches(group, sorted, env, ws, k)
            == Reaches(group, sorted[1..], env, RoleStep(group, sorted[0], env, ws).1, k - 1)
  {
    if k > 1 {
      ReachesShift(group, sorted, env, ws, k - 1);
      assert sorted[1..][k - 2] == sorted[k - 1];
    } else {
      assert Reaches(group, sorted, env, ws, 0) == Some(ws);
    }
  }

  /** The loop ends where it stops, or at the end. */
  lemma {:induction false} RunRolesStopsAt(group: Group, sorted: seq<RoleSpec>, env: Env, ws: Workloads)
    returns (k: nat)
    ensures k <= |sorted| && Reaches(group, sorted, env, ws, k).Some?
    ensures var at := Reaches(group, sorted, env, ws, k).value;
            if k == |sorted| then RunRoles(group, sorted, env, ws) == (Completed, at)
            else var step := RoleStep(group, sorted[k], env, at);
                 step.0.Some? && RunRoles(group, sorted, env, ws) == (step.0.value, step.1)
  {
    hide RoleStep;
    k := 0;
    if sorted != [] {
      var step := RoleStep(group, sorted[0], env, ws);
      if step.0.None? {
        var k' := RunRolesStopsAt(group, sorted[1..], env, step.1);
        k := k' + 1;
        ReachesShift(group, sorted, env, ws, k);
      }
    }
  }

  lemma {:induction false} ReachesKeepsKeys(group: Group, sorted: seq<RoleSpec>, env: Env, ws: Workloads, k: nat)
    requires k <= |sorted| && Reaches(group, sorted, env, ws, k).Some?
    ensures var at := Reaches(group, sorted, env, ws, k).value;
            && ws.Keys <= at.Keys
            && (forall i :: 0 <= i < k ==> Exists(group, sorted[i], at))
  {
    hide RoleStep, ReconcilerFor, CheckDependencies, Applied;
    if k > 0 {
      ReachesKeepsKeys(group, sorted, env, ws, k - 1);
      StepMeaning(group, sorted[k - 1], env, Reaches(group, sorted, env, ws, k - 1).value);
    }
  }

  // ---------- The gate never meets a missing workload ----------

  /**
   Whatever the cluster looked like, when the loop gets to a role all its dependencies exist: the
   check can find them unready, but it never fails.
   */
  lemma {:induction false} GateNeverFails(group: Group, sorted: seq<RoleSpec>, env: Env, ws: Workloads, k: nat)
    requires Ordered(group, sorted) && k < |sorted| && Reaches(group, sorted, env, ws, k).Some?
    ensures CheckDependencies(group, sorted[k].dependencies, Reaches(group, sorted, env, ws, k).value) != GateError
  {
    OrderedMeaning(group, sorted);
    ReachesKeepsKeys(group, sorted, env, ws, k);
    var at := Reaches(group, sorted, env, ws, k).value;
    assert DependsOnEarlier(sorted, k);
    forall d | d in sorted[k].dependencies ensures DependencyExists(group, d, at) {
      var j :| 0 <= j < k && sorted[j].name == d;
      assert sorted[j] in sorted && Exists(group, sorted[j], at);
    }
    ExistingNeverFail(group, sorted[k].dependencies, at);
  }

  predicate DependencyExists(group: Group, dep: string, ws: Workloads) {
    var role := GetRole(group.roles, dep);
    role.Some? && Exists(group, role.value, ws)
  }

  lemma {:induction false} ExistingNeverFail(group: Group, deps: seq<string>, ws: Workloads)
    requires forall d <- deps :: DependencyExists(group, d, ws)
    ensures CheckDependencies(group, deps, ws) != GateError
  {
    if deps != [] {
      assert DependencyExists(group, deps[0], ws);
      ExistingNeverFail(group, deps[1..], ws);
    }
  }

  // ---------- Existing workloads are closed under dependencies ----------

  predicate RoleClosed(group: Group, role: RoleSpec, ws: Workloads) {
    Exists(group, role, ws) ==> forall d <- role.dependencies :: DependencyExists(group, d, ws)
  }

  predicate ClosedUnderDependencies(group: Group, ws: Workloads) {
    forall r <- group.roles :: RoleClosed(group, r, ws)
  }

  lemma DistinctKeys(group: Group, a: RoleSpec, b: RoleSpec)
    requires UniqueNames(group.roles) && a in group.roles && b in group.roles
    requires ReconcilerFor(a.workload).Some? && ReconcilerFor(b.workload).Some? && KeyFor(group, a) == KeyFor(group, b)
    ensures a == b
  {
    WorkloadNameInjective(group, a, b);
    FirstNamedUnique(group.roles, a);
    FirstNamedUnique(group.roles, b);
  }

  lemma StepKeepsClosed(group: Group, role: RoleSpec, env: Env, ws: Workloads)
    requires UniqueNames(group.roles) && role in group.roles && ClosedUnderDependencies(group, ws)
    ensures ClosedUnderDependencies(group, RoleStep(group, role, env, ws).1)
  {
    var ws' := RoleStep(group, role, env, ws).1;
    GateMeaning(group, role.dependencies, ws);
    if ws' != ws {
      forall r | r in group.roles ensures RoleClosed(group, r, ws') {
        assert RoleClosed(group, r, ws);
        if Exists(group, r, ws') && !Exists(group, r, ws) {
          DistinctKeys(group, r, role);
          forall d | d in r.dependencies ensures DependencyExists(group, d, ws') {
            assert DependencyServes(group, d, ws);
          }
        } else if Exists(group, r, ws) {
          forall d | d in r.dependencies ensures DependencyExists(group, d, ws') {
            assert DependencyExists(group, d, ws);
          }
        }
      }
    }
  }

  lemma {:induction false} RunKeepsClosed(group: Group, sorted: seq<RoleSpec>, env: Env, ws: Workloads)
    requires UniqueNames(group.roles) && (forall r <- sorted :: r in group.roles) && ClosedUnderDependencies(group, ws)
    ensures ClosedUnderDependencies(group, RunRoles(group, sorted, env, ws).1)
  {
    if sorted != [] {
      StepKeepsClosed(group, sorted[0], env, ws);
      var step := RoleStep(group, sorted[0], env, ws);
      if step.0.None? {
        RunKeepsClosed(group, sorted[1..], env, step.1);
      }
    }
  }

  /** A kind is a single path segment, as the API requires. */
  predicate PlainKinds(group: Group) {
    forall r <- group.roles :: '/' !in r.workload.kind
  }

  lemma KindNamesSegment(apiVersion: string, kind: string, group: string, name: string)
    requires apiVersion + "/" + kind == group + "/" + name
    requires '/' !in kind && '/' !in name
    ensures kind == name
  {
    LastSlash(apiVersion, kind);
    LastSlash(group, name);
    var full := apiVersion + "/" + kind;
    assert kind == full[|apiVersion| + 1..] && name == full[|group| + 1..];
  }

  lemma LastSlash(path: string, segment: string)
    requires '/' !in segment
    ensures var full := path + "/" + segment;
            full[|path|] == '/' && forall i :: |path| < i < |full| ==> full[i] != '/'
  {
    var full := path + "/" + segment;
    forall i | |path| < i < |full| ensures full[i] != '/' {
      assert full[i] == segment[i - |path| - 1];
    }
  }

  /** The workload a supported role asks for is never an orphan. */
  lemma KindOfReconciler(w: WorkloadSpec)
    requires '/' !in w.kind && ReconcilerFor(w).Some?
    ensures w.kind == KindName(ReconcilerFor(w).value)
  {
    var full := w.apiVersion + "/" + w.kind;
    if full == "apps/v1/Deployment" {
      assert "apps/v1" + "/" + "Deployment" == "apps/v1/Deployment";
      KindNamesSegment(w.apiVersion, w.kind, "apps/v1", "Deployment");
    } else if full == "apps/v1/StatefulSet" {
      assert "apps/v1" + "/" + "StatefulSet" == "apps/v1/StatefulSet";
      KindNamesSegment(w.apiVersion, w.kind, "apps/v1", "StatefulSet");
    } else {
      assert "leaderworkerset.x-k8s.io/v1" + "/" + "LeaderWorkerSet" == "leaderworkerset.x-k8s.io/v1/LeaderWorkerSet";
      KindNamesSegment(w.apiVersion, w.kind, "leaderworkerset.x-k8s.io/v1", "LeaderWorkerSet");
    }
  }

  /** The workload types that are supported, by API version and kind. */
  lemma ReconcilerForExactly(w: WorkloadSpec)
    requires '/' !in w.kind
    ensures ReconcilerFor(w) == Some(Deployment) <==> w.apiVersion == "apps/v1" && w.kind == "Deployment"
    ensures ReconcilerFor(w) == Some(StatefulSet) <==> w.apiVersion == "apps/v1" && w.kind == "StatefulSet"
    ensures ReconcilerFor(w) == Some(LeaderWorkerSet) <==>
              w.apiVersion == "leaderworkerset.x-k8s.io/v1" && w.kind == "LeaderWorkerSet"
  {
    TypeRead(w, "apps/v1", "Deployment");
    TypeRead(w, "apps/v1", "StatefulSet");
    TypeRead(w, "leaderworkerset.x-k8s.io/v1", "LeaderWorkerSet");
    assert "apps/v1" + "/" + "Deployment" == "apps/v1/Deployment";
    assert "apps/v1" + "/" + "StatefulSet" == "apps/v1/StatefulSet";
    assert "leaderworkerset.x-k8s.io/v1" + "/" + "LeaderWorkerSet" == "leaderworkerset.x-k8s.io/v1/LeaderWorkerSet";
    assert "apps/v1/Deployment" != "apps/v1/StatefulSet" by {
      assert "apps/v1/Deployment"[8] != "apps/v1/StatefulSet"[8];
    }
    assert "apps/v1/Deployment" != "leaderworkerset.x-k8s.io/v1/LeaderWorkerSet" by {
      assert "apps/v1/Deployment"[0] != "leaderworkerset.x-k8s.io/v1/LeaderWorkerSet"[0];
    }
    assert "apps/v1/StatefulSet" != "leaderworkerset.x-k8s.io/v1/LeaderWorkerSet" by {
      assert "apps/v1/StatefulSet"[0] != "leaderworkerset.x-k8s.io/v1/LeaderWorkerSet"[0];
    }
  }

  lemma TypeRead(w: WorkloadSpec, apiVersion: string, kind: string)
    requires '/' !in w.kind && '/' !in kind
    ensures w.apiVersion + "/" + w.kind == apiVersion + "/" + kind <==> w.apiVersion == apiVersion && w.kind == kind
  {
    if w.apiVersion + "/" + w.kind == apiVersion + "/" + kind {
      KindNamesSegment(w.apiVersion, w.kind, apiVersion, kind);
      var full := w.apiVersion + "/" + w.kind;
      assert full[..|full| - |kind| - 1] == w.apiVersion
        && (apiVersion + "/" + kind)[..|full| - |kind| - 1] == apiVersion;
    }
  }

  lemma RoleKeyWanted(group: Group, role: RoleSpec)
    requires PlainKinds(group) && role in group.roles && ReconcilerFor(role.workload).Some?
    ensures Wanted(group, KeyFor(group, role))
  {
    KindOfReconciler(role.workload);
    var i :| 0 <= i < |group.roles| && group.roles[i] == role;
    assert group.roles[i].workload.kind == KindName(KeyFor(group, role).kind);
  }

  /** Every pass, however it ends, leaves the existing workloads closed under dependencies. */
  lemma PassKeepsClosed(group: Group, sorted: seq<RoleSpec>, env: Env, ws: Workloads)
    requires Ordered(group, sorted) && PlainKinds(group) && ClosedUnderDependencies(group, ws)
    ensures ClosedUnderDependencies(group, Pass(group, sorted, env, ws).1)
  {
    OrderedMeaning(group, sorted);
    RunKeepsClosed(group, sorted, env, ws);
    var run := RunRoles(group, sorted, env, ws).1;
    var final := Pass(group, sorted, env, ws).1;
    forall r | r in group.roles && ReconcilerFor(r.workload).Some?
      ensures KeyFor(group, r) in run <==> KeyFor(group, r) in final
    {
      RoleKeyWanted(group, r);
    }
    forall r | r in group.roles ensures RoleClosed(group, r, final) {
      assert RoleClosed(group, r, run);
      if Exists(group, r, final) {
        forall d | d in r.dependencies ensures DependencyExists(group, d, final) {
          assert DependencyExists(group, d, run);
        }
      }
    }
  }

  // ---------- Convergence of a completed pass ----------

  /** The role was applied once, to what the pass found in its place. */
  predicate RoleApplied(group: Group, role: RoleSpec, env: Env, ws: Workloads, after: Workloads) {
    && ReconcilerFor(role.workload).Some?
    && var key := KeyFor(group, role);
       key in after && Applied(group, role, Lookup(ws, key), env) == Some(after[key])
  }

  predicate NobodysKey(group: Group, roles: seq<RoleSpec>, k: Key) {
    forall r <- roles :: ReconcilerFor(r.workload).Some? ==> k != KeyFor(group, r)
  }

  lemma HeadKeyDistinct(group: Group, sorted: seq<RoleSpec>)
    requires UniqueNames(group.roles) && UniqueNames(sorted) && (forall r <- sorted :: r in group.roles)
    requires sorted != [] && ReconcilerFor(sorted[0].workload).Some?
    ensures NobodysKey(group, sorted[1..], KeyFor(group, sorted[0]))
  {
    hide ReconcilerFor;
    forall r | r in sorted[1..] && ReconcilerFor(r.workload).Some?
      ensures KeyFor(group, sorted[0]) != KeyFor(group, r)
    {
      var i :| 1 <= i < |sorted| && sorted[i] == r;
      if KeyFor(group, r) == KeyFor(group, sorted[0]) {
        DistinctKeys(group, r, sorted[0]);
      }
    }
  }

  lemma {:induction false} RunOutcome(group: Group, sorted: seq<RoleSpec>, env: Env, ws: Workloads)
    requires UniqueNames(group.roles) && UniqueNames(sorted) && (forall r <- sorted :: r in group.roles)
    requires RunRoles(group, sorted, env, ws).0 == Completed
    ensures var after := RunRoles(group, sorted, env, ws).1;
            && (forall r <- sorted :: RoleApplied(group, r, env, ws, after))
            && (forall k :: NobodysKey(group, sorted, k) ==> Lookup(after, k) == Lookup(ws, k))
  {
    hide RoleStep, ReconcilerFor, CheckDependencies, Applied;
    if sorted != [] {
      var head, rest := sorted[0], sorted[1..];
      var step := RoleStep(group, head, env, ws);
      var after := RunRoles(group, sorted, env, ws).1;
      StepMeaning(group, head, env, ws);
      assert sorted == [head] + rest;
      RunOutcome(group, rest, env, step.1);
      HeadKeyDistinct(group, sorted);
      assert Lookup(after, KeyFor(group, head)) == Lookup(step.1, KeyFor(group, head));
      forall r | r in sorted ensures RoleApplied(group, r, env, ws, after) {
        if r in rest {
          assert RoleApplied(group, r, env, step.1, after);
          assert KeyFor(group, r) != KeyFor(group, head);
        }
      }
      forall k | NobodysKey(group, sorted, k) ensures Lookup(after, k) == Lookup(ws, k) {
        assert NobodysKey(group, rest, k) && head in sorted;
      }
    }
  }

  /** A clean-up that went through has left no orphan. */
  lemma OrphansGone(group: Group, env: Env, ws: Workloads, k: Key)
    requires env.lwsInstalled && CleanupSucceeds(group, env, k.kind, ws)
    requires k in WithoutOrphans(group, env, ws) && Controlled(group, ws[k]) && Listed(group, ws[k])
    ensures Wanted(group, k)
  {
    hide Controlled, Wanted;
  }

  /** What a role wants is some role's workload after a completed pass. */
  lemma WantedBelongsToRole(group: Group, sorted: seq<RoleSpec>, env: Env, ws: Workloads, k: Key)
    requires Ordered(group, sorted) && PlainKinds(group) && Wanted(group, k)
    requires RunRoles(group, sorted, env, ws).0 == Completed
    ensures exists r :: r in group.roles && ReconcilerFor(r.workload).Some? && KeyFor(group, r) == k
  {
    hide RunRoles, ReconcilerFor, IsRoleOrder, WorkloadName;
    OrderedMeaning(group, sorted);
    RunOutcome(group, sorted, env, ws);
    var i :| 0 <= i < |group.roles| && group.roles[i].workload.kind == KindName(k.kind)
             && WorkloadName(group, group.roles[i]) == k.name;
    var r := group.roles[i];
    assert r in sorted && RoleApplied(group, r, env, ws, RunRoles(group, sorted, env, ws).1);
    KindOfReconciler(r.workload);
    KindNameInjective(ReconcilerFor(r.workload).value, k.kind);
  }

  /**
   A role's workload exists. A new one is as created; one found up to date is left as it is; any
   other is the group's, with the label its selector allows and within the role's size and surge.
   */
  predicate RoleConverged(group: Group, role: RoleSpec, env: Env, ws: Workloads, final: Workloads) {
    && Exists(group, role, final) && !StrategyFails(role)
    && var key := KeyFor(group, role);
       if key !in ws then final[key] == Created(group, role)
       else if role.name in env.skipping then final[key] == ws[key]
       else
         && Controlled(group, final[key]) && final[key].groupLabel == AppliedLabel(group, key.kind, ws[key])
         && role.replicas <= final[key].desired == DecidedSize(env, role) <= SizeLimit(role)
         && (key.kind != StatefulSet ==> final[key].desired == role.replicas)
  }

  lemma AppliedConverges(group: Group, role: RoleSpec, env: Env, ws: Workloads, run: Workloads)
    requires PlainKinds(group) && role in group.roles && RoleApplied(group, role, env, ws, run)
    ensures RoleConverged(group, role, env, ws, WithoutOrphans(group, env, run))
  {
    RoleKeyWanted(group, role);
    SizeDecidedWithin(env, role);
    assert ReconcilerFor(role.workload) != Some(StatefulSet) ==> DecidedSize(env, role) == role.replicas;
    hide ReconcilerFor, DecidedSize, SizeLimit, PlanOf;
  }

  /** The size an existing StatefulSet is given is the one its reconcile stores. */
  lemma SizeAsReconciled(env: Env, role: RoleSpec, sts: RollingUpdate.Sts, equal: bool, obs: RollingUpdate.Observation)
    requires ReconcilerFor(role.workload) == Some(StatefulSet) && role.name in env.unready
    requires sts.Sts? && RollingUpdate.Consistent(sts) && RollingUpdate.Covers(obs, sts)
    requires var next := RollingUpdate.Next(sts, RollingUpdate.Role(role.replicas, role.strategy), equal, obs);
             next.Ok? && (equal ==> next.value != sts)
    requires equal ==> obs.Ok? && env.unready[role.name] == RollingUpdate.RoleUnready(obs.value, role.replicas)
    requires !equal ==> env.unready[role.name] == role.replicas
    ensures !StrategyFails(role)
    ensures RollingUpdate.Next(sts, RollingUpdate.Role(role.replicas, role.strategy), equal, obs).value.replicas
            == DecidedSize(env, role)
  {
    RollingUpdate.PlanSize(RollingUpdate.Role(role.replicas, role.strategy));
    if equal {
      RollingUpdate.RoleUnreadyBound(obs.value, role.replicas);
    }
    hide RollingUpdate.RollingPartition, RollingUpdate.PlanFor, RollingUpdate.WantReplicas, RollingUpdate.RoleUnready;
  }

  predicate SomeRoles(group: Group, k: Key) {
    exists r :: r in group.roles && ReconcilerFor(r.workload).Some? && KeyFor(group, r) == k
  }

  /**
   After a completed pass every role has its workload (DistinctKeys: one each), also right after
   roles were renamed, removed or changed kind. Any other workload the group still controls is one
   that clean-up does not find because it lacks the group's label.
   */
  lemma CompletedPassConverges(group: Group, sorted: seq<RoleSpec>, env: Env, ws: Workloads)
    requires Ordered(group, sorted) && PlainKinds(group) && env.lwsInstalled
    requires Pass(group, sorted, env, ws).0 == Completed
    ensures var final := Pass(group, sorted, env, ws).1;
            && (forall r <- group.roles :: RoleConverged(group, r, env, ws, final))
            && (forall k <- final :: Controlled(group, final[k]) ==> SomeRoles(group, k) || !Listed(group, final[k]))
  {
    hide RunRoles, ReconcilerFor, IsRoleOrder;
    OrderedMeaning(group, sorted);
    RunOutcome(group, sorted, env, ws);
    var run, final := RunRoles(group, sorted, env, ws).1, Pass(group, sorted, env, ws).1;
    forall r | r in group.roles ensures RoleConverged(group, r, env, ws, final) {
      assert r in sorted && RoleApplied(group, r, env, ws, run);
      AppliedConverges(group, r, env, ws, run);
    }
    forall k | k in final && Controlled(group, final[k]) && Listed(group, final[k]) ensures SomeRoles(group, k) {
      OrphansGone(group, env, run, k);
      WantedBelongsToRole(group, sorted, env, ws, k);
    }
  }

  // ---------- Workloads clean-up does not find ----------

  /** Owned by the group, and never listed as its own. */
  predicate Stray(group: Group, w: Workload) { Controlled(group, w) && !Listed(group, w) }

  /** What no role asks for and the group controls outlives a completed pass exactly if it is a stray. */
  lemma OwnedLeftExactly(group: Group, sorted: seq<RoleSpec>, env: Env, ws: Workloads, k: Key)
    requires Ordered(group, sorted) && PlainKinds(group) && env.lwsInstalled
    requires Pass(group, sorted, env, ws).0 == Completed
    requires k in ws && Controlled(group, ws[k]) && !Wanted(group, k)
    ensures k in Pass(group, sorted, env, ws).1 <==> Stray(group, ws[k])
  {
    hide RunRoles, ReconcilerFor, IsRoleOrder, Wanted;
    UnwantedIsNobodys(group, sorted, env, ws, k);
    assert CleanupSucceeds(group, env, k.kind, RunRoles(group, sorted, env, ws).1);
  }

  lemma UnwantedIsNobodys(group: Group, sorted: seq<RoleSpec>, env: Env, ws: Workloads, k: Key)
    requires Ordered(group, sorted) && PlainKinds(group) && !Wanted(group, k)
    ensures Lookup(RunRoles(group, sorted, env, ws).1, k) == Lookup(ws, k)
  {
    OrderedMeaning(group, sorted);
    forall r | r in sorted && ReconcilerFor(r.workload).Some? ensures k != KeyFor(group, r) {
      if k == KeyFor(group, r) {
        RoleKeyWanted(group, r);
      }
    }
    RunLeavesOthers(group, sorted, env, ws, k);
  }

  /**
   Exactly when a completed pass makes a stray of the workload in a role's place, or leaves it one:
   it was there, and it was found up to date as one, or it is no LeaderWorkerSet and its selector, or
   else the label it had, is not the group's.
   */
  lemma StrayMadeExactly(group: Group, sorted: seq<RoleSpec>, env: Env, ws: Workloads, role: RoleSpec)
    requires Ordered(group, sorted) && PlainKinds(group) && role in group.roles
    requires Pass(group, sorted, env, ws).0 == Completed
    ensures Exists(group, role, Pass(group, sorted, env, ws).1)
    ensures var key := KeyFor(group, role);
            Stray(group, Pass(group, sorted, env, ws).1[key])
            <==> && key in ws
                 && if role.name in env.skipping then Stray(group, ws[key])
                    else && key.kind != LeaderWorkerSet
                         && (if ws[key].selectorLabel.Some? then ws[key].selectorLabel else ws[key].groupLabel)
                            != Some(group.name)
  {
    hide RunRoles, ReconcilerFor, IsRoleOrder;
    OrderedMeaning(group, sorted);
    RunOutcome(group, sorted, env, ws);
    assert role in sorted && RoleApplied(group, role, env, ws, RunRoles(group, sorted, env, ws).1);
    AppliedConverges(group, role, env, ws, RunRoles(group, sorted, env, ws).1);
  }

  /** The group's label is on it if the group controls it, and every apply puts or keeps it there. */
  predicate KeepsLabel(group: Group, k: Key, w: Workload) {
    && (k.kind == LeaderWorkerSet || w.selectorLabel == Some(group.name))
    && (Controlled(group, w) ==> Listed(group, w))
  }

  /** What the group controls or could take over has the group's selector, as what it created itself. */
  predicate OwnSelectors(group: Group, ws: Workloads) {
    forall k <- ws :: Controlled(group, ws[k]) || (ws[k].owner.None? && SomeRoles(group, k)) ==>
      KeepsLabel(group, k, ws[k])
  }

  lemma StepKeepsSelectors(group: Group, role: RoleSpec, env: Env, ws: Workloads)
    requires role in group.roles && OwnSelectors(group, ws)
    ensures OwnSelectors(group, RoleStep(group, role, env, ws).1)
  {
    hide CheckDependencies, DecidedSize, PlanOf;
    StepMeaning(group, role, env, ws);
    var ws' := RoleStep(group, role, env, ws).1;
    if ws' != ws {
      var key := KeyFor(group, role);
      assert SomeRoles(group, key);
      assert ws' == ws[key := ws'[key]];
      assert Controlled(group, ws'[key]) ==> KeepsLabel(group, key, ws'[key]);
    }
  }

  lemma {:induction false} RunKeepsSelectors(group: Group, sorted: seq<RoleSpec>, env: Env, ws: Workloads)
    requires (forall r <- sorted :: r in group.roles) && OwnSelectors(group, ws)
    ensures OwnSelectors(group, RunRoles(group, sorted, env, ws).1)
  {
    hide RoleStep, OwnSelectors;
    if sorted != [] {
      StepKeepsSelectors(group, sorted[0], env, ws);
      var step := RoleStep(group, sorted[0], env, ws);
      if step.0.None? {
        RunKeepsSelectors(group, sorted[1..], env, step.1);
      }
    }
  }

  /**
   A group that only ever met its own selectors keeps to them in every pass, however it ends; and
   after a completed one the workloads it owns are those of its roles and no others.
   */
  lemma OwnSelectorsConverge(group: Group, sorted: seq<RoleSpec>, env: Env, ws: Workloads)
    requires Ordered(group, sorted) && PlainKinds(group) && env.lwsInstalled && OwnSelectors(group, ws)
    ensures var (stop, final) := Pass(group, sorted, env, ws);
            && OwnSelectors(group, final)
            && (stop == Completed ==> forall k <- final :: Controlled(group, final[k]) ==> SomeRoles(group, k))
  {
    hide ReconcilerFor, IsRoleOrder, RunRoles;
    OrderedMeaning(group, sorted);
    RunKeepsSelectors(group, sorted, env, ws);
    var (stop, final) := Pass(group, sorted, env, ws);
    if stop == Completed {
      CompletedPassConverges(group, sorted, env, ws);
    }
  }

  /**
   An unowned Deployment in a role's place, its selector and labels silent about the group: a
   completed pass takes it over, and once the role is gone no pass of the group removes it.
   */
  lemma AdoptedOutlivesRole(group: Group, sorted: seq<RoleSpec>, env: Env, ws: Workloads, role: RoleSpec,
                            later: Group, sorted': seq<RoleSpec>, env': Env)
    requires Ordered(group, sorted) && PlainKinds(group) && role in group.roles && role.name !in env.skipping
    requires Pass(group, sorted, env, ws).0 == Completed
    requires ReconcilerFor(role.workload) == Some(Deployment) && KeyFor(group, role) in ws
    requires var w := ws[KeyFor(group, role)]; w.owner.None? && w.groupLabel.None? && w.selectorLabel.None?
    requires later.name == group.name && later.uid == group.uid
    requires Ordered(later, sorted') && PlainKinds(later) && !Wanted(later, KeyFor(group, role))
    ensures var k, taken := KeyFor(group, role), Pass(group, sorted, env, ws).1;
            && k in taken && Controlled(group, taken[k])
            && Lookup(Pass(later, sorted', env', taken).1, k) == Some(taken[k])
  {
    hide RunRoles, ReconcilerFor, IsRoleOrder, Wanted;
    StrayMadeExactly(group, sorted, env, ws, role);
    UnwantedIsNobodys(later, sorted', env', Pass(group, sorted, env, ws).1, KeyFor(group, role));
  }

  const DEPLOYMENT_TYPE := WorkloadSpec("apps/v1", "Deployment")
  const PLAIN_ENV := Env({}, {}, {}, map[], false, {}, {}, false, true)

  /** A group of one role without dependencies, whose workload is a Deployment. */
  function OneRole(name: string): RoleSpec { RoleSpec(name, 1, [], DEPLOYMENT_TYPE, false, None) }

  function OneRoleGroup(name: string): Group { Group("g", "1", [OneRole(name)]) }

  lemma OneRolePass(name: string, ws: Workloads)
    ensures var group, role := OneRoleGroup(name), OneRole(name);
            var k := Key(Deployment, "g-" + name);
            && ReconcilerFor(role.workload) == Some(Deployment) && KeyFor(group, role) == k
            && (var applied := Applied(group, role, Lookup(ws, k), PLAIN_ENV);
                applied.Some? ==> RunRoles(group, [role], PLAIN_ENV, ws) == (Completed, ws[k := applied.value]))
  {
    var group, role := OneRoleGroup(name), OneRole(name);
    assert "apps/v1" + "/" + "Deployment" == "apps/v1/Deployment";
    assert "g" + "-" + name == "g-" + name;
    assert CheckDependencies(group, [], ws) == Open;
    assert [role][1..] == [];
    var applied := Applied(group, role, Lookup(ws, KeyFor(group, role)), PLAIN_ENV);
    if applied.Some? {
      var step := RoleStep(group, role, PLAIN_ENV, ws);
      assert step == (None, ws[KeyFor(group, role) := applied.value]);
      assert RunRoles(group, [], PLAIN_ENV, step.1) == (Completed, step.1);
    }
  }

  /** For instance: the role "a" takes over a Deployment named "g-a", and is then renamed "b". */
  lemma AdoptedOutlivesRename()
    ensures var a, b := OneRoleGroup("a"), OneRoleGroup("b");
            var k := Key(Deployment, "g-a");
            var (stop1, taken) := Pass(a, [OneRole("a")], PLAIN_ENV, map[k := Workload(None, None, None, 1, 1, 1)]);
            var (stop2, final) := Pass(b, [OneRole("b")], PLAIN_ENV, taken);
            stop1 == Completed == stop2 && k in final && Controlled(b, final[k])
  {
    var a, b, k, kb := OneRoleGroup("a"), OneRoleGroup("b"), Key(Deployment, "g-a"), Key(Deployment, "g-b");
    var w := Workload(None, None, None, 1, 1, 1);
    OneRolePass("a", map[k := w]);
    assert kb != k by {
      assert "g-a"[2] != "g-b"[2];
    }
    assert "g-" + "a" == "g-a" && "g-" + "b" == "g-b";
    assert Applied(a, OneRole("a"), Some(w), PLAIN_ENV) == Some(w.(owner := Some("1")));
    var taken := map[k := w.(owner := Some("1"))];
    assert map[k := w][k := w.(owner := Some("1"))] == taken;
    hide RunRoles;
    NothingListed(a, taken);
    assert WithoutOrphans(a, PLAIN_ENV, taken) == taken;
    OneRolePass("b", taken);
    var made := Created(b, OneRole("b"));
    assert Lookup(taken, kb) == None;
    var final := taken[kb := made];
    assert Wanted(b, kb) by {
      assert b.roles[0].workload.kind == KindName(kb.kind) && WorkloadName(b, b.roles[0]) == kb.name;
    }
    assert WithoutOrphans(b, PLAIN_ENV, final) == final;
  }

  lemma NothingListed(group: Group, ws: Workloads)
    requires forall k <- ws :: !Listed(group, ws[k])
    ensures forall kind :: CleanupSucceeds(group, PLAIN_ENV, kind, ws)
  {
  }

  lemma KindNameInjective(a: Kind, b: Kind)
    requires KindName(a) == KindName(b)
    ensures a == b
  {
  }

  predicate OtherOwner(group: Group, w: Workload) { w.owner.Some? && w.owner.value != group.uid }

  lemma {:induction false} RunLeavesOtherOwners(group: Group, sorted: seq<RoleSpec>, env: Env, ws: Workloads, k: Key)
    requires k in ws && OtherOwner(group, ws[k])
    ensures Lookup(RunRoles(group, sorted, env, ws).1, k) == Some(ws[k])
  {
    hide ReconcilerFor, CheckDependencies;
    if sorted != [] {
      var step := RoleStep(group, sorted[0], env, ws);
      assert Lookup(step.1, k) == Some(ws[k]);
      if step.0.None? {
        RunLeavesOtherOwners(group, sorted[1..], env, step.1, k);
      }
    }
  }

  /**
   No pass of any group, however it ends, changes a workload that another owner controls, even one
   in the very place a role asks for; a pass that would have to take it over does not complete.
   */
  lemma OtherOwnersUntouched(group: Group, sorted: seq<RoleSpec>, env: Env, ws: Workloads, k: Key)
    requires k in ws && OtherOwner(group, ws[k])
    ensures Lookup(Pass(group, sorted, env, ws).1, k) == Some(ws[k])
    ensures Pass(group, sorted, env, ws).0 == Completed ==>
              forall r <- sorted :: ReconcilerFor(r.workload).Some? && KeyFor(group, r) == k ==> r.name in env.skipping
  {
    RunLeavesOtherOwners(group, sorted, env, ws, k);
    if Pass(group, sorted, env, ws).0 == Completed {
      TakeoverRefused(group, sorted, env, ws, k);
    }
  }

  lemma {:induction false} TakeoverRefused(group: Group, sorted: seq<RoleSpec>, env: Env, ws: Workloads, k: Key)
    requires k in ws && OtherOwner(group, ws[k]) && RunRoles(group, sorted, env, ws).0 == Completed
    ensures forall r <- sorted :: ReconcilerFor(r.workload).Some? && KeyFor(group, r) == k ==> r.name in env.skipping
  {
    hide ReconcilerFor, CheckDependencies;
    if sorted != [] {
      StepMeaning(group, sorted[0], env, ws);
      RunLeavesOtherOwners(group, sorted[..1], env, ws, k);
      TakeoverRefused(group, sorted[1..], env, RoleStep(group, sorted[0], env, ws).1, k);
    }
  }

  lemma {:induction false} RunLeavesOthers(group: Group, sorted: seq<RoleSpec>, env: Env, ws: Workloads, k: Key)
    requires NobodysKey(group, sorted, k)
    ensures Lookup(RunRoles(group, sorted, env, ws).1, k) == Lookup(ws, k)
  {
    hide ReconcilerFor, CheckDependencies, Applied;
    if sorted != [] {
      assert sorted[0] in sorted;
      StepMeaning(group, sorted[0], env, ws);
      var step := RoleStep(group, sorted[0], env, ws);
      assert Lookup(step.1, k) == Lookup(ws, k);
      hide RoleStep;
      if step.0.None? {
        RunLeavesOthers(group, sorted[1..], env, step.1, k);
      }
    }
  }

  /**
   What no role of the pass asks for is left as it was by every pass, however it ends, unless the
   group controls it and it carries the group's label.
   */
  lemma ForeignWorkloadsUntouched(group: Group, sorted: seq<RoleSpec>, env: Env, ws: Workloads, k: Key)
    requires NobodysKey(group, sorted, k)
    requires k in ws ==> !Controlled(group, ws[k]) || !Listed(group, ws[k])
    ensures Lookup(Pass(group, sorted, env, ws).1, k) == Lookup(ws, k)
  {
    RunLeavesOthers(group, sorted, env, ws, k);
  }

  // ---------- How a pass ends ----------

  /** The role's workload as the pass leaves it counts as ready. */
  predicate ServesOnceApplied(group: Group, role: RoleSpec, env: Env, ws: Workloads)
    requires ReconcilerFor(role.workload).Some?
  {
    var k := KeyFor(group, role);
    var applied := Applied(group, role, Lookup(ws, k), env);
    && applied.Some?
    && applied.value.ready == if k.kind == LeaderWorkerSet then applied.value.statusReplicas else applied.value.desired
  }

  predicate DependencyServesOnceApplied(group: Group, d: string, env: Env, ws: Workloads) {
    exists q :: q in group.roles && q.name == d && ReconcilerFor(q.workload).Some?
      && ServesOnceApplied(group, q, env, ws)
  }

  predicate DependenciesServe(group: Group, role: RoleSpec, env: Env, ws: Workloads) {
    forall d <- role.dependencies :: DependencyServesOnceApplied(group, d, env, ws)
  }

  /** Nothing about the role stops the loop: to be read off what the pass starts from. */
  predicate GoesThrough(group: Group, role: RoleSpec, env: Env, ws: Workloads) {
    && DependenciesServe(group, role, env, ws)
    && ReconcilerFor(role.workload).Some? && role.name !in env.failing && role.name !in env.failingLate
    && Applied(group, role, Lookup(ws, KeyFor(group, role)), env).Some?
  }

  /** When the loop has got to role k the roles before it have been applied, each to what the pass found. */
  lemma {:induction false} ReachedApplied(group: Group, sorted: seq<RoleSpec>, env: Env, ws: Workloads, k: nat)
    requires Ordered(group, sorted) && k <= |sorted| && Reaches(group, sorted, env, ws, k).Some?
    ensures var at := Reaches(group, sorted, env, ws, k).value;
            && (forall i :: 0 <= i < k ==> RoleApplied(group, sorted[i], env, ws, at))
            && (forall key :: NobodysKey(group, sorted[..k], key) ==> Lookup(at, key) == Lookup(ws, key))
  {
    hide RoleStep, ReconcilerFor, CheckDependencies, Applied, IsRoleOrder;
    if k > 0 {
      ReachedApplied(group, sorted, env, ws, k - 1);
      var before, at := Reaches(group, sorted, env, ws, k - 1).value, Reaches(group, sorted, env, ws, k).value;
      StepMeaning(group, sorted[k - 1], env, before);
      var key := KeyFor(group, sorted[k - 1]);
      FrontKeysDistinct(group, sorted, k - 1);
      hide Reaches;
      forall i | 0 <= i < k ensures RoleApplied(group, sorted[i], env, ws, at) {
        if i < k - 1 {
          assert RoleApplied(group, sorted[i], env, ws, before);
          assert sorted[i] in sorted[..k - 1];
        }
      }
      forall other | NobodysKey(group, sorted[..k], other) ensures Lookup(at, other) == Lookup(ws, other) {
        assert sorted[..k][k - 1] == sorted[k - 1];
        assert forall r <- sorted[..k - 1] :: r in sorted[..k];
        assert NobodysKey(group, sorted[..k - 1], other);
      }
    }
  }

  lemma FrontKeysDistinct(group: Group, sorted: seq<RoleSpec>, k: nat)
    requires Ordered(group, sorted) && k < |sorted| && ReconcilerFor(sorted[k].workload).Some?
    ensures NobodysKey(group, sorted[..k], KeyFor(group, sorted[k]))
  {
    hide ReconcilerFor, IsRoleOrder;
    OrderedMeaning(group, sorted);
    var key := KeyFor(group, sorted[k]);
    forall r | r in sorted[..k] && ReconcilerFor(r.workload).Some? ensures key != KeyFor(group, r) {
      var i :| 0 <= i < k && sorted[i] == r;
      assert r in sorted && sorted[k] in sorted;
      if key == KeyFor(group, r) {
        DistinctKeys(group, r, sorted[k]);
      }
    }
  }

  /** The gate of role k sees of each dependency what applying it to what the pass found makes of it. */
  lemma GateSees(group: Group, sorted: seq<RoleSpec>, env: Env, ws: Workloads, k: nat)
    requires Ordered(group, sorted) && k < |sorted| && Reaches(group, sorted, env, ws, k).Some?
    ensures CheckDependencies(group, sorted[k].dependencies, Reaches(group, sorted, env, ws, k).value)
            == if DependenciesServe(group, sorted[k], env, ws) then Open else Closed
  {
    hide RoleStep, ReconcilerFor, Applied, IsRoleOrder;
    var at := Reaches(group, sorted, env, ws, k).value;
    OrderedMeaning(group, sorted);
    GateNeverFails(group, sorted, env, ws, k);
    GateMeaning(group, sorted[k].dependencies, at);
    ReachedApplied(group, sorted, env, ws, k);
    assert DependsOnEarlier(sorted, k);
    forall d | d in sorted[k].dependencies
      ensures DependencyServes(group, d, at) <==> DependencyServesOnceApplied(group, d, env, ws)
    {
      var j :| 0 <= j < k && sorted[j].name == d;
      DependencySeen(group, sorted, env, ws, at, j);
    }
  }

  lemma DependencySeen(group: Group, sorted: seq<RoleSpec>, env: Env, ws: Workloads, at: Workloads, j: nat)
    requires Ordered(group, sorted) && j < |sorted| && RoleApplied(group, sorted[j], env, ws, at)
    ensures DependencyServes(group, sorted[j].name, at) <==> DependencyServesOnceApplied(group, sorted[j].name, env, ws)
  {
    hide ReconcilerFor, Applied, IsRoleOrder;
    OrderedMeaning(group, sorted);
    var q := sorted[j];
    assert q in sorted && q in group.roles && GetRole(group.roles, q.name) == Some(q);
    forall r | r in group.roles && r.name == q.name ensures r == q {
      assert r in sorted && GetRole(group.roles, r.name) == Some(r);
    }
  }

  lemma StepEnds(group: Group, sorted: seq<RoleSpec>, env: Env, ws: Workloads, k: nat)
    requires Ordered(group, sorted) && k < |sorted| && Reaches(group, sorted, env, ws, k).Some?
    ensures RoleStep(group, sorted[k], env, Reaches(group, sorted, env, ws, k).value).0
            == if GoesThrough(group, sorted[k], env, ws) then None
               else if DependenciesServe(group, sorted[k], env, ws) then Some(Failed) else Some(Requeued)
  {
    hide ReconcilerFor, Applied, IsRoleOrder, CheckDependencies, DependenciesServe, Reaches;
    GateSees(group, sorted, env, ws, k);
    ReachedApplied(group, sorted, env, ws, k);
    OrderedMeaning(group, sorted);
    var role := sorted[k];
    if ReconcilerFor(role.workload).Some? {
      OwnKeyUntouched(group, sorted, env, ws, k);
    }
  }

  lemma OwnKeyUntouched(group: Group, sorted: seq<RoleSpec>, env: Env, ws: Workloads, k: nat)
    requires Ordered(group, sorted) && k < |sorted| && Reaches(group, sorted, env, ws, k).Some?
    requires ReconcilerFor(sorted[k].workload).Some?
    ensures Lookup(Reaches(group, sorted, env, ws, k).value, KeyFor(group, sorted[k]))
            == Lookup(ws, KeyFor(group, sorted[k]))
  {
    ReachedApplied(group, sorted, env, ws, k);
    FrontKeysDistinct(group, sorted, k);
  }

  /** The loop went on after every role in front of where it got to. */
  lemma PassedStep(group: Group, sorted: seq<RoleSpec>, env: Env, ws: Workloads, i: nat, k: nat)
    requires i < k <= |sorted| && Reaches(group, sorted, env, ws, k).Some?
    ensures Reaches(group, sorted, env, ws, i).Some?
    ensures RoleStep(group, sorted[i], env, Reaches(group, sorted, env, ws, i).value).0.None?
  {
    hide RoleStep;
    ReachesBefore(group, sorted, env, ws, i + 1, k);
  }

  /**
   How a pass ends, from what it starts from: at the first role that does not go through, asking to
   be repeated if a dependency does not serve and failing otherwise; past all of them it depends on
   the status write and the clean-up.
   */
  lemma PassEndsExactly(group: Group, sorted: seq<RoleSpec>, env: Env, ws: Workloads)
    requires Ordered(group, sorted)
    ensures forall k :: 0 <= k < |sorted| && !GoesThrough(group, sorted[k], env, ws)
                        && (forall i :: 0 <= i < k ==> GoesThrough(group, sorted[i], env, ws)) ==>
              Pass(group, sorted, env, ws).0
              == if DependenciesServe(group, sorted[k], env, ws) then Failed else Requeued
    ensures Pass(group, sorted, env, ws).0 == Completed ==>
              (forall r <- sorted :: GoesThrough(group, r, env, ws)) && !env.statusFails && !env.adaptersFail
    ensures (forall r <- sorted :: GoesThrough(group, r, env, ws)) ==> Pass(group, sorted, env, ws).0 != Requeued
  {
    hide RoleStep, GoesThrough, DependenciesServe, Reaches, RunRoles;
    var stop := RunRolesStopsAt(group, sorted, env, ws);
    forall i | 0 <= i < stop ensures GoesThrough(group, sorted[i], env, ws) {
      PassedStep(group, sorted, env, ws, i, stop);
      StepEnds(group, sorted, env, ws, i);
    }
    if stop < |sorted| {
      StepEnds(group, sorted, env, ws, stop);
      assert sorted[stop] in sorted;
    } else {
      forall r | r in sorted ensures GoesThrough(group, r, env, ws) {
        var i :| 0 <= i < |sorted| && sorted[i] == r;
      }
    }
  }

  /** A workload of the role that will not be ready when the gate of another looks: it is new, or its numbers differ. */
  predicate NotServing(group: Group, role: RoleSpec, env: Env, ws: Workloads)
    requires ReconcilerFor(role.workload).Some? && !StrategyFails(role)
  {
    var k := KeyFor(group, role);
    if k !in ws then k.kind != LeaderWorkerSet && role.replicas != 0
    else if k.kind == LeaderWorkerSet then ws[k].ready != ws[k].statusReplicas
    else if role.name in env.skipping then ws[k].ready != ws[k].desired
    else ws[k].ready != DecidedSize(env, role)
  }

  /** Why a pass cannot complete, in terms of what it starts from. */
  predicate Stopped(group: Group, sorted: seq<RoleSpec>, env: Env, ws: Workloads) {
    || env.statusFails
    || (exists r :: r in sorted && (r.name in env.failing || r.name in env.failingLate))
    || (exists r :: r in sorted && ReconcilerFor(r.workload).None?)
    || (exists r, q :: r in sorted && q in sorted && q.name in r.dependencies
                       && ReconcilerFor(q.workload).Some? && !StrategyFails(q) && NotServing(group, q, env, ws))
  }

  /** A pass that a role, a dependency or the status write stops deletes nothing. */
  lemma StoppedPassDeletesNothing(group: Group, sorted: seq<RoleSpec>, env: Env, ws: Workloads)
    requires Ordered(group, sorted) && Stopped(group, sorted, env, ws)
    ensures Pass(group, sorted, env, ws).0 != Completed
    ensures ws.Keys <= Pass(group, sorted, env, ws).1.Keys
  {
    hide RoleStep, Reaches, RunRoles, ReconcilerFor, IsRoleOrder;
    if !env.statusFails {
      SomeRoleStops(group, sorted, env, ws);
      LoopStops(group, sorted, env, ws);
    }
    RunKeepsKeys(group, sorted, env, ws);
  }

  lemma RunKeepsKeys(group: Group, sorted: seq<RoleSpec>, env: Env, ws: Workloads)
    ensures ws.Keys <= RunRoles(group, sorted, env, ws).1.Keys
  {
    hide RoleStep, Reaches, RunRoles;
    var stop := RunRolesStopsAt(group, sorted, env, ws);
    ReachesKeepsKeys(group, sorted, env, ws, stop);
    if stop < |sorted| {
      StepMeaning(group, sorted[stop], env, Reaches(group, sorted, env, ws, stop).value);
    }
  }

  lemma SomeRoleStops(group: Group, sorted: seq<RoleSpec>, env: Env, ws: Workloads)
    requires Ordered(group, sorted) && Stopped(group, sorted, env, ws) && !env.statusFails
    ensures exists r :: r in sorted && !GoesThrough(group, r, env, ws)
  {
    hide ReconcilerFor, IsRoleOrder, DecidedSize, PlanOf;
    OrderedMeaning(group, sorted);
    if r, q :| r in sorted && q in sorted && q.name in r.dependencies
               && ReconcilerFor(q.workload).Some? && !StrategyFails(q) && NotServing(group, q, env, ws) {
      assert GetRole(group.roles, q.name) == Some(q);
      forall x | x in group.roles && x.name == q.name ensures x == q {
        assert x in sorted && GetRole(group.roles, x.name) == Some(x);
      }
      assert !ServesOnceApplied(group, q, env, ws);
      assert !DependencyServesOnceApplied(group, q.name, env, ws);
      assert !GoesThrough(group, r, env, ws);
    }
  }

  lemma LoopStops(group: Group, sorted: seq<RoleSpec>, env: Env, ws: Workloads)
    requires Ordered(group, sorted) && exists r :: r in sorted && !GoesThrough(group, r, env, ws)
    ensures RunRoles(group, sorted, env, ws).0 != Completed
  {
    hide RoleStep, Reaches, RunRoles, GoesThrough, DependenciesServe;
    var stop := RunRolesStopsAt(group, sorted, env, ws);
    if stop == |sorted| {
      var r :| r in sorted && !GoesThrough(group, r, env, ws);
      var i :| 0 <= i < |sorted| && sorted[i] == r;
      PassedStep(group, sorted, env, ws, i, stop);
      StepEnds(group, sorted, env, ws, i);
      assert false;
    } else {
      StepEnds(group, sorted, env, ws, stop);
    }
  }

  // ---------- Start-up ----------

  /** A workload as it stands between passes: its own, of the role's size, and ready. */
  predicate Serves(group: Group, role: RoleSpec, ws: Workloads) {
    && Exists(group, role, ws)
    && var w := ws[KeyFor(group, role)];
    w.owner == Some(group.uid) && w.desired == role.replicas && WorkloadReady(KeyFor(group, role).kind, w)
  }

  /** Every role's workload either does not exist yet or serves. */
  predicate Calm(group: Group, ws: Workloads) {
    forall r <- group.roles :: Exists(group, r, ws) ==> Serves(group, r, ws)
  }

  /** No role meets an error and no StatefulSet is in a rollout; status and clean-up may fail. */
  predicate Smooth(env: Env) { env.failing == {} == env.failingLate && env.unready == map[] }

  predicate Supported(group: Group) {
    forall r <- group.roles :: ReconcilerFor(r.workload).Some? && !StrategyFails(r)
  }

  lemma StepWhenServed(group: Group, role: RoleSpec, env: Env, ws: Workloads)
    requires Smooth(env) && Supported(group) && UniqueNames(group.roles) && role in group.roles
    requires forall d <- role.dependencies :: DependencyServes(group, d, ws)
    requires Exists(group, role, ws) ==> Serves(group, role, ws)
    ensures var step := RoleStep(group, role, env, ws);
            && step.0.None? && Exists(group, role, step.1)
            && (forall r <- group.roles :: Serves(group, r, ws) ==> Serves(group, r, step.1))
            && (forall r <- group.roles :: r != role && !Exists(group, r, ws) ==> !Exists(group, r, step.1))
  {
    GateMeaning(group, role.dependencies, ws);
    var step := RoleStep(group, role, env, ws);
    forall r | r in group.roles && r != role ensures KeyFor(group, r) != KeyFor(group, role) {
      if KeyFor(group, r) == KeyFor(group, role) {
        DistinctKeys(group, r, role);
      }
    }
  }

  /** If the first k roles serve, the loop reaches role k with them still serving. */
  lemma {:induction false} ServedPrefixReached(group: Group, sorted: seq<RoleSpec>, env: Env, ws: Workloads, k: nat,
                                               i: nat)
    requires Ordered(group, sorted) && Smooth(env) && Supported(group) && Calm(group, ws)
    requires i <= k <= |sorted| && forall j :: 0 <= j < k ==> Exists(group, sorted[j], ws)
    ensures Reaches(group, sorted, env, ws, i).Some?
    ensures var at := Reaches(group, sorted, env, ws, i).value;
            && (forall r <- group.roles :: Serves(group, r, ws) ==> Serves(group, r, at))
            && (forall r <- group.roles :: !Exists(group, r, ws) ==> !Exists(group, r, at))
  {
    hide RoleStep, ReconcilerFor, CheckDependencies, Serves, DependencyServes, IsRoleOrder;
    if i > 0 {
      ServedPrefixReached(group, sorted, env, ws, k, i - 1);
      OrderedMeaning(group, sorted);
      var at := Reaches(group, sorted, env, ws, i - 1).value;
      assert sorted[i - 1] in sorted;
      DependenciesServed(group, sorted, ws, at, i - 1);
      StepWhenServed(group, sorted[i - 1], env, at);
    }
  }

  lemma DependenciesServed(group: Group, sorted: seq<RoleSpec>, ws: Workloads, at: Workloads, i: nat)
    requires Ordered(group, sorted) && i < |sorted| && Calm(group, ws)
    requires forall j :: 0 <= j < i ==> Exists(group, sorted[j], ws)
    requires forall r <- group.roles :: Serves(group, r, ws) ==> Serves(group, r, at)
    ensures forall d <- sorted[i].dependencies :: DependencyServes(group, d, at)
  {
    OrderedMeaning(group, sorted);
    assert DependsOnEarlier(sorted, i);
    forall d | d in sorted[i].dependencies ensures DependencyServes(group, d, at) {
      var j :| 0 <= j < i && sorted[j].name == d;
      assert sorted[j] in sorted && Serves(group, sorted[j], ws);
    }
  }

  lemma ReachesNext(group: Group, sorted: seq<RoleSpec>, env: Env, ws: Workloads, k: nat)
    requires k < |sorted| && Reaches(group, sorted, env, ws, k).Some?
    requires RoleStep(group, sorted[k], env, Reaches(group, sorted, env, ws, k).value).0.None?
    ensures Reaches(group, sorted, env, ws, k + 1).Some?
  {
    hide RoleStep;
  }

  /** One pass over a calm cluster creates at least the next role of the order. */
  lemma PassCreatesNext(group: Group, sorted: seq<RoleSpec>, env: Env, ws: Workloads, k: nat)
    requires Ordered(group, sorted) && Smooth(env) && Supported(group) && PlainKinds(group) && Calm(group, ws)
    requires k < |sorted| && forall j :: 0 <= j < k ==> Exists(group, sorted[j], ws)
    ensures forall j :: 0 <= j <= k ==> Exists(group, sorted[j], Pass(group, sorted, env, ws).1)
  {
    hide RoleStep, ReconcilerFor, CheckDependencies, Serves, DependencyServes, IsRoleOrder, RunRoles, Reaches;
    OrderedMeaning(group, sorted);
    ServedPrefixReached(group, sorted, env, ws, k, k);
    var at := Reaches(group, sorted, env, ws, k).value;
    assert sorted[k] in sorted;
    DependenciesServed(group, sorted, ws, at, k);
    StepWhenServed(group, sorted[k], env, at);
    ReachesNext(group, sorted, env, ws, k);
    ReachesKeepsKeys(group, sorted, env, ws, k + 1);
    var stop := RunRolesStopsAt(group, sorted, env, ws);
    if stop < |sorted| {
      StepMeaning(group, sorted[stop], env, Reaches(group, sorted, env, ws, stop).value);
    }
    ReachedBeforeStop(group, sorted, env, ws, k + 1, stop);
    forall j | 0 <= j <= k ensures Exists(group, sorted[j], Pass(group, sorted, env, ws).1) {
      assert sorted[j] in sorted;
      RoleKeyWanted(group, sorted[j]);
    }
  }

  /** The loop stops no earlier than any role it reaches, with all the workloads it had there. */
  lemma {:induction false} ReachedBeforeStop(group: Group, sorted: seq<RoleSpec>, env: Env, ws: Workloads, i: nat,
                                             stop: nat)
    requires i <= |sorted| && stop <= |sorted|
    requires Reaches(group, sorted, env, ws, i).Some? && Reaches(group, sorted, env, ws, stop).Some?
    requires stop < |sorted| ==> RoleStep(group, sorted[stop], env, Reaches(group, sorted, env, ws, stop).value).0.Some?
    ensures i <= stop
    ensures Reaches(group, sorted, env, ws, i).value.Keys <= Reaches(group, sorted, env, ws, stop).value.Keys
  {
    hide RoleStep;
    if stop < i {
      ReachesBefore(group, sorted, env, ws, stop + 1, i);
      assert false;
    }
    ReachesBefore(group, sorted, env, ws, i, stop);
  }

  lemma {:induction false} ReachesBefore(group: Group, sorted: seq<RoleSpec>, env: Env, ws: Workloads, i: nat, k: nat)
    requires i <= k <= |sorted| && Reaches(group, sorted, env, ws, k).Some?
    ensures Reaches(group, sorted, env, ws, i).Some?
    ensures Reaches(group, sorted, env, ws, i).value.Keys <= Reaches(group, sorted, env, ws, k).value.Keys
    decreases k - i
  {
    hide RoleStep, ReconcilerFor, CheckDependencies, Applied;
    if i < k {
      ReachesBefore(group, sorted, env, ws, i, k - 1);
      StepMeaning(group, sorted[k - 1], env, Reaches(group, sorted, env, ws, k - 1).value);
    }
  }

  /** A role's workload, once there, is there after every pass. */
  lemma PassKeepsRoles(group: Group, sorted: seq<RoleSpec>, env: Env, ws: Workloads, role: RoleSpec)
    requires PlainKinds(group) && role in group.roles && Exists(group, role, ws)
    ensures Exists(group, role, Pass(group, sorted, env, ws).1)
  {
    hide RoleStep, ReconcilerFor, RunRoles, Reaches;
    var stop := RunRolesStopsAt(group, sorted, env, ws);
    ReachesKeepsKeys(group, sorted, env, ws, stop);
    if stop < |sorted| {
      StepMeaning(group, sorted[stop], env, Reaches(group, sorted, env, ws, stop).value);
    }
    RoleKeyWanted(group, role);
  }

  /** Of the role's size and nobody else's. */
  predicate Shaped(group: Group, role: RoleSpec, ws: Workloads) {
    Exists(group, role, ws) ==>
      ws[KeyFor(group, role)].owner == Some(group.uid) && ws[KeyFor(group, role)].desired == role.replicas
  }

  lemma {:induction false} RunKeepsShape(group: Group, sorted: seq<RoleSpec>, env: Env, ws: Workloads)
    requires UniqueNames(group.roles) && (forall r <- sorted :: r in group.roles) && env.unready == map[]
    requires forall r <- group.roles :: Shaped(group, r, ws)
    ensures forall r <- group.roles :: Shaped(group, r, RunRoles(group, sorted, env, ws).1)
  {
    hide RoleStep, ReconcilerFor, CheckDependencies;
    if sorted != [] {
      var head := sorted[0];
      var step := RoleStep(group, head, env, ws);
      StepMeaning(group, head, env, ws);
      forall r | r in group.roles ensures Shaped(group, r, step.1) {
        if step.1 != ws && Exists(group, r, step.1) && KeyFor(group, r) == KeyFor(group, head) {
          DistinctKeys(group, r, head);
        }
      }
      if step.0.None? {
        RunKeepsShape(group, sorted[1..], env, step.1);
      }
    }
  }

  /** Between passes nothing is created or deleted and every workload becomes ready. */
  predicate Settles(ws: Workloads, ws': Workloads) {
    && ws'.Keys == ws.Keys
    && forall k <- ws :: ws'[k].owner == ws[k].owner && ws'[k].groupLabel == ws[k].groupLabel
                         && ws'[k].desired == ws[k].desired && WorkloadReady(k.kind, ws'[k])
  }

  predicate StartUp(group: Group, sorted: seq<RoleSpec>, envs: seq<Env>, history: seq<Workloads>) {
    && |history| == |envs| + 1 && Calm(group, history[0])
    && forall i :: 0 <= i < |envs| ==>
         Smooth(envs[i]) && Settles(Pass(group, sorted, envs[i], history[i]).1, history[i + 1])
  }

  lemma PassThenCalm(group: Group, sorted: seq<RoleSpec>, env: Env, ws: Workloads, ws': Workloads)
    requires Ordered(group, sorted) && Smooth(env) && Calm(group, ws) && Settles(Pass(group, sorted, env, ws).1, ws')
    ensures Calm(group, ws')
  {
    hide RunRoles, ReconcilerFor, IsRoleOrder;
    OrderedMeaning(group, sorted);
    forall r | r in group.roles ensures Shaped(group, r, ws) {
      assert Exists(group, r, ws) ==> Serves(group, r, ws);
    }
    RunKeepsShape(group, sorted, env, ws);
    forall r | r in group.roles && Exists(group, r, ws') ensures Serves(group, r, ws') {
      assert Shaped(group, r, RunRoles(group, sorted, env, ws).1);
    }
  }

  /**
   If what exists becomes ready between passes, after k passes the first k roles of the order
   exist; so after as many passes as there are roles, all of them do.
   */
  lemma {:induction false} StartUpBound(group: Group, sorted: seq<RoleSpec>, envs: seq<Env>, history: seq<Workloads>,
                                        k: nat)
    requires Ordered(group, sorted) && Supported(group) && PlainKinds(group)
    requires StartUp(group, sorted, envs, history) && k < |history|
    ensures Calm(group, history[k])
    ensures forall j :: 0 <= j < k && j < |sorted| ==> Exists(group, sorted[j], history[k])
    ensures |group.roles| <= k ==> forall r <- group.roles :: Exists(group, r, history[k])
  {
    hide RunRoles, ReconcilerFor, IsRoleOrder, Pass;
    OrderedMeaning(group, sorted);
    SortedLength(group, sorted);
    if k > 0 {
      var ws, env := history[k - 1], envs[k - 1];
      StartUpBound(group, sorted, envs, history, k - 1);
      PassThenCalm(group, sorted, env, ws, history[k]);
      if k - 1 < |sorted| {
        PassCreatesNext(group, sorted, env, ws, k - 1);
      }
      forall j | 0 <= j < k && j < |sorted| ensures Exists(group, sorted[j], history[k]) {
        if j < k - 1 {
          assert sorted[j] in sorted;
          PassKeepsRoles(group, sorted, env, ws, sorted[j]);
        }
      }
    }
    forall r | |group.roles| <= k && r in group.roles ensures Exists(group, r, history[k]) {
      assert r in sorted;
      var j :| 0 <= j < |sorted| && sorted[j] == r;
    }
  }

  lemma SortedLength(group: Group, sorted: seq<RoleSpec>)
    requires UniqueNames(group.roles) && UniqueNames(sorted) && forall r :: r in group.roles <==> r in sorted
    ensures |sorted| == |group.roles|
  {
    UniqueSize(group.roles);
    UniqueSize(sorted);
    assert (set r | r in group.roles) == (set r | r in sorted);
  }

  lemma {:induction false} UniqueSize(roles: seq<RoleSpec>)
    requires UniqueNames(roles)
    ensures |set r | r in roles| == |roles|
  {
    if roles != [] {
      UniqueSize(roles[1..]);
      assert roles == [roles[0]] + roles[1..];
      assert (set r | r in roles) == (set r | r in roles[1..]) + {roles[0]};
      assert roles[0] !in roles[1..];
    }
  }

  // ---------- The gate and fresh workloads ----------

  /** A workload just created already counts as ready if it is a LeaderWorkerSet, or wants no replicas. */
  lemma FreshReadyExactly(group: Group, role: RoleSpec, env: Env)
    requires ReconcilerFor(role.workload).Some? && !StrategyFails(role)
    ensures WorkloadReady(KeyFor(group, role).kind, Applied(group, role, None, env).value)
            <==> KeyFor(group, role).kind == LeaderWorkerSet || role.replicas == 0
  {
  }

  /** The workloads of roles are all there or not, ready or not, but those that exist count as ready. */
  predicate ExistingReady(group: Group, ws: Workloads) {
    forall r <- group.roles :: Exists(group, r, ws) ==>
      WorkloadReady(KeyFor(group, r).kind, ws[KeyFor(group, r)]) && ws[KeyFor(group, r)].owner == Some(group.uid)
  }

  /**
   So among LeaderWorkerSet roles the gate holds nothing back: one pass creates all of them at once,
   whatever they depend on and before any of their pods runs.
   */
  lemma {:induction false} LeaderWorkerSetsUngated(group: Group, sorted: seq<RoleSpec>, env: Env, ws: Workloads, k: nat)
    requires Ordered(group, sorted) && Smooth(env) && ExistingReady(group, ws) && k <= |sorted|
    requires forall r <- group.roles :: ReconcilerFor(r.workload) == Some(LeaderWorkerSet)
    ensures Reaches(group, sorted, env, ws, k).Some?
    ensures ExistingReady(group, Reaches(group, sorted, env, ws, k).value)
  {
    hide ReconcilerFor, IsRoleOrder, RoleStep, CheckDependencies, ExistingReady, UniqueNames;
    if k > 0 {
      LeaderWorkerSetsUngated(group, sorted, env, ws, k - 1);
      OrderedMeaning(group, sorted);
      var at, role := Reaches(group, sorted, env, ws, k - 1).value, sorted[k - 1];
      assert role in sorted;
      GateNeverFails(group, sorted, env, ws, k - 1);
      GateNotClosed(group, role.dependencies, at);
      UngatedStep(group, role, env, at);
    }
  }

  lemma UngatedStep(group: Group, role: RoleSpec, env: Env, ws: Workloads)
    requires UniqueNames(group.roles) && role in group.roles && Smooth(env) && ExistingReady(group, ws)
    requires CheckDependencies(group, role.dependencies, ws) == Open
    requires ReconcilerFor(role.workload) == Some(LeaderWorkerSet)
    ensures var step := RoleStep(group, role, env, ws);
            step.0.None? && ExistingReady(group, step.1)
  {
    hide ReconcilerFor, CheckDependencies;
    var step := RoleStep(group, role, env, ws);
    forall r | r in group.roles && Exists(group, r, step.1)
      ensures WorkloadReady(KeyFor(group, r).kind, step.1[KeyFor(group, r)])
              && step.1[KeyFor(group, r)].owner == Some(group.uid)
    {
      if KeyFor(group, r) == KeyFor(group, role) {
        DistinctKeys(group, r, role);
      } else {
        assert Exists(group, r, ws);
      }
    }
  }

  lemma {:induction false} GateNotClosed(group: Group, deps: seq<string>, ws: Workloads)
    requires ExistingReady(group, ws)
    ensures CheckDependencies(group, deps, ws) != Closed
  {
    hide ReconcilerFor;
    if deps != [] {
      GateNotClosed(group, deps[1..], ws);
    }
  }
}
