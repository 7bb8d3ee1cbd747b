/** The role-based group: its roles, the workload each role asks for, and how they are named. */
module Group {
  import opened Wrappers
  import RollingUpdate

  datatype Kind = Deployment | StatefulSet | LeaderWorkerSet

  datatype WorkloadSpec = WorkloadSpec(apiVersion: string, kind: string)

  /** `scalingAdapter` says whether the role wants an adapter for the scale subresource. */
  datatype RoleSpec = RoleSpec(
    name: string, replicas: nat, dependencies: seq<string>, workload: WorkloadSpec, scalingAdapter: bool,
    strategy: Option<RollingUpdate.Strategy>)

  datatype Group = Group(name: string, uid: string, roles: seq<RoleSpec>)

  function RoleName(role: RoleSpec): string { role.name }

  /** Which reconciler serves a workload type; None is the unsupported-type error. */
  function ReconcilerFor(w: WorkloadSpec): Option<Kind> {
    var full := w.apiVersion + "/" + w.kind;
    if full == "apps/v1/Deployment" then Some(Deployment)
    else if full == "apps/v1/StatefulSet" then Some(StatefulSet)
    else if full == "leaderworkerset.x-k8s.io/v1/LeaderWorkerSet" then Some(LeaderWorkerSet)
    else None
  }

  /** Workloads and scaling adapters share this name. */
  function WorkloadName(group: Group, role: RoleSpec): string { group.name + "-" + role.name }

  /** Different role names give different workload names. */
  lemma WorkloadNameInjective(group: Group, a: RoleSpec, b: RoleSpec)
    requires WorkloadName(group, a) == WorkloadName(group, b)
    ensures a.name == b.name
  {
    var prefix := group.name + "-";
    assert WorkloadName(group, a)[|prefix|..] == a.name;
    assert WorkloadName(group, b)[|prefix|..] == b.name;
  }

  /** The first role of that name. */
  function FirstNamed(roles: seq<RoleSpec>, name: string): (r: Option<RoleSpec>)
    ensures r.Some? ==> r.value in roles && r.value.name == name
    ensures r.None? <==> forall x <- roles :: x.name != name
  {
    if roles == [] then None
    else if roles[0].name == name then Some(roles[0])
    else FirstNamed(roles[1..], name)
  }

  /** An empty name is refused. */
  function GetRole(roles: seq<RoleSpec>, name: string): Option<RoleSpec> {
    if name == "" then None else FirstNamed(roles, name)
  }

  predicate UniqueNames(roles: seq<RoleSpec>) {
    forall i, j :: 0 <= i < j < |roles| ==> roles[i].name != roles[j].name
  }

  lemma {:induction false} FirstNamedUnique(roles: seq<RoleSpec>, role: RoleSpec)
    requires UniqueNames(roles) && role in roles
    ensures FirstNamed(roles, role.name) == Some(role)
  {
    if roles[0] != role {
      assert roles == [roles[0]] + roles[1..];
      assert role in roles[1..];
      FirstNamedUnique(roles[1..], role);
    }
  }
}
