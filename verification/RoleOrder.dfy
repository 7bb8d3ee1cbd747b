/** Sorting the roles of a group by dependency. */
module RoleOrder {
  import opened Wrappers
  import opened Group
  import opened DependencyGraph
  import opened DependencySort
  import Sorting

  datatype SortError = UnknownDependency | CyclicDependency

  function RoleNames(roles: seq<RoleSpec>): seq<string> { Sorting.Names(roles, RoleName) }

  /** Role name to its dependencies; of roles with the same name the last one counts. */
  function DependencyMap(roles: seq<RoleSpec>): Graph {
    if roles == [] then map[]
    else DependencyMap(roles[..|roles| - 1])[roles[|roles| - 1].name := roles[|roles| - 1].dependencies]
  }

  predicate DependenciesKnown(roles: seq<RoleSpec>) {
    forall r <- roles :: forall d <- r.dependencies :: d in RoleNames(roles)
  }

  lemma {:induction false} DependencyMapKeys(roles: seq<RoleSpec>)
    ensures DependencyMap(roles).Keys == Elements(RoleNames(roles))
    ensures forall k <- DependencyMap(roles) :: exists r :: r in roles && DependencyMap(roles)[k] == r.dependencies
  {
    if roles != [] {
      var front, last := roles[..|roles| - 1], roles[|roles| - 1];
      DependencyMapKeys(front);
      assert RoleNames(roles) == RoleNames(front) + [last.name];
      assert last in roles;
    }
  }

  lemma {:induction false} DependencyMapUnique(roles: seq<RoleSpec>, role: RoleSpec)
    requires UniqueNames(roles) && role in roles
    ensures Deps(DependencyMap(roles), role.name) == role.dependencies
  {
    var front, last := roles[..|roles| - 1], roles[|roles| - 1];
    assert roles == front + [last];
    if role != last {
      DependencyMapUnique(front, role);
      var i :| 0 <= i < |front| && front[i] == role;
      assert roles[i].name != roles[|roles| - 1].name;
    }
  }

  /** Known dependencies keep the graph among the role names. */
  lemma KnownMeansClosed(roles: seq<RoleSpec>)
    requires DependenciesKnown(roles)
    ensures Universe(DependencyMap(roles)) == DependencyMap(roles).Keys
  {
    var g := DependencyMap(roles);
    DependencyMapKeys(roles);
    forall k, d | k in g.Keys && d in g[k] ensures d in g.Keys {
      var r :| r in roles && g[k] == r.dependencies;
    }
  }

  /** Each name once, in an order that respects all dependencies, each the first role of its name. */
  predicate IsRoleOrder(roles: seq<RoleSpec>, sorted: seq<RoleSpec>) {
    && NoDuplicates(RoleNames(sorted))
    && Elements(RoleNames(sorted)) == Elements(RoleNames(roles))
    && (forall r <- sorted :: FirstNamed(roles, r.name) == Some(r))
    && Respects(DependencyMap(roles), RoleNames(sorted))
  }

  method SortRoles(roles: seq<RoleSpec>) returns (r: Result<seq<RoleSpec>, SortError>)
    ensures roles == [] ==> r == Ok([])
    ensures r == Err(UnknownDependency) <==> !DependenciesKnown(roles)
    ensures DependenciesKnown(roles) ==> (r == Err(CyclicDependency) <==> HasCycle(DependencyMap(roles)))
    ensures r.Ok? ==> IsRoleOrder(roles, r.value)
  {
    if roles == [] {
      RespectfulMeansAcyclic(DependencyMap(roles), []);
      return Ok([]);
    }
    var names := [];
    for i := 0 to |roles|
      invariant names == RoleNames(roles[..i])
    {
      names := names + [roles[i].name];
    }
    assert roles[..|roles|] == roles;
    var roleDependency: Graph := map[];
    for i := 0 to |roles|
      invariant roleDependency == DependencyMap(roles[..i])
      invariant forall j :: 0 <= j < i ==> forall d <- roles[j].dependencies :: d in names
    {
      assert roles[..i + 1][..i] == roles[..i];
      for j := 0 to |roles[i].dependencies|
        invariant forall k :: 0 <= k < j ==> roles[i].dependencies[k] in names
      {
        if roles[i].dependencies[j] !in names {
          assert roles[i] in roles && roles[i].dependencies[j] in roles[i].dependencies;
          return Err(UnknownDependency);
        }
      }
      roleDependency := roleDependency[roles[i].name := roles[i].dependencies];
    }
    assert DependenciesKnown(roles);
    var order := DependencyOrder(roleDependency);
    ghost var keys :| IsSortedKeys(keys, roleDependency.Keys) && order == Outcome(roleDependency, keys);
    FailsExactlyOnCycle(roleDependency, keys);
    if order.None? {
      return Err(CyclicDependency);
    }
    OrderIsTopological(roleDependency, keys);
    KnownMeansClosed(roles);
    DependencyMapKeys(roles);
    var sorted := PickRoles(roles, order.value);
    return Ok(sorted);
  }

  /** For each name of the order, the first role that has it. */
  method PickRoles(roles: seq<RoleSpec>, order: seq<string>) returns (sorted: seq<RoleSpec>)
    requires Elements(order) == Elements(RoleNames(roles))
    ensures RoleNames(sorted) == order
    ensures forall r <- sorted :: FirstNamed(roles, r.name) == Some(r)
  {
    sorted := [];
    for i := 0 to |order|
      invariant RoleNames(sorted) == order[..i]
      invariant forall r <- sorted :: FirstNamed(roles, r.name) == Some(r)
    {
      assert order[i] in Elements(RoleNames(roles));
      var k :| 0 <= k < |roles| && RoleNames(roles)[k] == order[i];
      assert roles[k] in roles;
      sorted := sorted + [FirstNamed(roles, order[i]).value];
    }
  }

  /**
   With unique names the order holds each role exactly once, and every dependency a role declares
   names a role in front of it.
   */
  lemma SortedIsPermutation(roles: seq<RoleSpec>, sorted: seq<RoleSpec>)
    requires UniqueNames(roles) && IsRoleOrder(roles, sorted)
    ensures UniqueNames(sorted)
    ensures forall r :: r in roles <==> r in sorted
    ensures forall i :: 0 <= i < |sorted| ==>
              forall d <- sorted[i].dependencies :: exists j :: 0 <= j < i && sorted[j].name == d
  {
    var names := RoleNames(sorted);
    forall i, j | 0 <= i < j < |sorted| ensures sorted[i].name != sorted[j].name {
      assert names[i] != names[j];
    }
    forall r | r in roles ensures r in sorted {
      var i :| 0 <= i < |roles| && roles[i] == r;
      assert RoleNames(roles)[i] in Elements(RoleNames(roles));
      assert r.name in names;
      var j :| 0 <= j < |names| && names[j] == r.name;
      FirstNamedUnique(roles, r);
      assert sorted[j] in sorted;
    }
    forall i | 0 <= i < |sorted|
      ensures forall d <- sorted[i].dependencies :: exists j :: 0 <= j < i && sorted[j].name == d
    {
      assert sorted[i] in sorted;
      DependencyMapUnique(roles, sorted[i]);
      forall d | d in sorted[i].dependencies ensures exists j :: 0 <= j < i && sorted[j].name == d {
        assert d in Deps(DependencyMap(roles), names[i]);
        var j :| 0 <= j < i && names[..i][j] == d;
      }
    }
  }
}
