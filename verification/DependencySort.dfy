/**
 The depth-first dependency sort. `Visited` is the search on values; the class runs the same search
 on its own mutable state, as the controller does.
 */
module DependencySort {
  import opened Wrappers
  import opened DependencyGraph
  import Sorting

  /** The state of the search: roles on the current path, finished roles, the order so far. */
  datatype Search = Search(temp: set<string>, completed: set<string>, order: seq<string>, path: seq<string>)

  const EMPTY_SEARCH := Search({}, {}, [], [])

  /** The role is put on the path. */
  function Entered(s: Search, role: string): Search { s.(temp := s.temp + {role}, path := s.path + [role]) }

  /** The role is taken off the path and appended to the order. */
  function Left(s: Search, role: string): Search
    requires s.path != []
  {
    Search(s.temp - {role}, s.completed + {role}, s.order + [role], s.path[..|s.path| - 1])
  }

  /** None is the cycle error. */
  ghost function Visited(g: Graph, role: string, s: Search): (r: Option<Search>)
    requires s.temp <= Universe(g) && role in Universe(g)
    ensures r.Some? ==> r.value.temp == s.temp && r.value.path == s.path
    decreases Universe(g) - s.temp, 0
  {
    if role in s.temp then None
    else if role in s.completed then Some(s)
    else
      DepsInUniverse(g, role);
      var inner := VisitedAll(g, Deps(g, role), Entered(s, role));
      if inner.None? then None else Some(Left(inner.value, role))
  }

  ghost function VisitedAll(g: Graph, roles: seq<string>, s: Search): (r: Option<Search>)
    requires s.temp <= Universe(g) && forall x <- roles :: x in Universe(g)
    ensures r.Some? ==> r.value.temp == s.temp && r.value.path == s.path
    decreases Universe(g) - s.temp, 1 + |roles|
  {
    if roles == [] then Some(s)
    else
      var first := Visited(g, roles[0], s);
      if first.None? then None else VisitedAll(g, roles[1..], first.value)
  }

  // ---------- What the search keeps ----------

  /** The temp set is the path, the path is a walk, and what is finished is a respectful order. */
  ghost predicate Good(g: Graph, s: Search) {
    && s.temp == Elements(s.path) && NoDuplicates(s.path) && (s.path != [] ==> IsWalk(g, s.path))
    && s.completed == Elements(s.order) && NoDuplicates(s.order) && Respects(g, s.order)
    && s.temp !! s.completed
    && s.temp <= Universe(g) && s.completed <= Universe(g)
  }

  /** The role about to be visited continues the path. */
  predicate Continues(g: Graph, s: Search, role: string) {
    s.path != [] ==> role in Deps(g, s.path[|s.path| - 1])
  }

  /** Meeting a role of the path again closes a real cycle. */
  lemma PathClosesCycle(g: Graph, s: Search, role: string)
    requires Good(g, s) && Continues(g, s, role) && role in s.temp
    ensures HasCycle(g)
  {
    var k :| 0 <= k < |s.path| && s.path[k] == role;
    var w := s.path[k..] + [role];
    forall i | 0 <= i < |w| - 1 ensures w[i + 1] in Deps(g, w[i]) {
      assert w[i] == s.path[k + i];
    }
    assert IsCycle(g, w);
  }

  ghost predicate Extends(s: Search, t: Search) {
    s.order <= t.order && s.completed <= t.completed
  }

  lemma EnterRole(g: Graph, s: Search, role: string)
    requires Good(g, s) && Continues(g, s, role) && role in Universe(g)
    requires role !in s.temp && role !in s.completed
    ensures Good(g, Entered(s, role))
  {
    var path := s.path + [role];
    assert Elements(path) == Elements(s.path) + {role};
    forall i | 0 <= i < |path| - 1 ensures path[i + 1] in Deps(g, path[i]) {
    }
  }

  lemma AppendRespects(g: Graph, order: seq<string>, role: string)
    requires Respects(g, order) && NoDuplicates(order) && role !in order
    requires forall d <- Deps(g, role) :: d in order
    ensures Respects(g, order + [role]) && NoDuplicates(order + [role])
  {
    var extended := order + [role];
    forall i | 0 <= i < |extended| ensures forall d <- Deps(g, extended[i]) :: d in extended[..i] {
      assert extended[..i] == order[..i];
    }
  }

  lemma LeaveRole(g: Graph, s: Search, role: string)
    requires Good(g, s) && s.path != [] && s.path[|s.path| - 1] == role
    requires forall d <- Deps(g, role) :: d in s.completed
    ensures Good(g, Left(s, role))
  {
    var path := s.path[..|s.path| - 1];
    assert s.path == path + [role];
    assert role !in path;
    assert Elements(s.path) == Elements(path) + {role};
    assert Elements(s.order + [role]) == Elements(s.order) + {role};
    AppendRespects(g, s.order, role);
  }

  lemma EnteredContinues(g: Graph, s: Search, role: string)
    ensures forall x <- Deps(g, role) :: Continues(g, Entered(s, role), x)
  {
  }

  /** Leaving a role brings the path back to what it was when the role was entered. */
  lemma FinishRole(g: Graph, s: Search, role: string, inner: Search)
    requires Good(g, inner) && inner.path == s.path + [role] && Extends(s, inner)
    requires forall d <- Deps(g, role) :: d in inner.completed
    ensures Good(g, Left(inner, role)) && Extends(s, Left(inner, role)) && role in Left(inner, role).completed
  {
    LeaveRole(g, inner, role);
  }

  lemma {:induction false} VisitMeaning(g: Graph, role: string, s: Search)
    requires Good(g, s) && Continues(g, s, role) && role in Universe(g)
    ensures var r := Visited(g, role, s);
            if r.None? then HasCycle(g)
            else Good(g, r.value) && Extends(s, r.value) && role in r.value.completed
    decreases Universe(g) - s.temp, 0
  {
    if role in s.temp {
      PathClosesCycle(g, s, role);
    } else if role !in s.completed {
      DepsInUniverse(g, role);
      EnterRole(g, s, role);
      EnteredContinues(g, s, role);
      VisitAllMeaning(g, Deps(g, role), Entered(s, role));
      var inner := VisitedAll(g, Deps(g, role), Entered(s, role));
      if inner.Some? {
        FinishRole(g, s, role, inner.value);
      }
    }
  }

  lemma {:induction false} VisitAllMeaning(g: Graph, roles: seq<string>, s: Search)
    requires Good(g, s)
    requires forall i :: 0 <= i < |roles| ==> roles[i] in Universe(g) && Continues(g, s, roles[i])
    ensures var r := VisitedAll(g, roles, s);
            if r.None? then HasCycle(g)
            else Good(g, r.value) && Extends(s, r.value)
                 && forall i :: 0 <= i < |roles| ==> roles[i] in r.value.completed
    decreases Universe(g) - s.temp, 1 + |roles|
  {
    if roles != [] {
      VisitMeaning(g, roles[0], s);
      var first := Visited(g, roles[0], s);
      if first.Some? {
        var rest := roles[1..];
        assert forall i :: 0 <= i < |rest| ==> rest[i] == roles[i + 1];
        VisitAllMeaning(g, rest, first.value);
        assert forall i :: 1 <= i < |roles| ==> roles[i] == rest[i - 1];
      }
    }
  }

  // ---------- Keys in sorted order ----------

  predicate IsSortedKeys(keys: seq<string>, names: set<string>) {
    NoDuplicates(keys) && Elements(keys) == names && Sorting.Sorted(keys, x => x)
  }

  /** The keys have one sorted list, whatever order a map iteration yields them in. */
  lemma SortedKeysUnique(a: seq<string>, b: seq<string>, names: set<string>)
    requires IsSortedKeys(a, names) && IsSortedKeys(b, names)
    ensures a == b
  {
    Sorting.DistinctAsSet(a);
    Sorting.DistinctAsSet(b);
    assert Elements(a) == Elements(b);
    Sorting.SortedStringsUnique(a, b);
  }

  /** The outcome for a list of keys: None on a cycle. */
  ghost function Outcome(g: Graph, keys: seq<string>): Option<seq<string>>
    requires forall k <- keys :: k in Universe(g)
  {
    var r := VisitedAll(g, keys, EMPTY_SEARCH);
    if r.None? then None else Some(r.value.order)
  }

  /** The sort is an error exactly when the graph has a cycle. */
  lemma FailsExactlyOnCycle(g: Graph, keys: seq<string>)
    requires Elements(keys) == g.Keys
    ensures Outcome(g, keys).None? <==> HasCycle(g)
  {
    VisitAllMeaning(g, keys, EMPTY_SEARCH);
    var r := VisitedAll(g, keys, EMPTY_SEARCH);
    if r.Some? {
      RespectfulMeansAcyclic(g, r.value.order);
    }
  }

  /**
   On success the order has no duplicates, holds every key, and each role follows all it depends on;
   it holds nothing but the keys if every dependency is a key.
   */
  lemma OrderIsTopological(g: Graph, keys: seq<string>)
    requires Elements(keys) == g.Keys && Outcome(g, keys).Some?
    ensures var order := Outcome(g, keys).value;
            && NoDuplicates(order) && Respects(g, order) && g.Keys <= Elements(order) <= Universe(g)
            && (Universe(g) == g.Keys ==> Elements(order) == g.Keys)
            && forall i, b :: 0 <= i < |order| && DependsOn(g, order[i], b) ==> b in order[..i]
  {
    VisitAllMeaning(g, keys, EMPTY_SEARCH);
    var order := Outcome(g, keys).value;
    forall i, b | 0 <= i < |order| && DependsOn(g, order[i], b) ensures b in order[..i] {
      TransitiveFirst(g, order, i, b);
    }
  }

  // ---------- The sort itself ----------

  class Sorter {
    const dependencies: Graph
    var temp: set<string>
    var completed: set<string>
    var order: seq<string>
    var path: seq<string>

    ghost function State(): Search
      reads this
    {
      Search(temp, completed, order, path)
    }

    constructor (dependencies: Graph)
      ensures this.dependencies == dependencies && State() == EMPTY_SEARCH
    {
      this.dependencies := dependencies;
      temp, completed, order, path := {}, {}, [], [];
    }

    /** One call of the recursive visit. On a cycle the search is abandoned half-way. */
    method Visit(role: string) returns (ok: bool)
      requires temp <= Universe(dependencies) && role in Universe(dependencies)
      modifies this
      ensures var r := Visited(dependencies, role, old(State()));
              ok == r.Some? && (ok ==> State() == r.value)
      decreases Universe(dependencies) - temp
    {
      if role in temp {
        return false;
      }
      if role in completed {
        return true;
      }
      ghost var start := State();
      temp := temp + {role};
      path := path + [role];
      ghost var entered := State();
      var deps := Deps(dependencies, role);
      DepsInUniverse(dependencies, role);
      for i := 0 to |deps|
        invariant temp == entered.temp
        invariant VisitedAll(dependencies, deps, entered) == VisitedAll(dependencies, deps[i..], State())
      {
        assert deps[i..][0] == deps[i] && deps[i..][1..] == deps[i + 1..];
        ok := Visit(deps[i]);
        if !ok {
          return false;
        }
      }
      temp := temp - {role};
      completed := completed + {role};
      order := order + [role];
      path := path[..|path| - 1];
      return true;
    }
  }

  /** Collect the keys as a map iteration would, in any order. */
  method KeysInAnyOrder(g: Graph) returns (keys: array<string>)
    ensures NoDuplicates(keys[..]) && Elements(keys[..]) == g.Keys
    ensures fresh(keys)
  {
    var list, left := [], g.Keys;
    while left != {}
      invariant left <= g.Keys && Elements(list) == g.Keys - left && NoDuplicates(list)
      decreases left
    {
      var k :| k in left;
      assert Elements(list + [k]) == Elements(list) + {k};
      list, left := list + [k], left - {k};
    }
    keys := new string[|list|](i requires 0 <= i < |list| => list[i]);
    assert keys[..] == list;
  }

  lemma PermutedKeys(a: seq<string>, b: seq<string>)
    requires NoDuplicates(a) && multiset(a) == multiset(b)
    ensures NoDuplicates(b) && Elements(b) == Elements(a)
  {
    Sorting.DistinctPermutes(a, b, x => x);
    forall x ensures x in a <==> x in b {
      assert x in multiset(a) <==> x in multiset(b);
    }
  }

  /** Visit the keys that are not completed yet, in the order given. */
  method VisitKeys(g: Graph, keys: seq<string>) returns (r: Option<seq<string>>)
    requires forall k <- keys :: k in Universe(g)
    ensures r == Outcome(g, keys)
  {
    var sorter := new Sorter(g);
    assert keys[0..] == keys;
    for i := 0 to |keys|
      invariant sorter.dependencies == g && sorter.temp == {}
      invariant VisitedAll(g, keys, EMPTY_SEARCH) == VisitedAll(g, keys[i..], sorter.State())
    {
      assert keys[i..][0] == keys[i] && keys[i..][1..] == keys[i + 1..];
      if keys[i] !in sorter.completed {
        var ok := sorter.Visit(keys[i]);
        if !ok {
          return None;
        }
      }
    }
    return Some(sorter.order);
  }

  /**
   The result is the outcome for the sorted keys, which SortedKeysUnique shows to be a function of
   the graph alone.
   */
  method DependencyOrder(g: Graph) returns (r: Option<seq<string>>)
    ensures exists keys :: IsSortedKeys(keys, g.Keys) && r == Outcome(g, keys)
  {
    var a := KeysInAnyOrder(g);
    ghost var unsorted := a[..];
    Sorting.SortSlice(a, x => x);
    PermutedKeys(unsorted, a[..]);
    r := VisitKeys(g, a[..]);
    assert IsSortedKeys(a[..], g.Keys);
  }
}
