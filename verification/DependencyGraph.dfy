/** Role dependencies as a graph: walks, cycles, and orders that respect every dependency. */
module DependencyGraph {

  /** Role name to the names it depends on. */
  type Graph = map<string, seq<string>>

  /** A name that is no key has no dependencies. */
  function Deps(g: Graph, role: string): seq<string> { if role in g then g[role] else [] }

  /** Every name the graph mentions. */
  function Universe(g: Graph): set<string> {
    g.Keys + set r, d | r in g.Keys && d in g[r] :: d
  }

  lemma DepsInUniverse(g: Graph, role: string)
    ensures forall d <- Deps(g, role) :: d in Universe(g)
  {
  }

  /** Each name depends directly on the next one. */
  predicate IsWalk(g: Graph, w: seq<string>) {
    w != [] && forall i :: 0 <= i < |w| - 1 ==> w[i + 1] in Deps(g, w[i])
  }

  /** A walk of at least one step that comes back to where it began. */
  predicate IsCycle(g: Graph, w: seq<string>) {
    IsWalk(g, w) && 2 <= |w| && w[0] == w[|w| - 1]
  }

  ghost predicate HasCycle(g: Graph) { exists w :: IsCycle(g, w) }

  predicate NoDuplicates(s: seq<string>) { forall i, j :: 0 <= i < j < |s| ==> s[i] != s[j] }

  function Elements(s: seq<string>): set<string> { set x | x in s }

  /** Everything in the order has its direct dependencies in front of it. */
  predicate Respects(g: Graph, order: seq<string>) {
    forall i :: 0 <= i < |order| ==> forall d <- Deps(g, order[i]) :: d in order[..i]
  }

  /** A transitive dependency: b is reached from a in one or more steps. */
  ghost predicate DependsOn(g: Graph, a: string, b: string) {
    exists w :: IsWalk(g, w) && 2 <= |w| && w[0] == a && w[|w| - 1] == b
  }

  /** Along any walk that starts in a respectful order the positions go down. */
  lemma {:induction false} WalkGoesDown(g: Graph, order: seq<string>, w: seq<string>, from: nat) returns (to: nat)
    requires Respects(g, order) && IsWalk(g, w) && from < |order| && order[from] == w[0]
    ensures to <= from && order[to] == w[|w| - 1] && (2 <= |w| ==> to < from)
    decreases |w|
  {
    to := from;
    if 2 <= |w| {
      assert w[1] in Deps(g, order[from]);
      var next :| 0 <= next < from && order[next] == w[1];
      to := WalkGoesDown(g, order, w[1..], next);
    }
  }

  /** A respectful order without duplicates puts every transitive dependency first. */
  lemma TransitiveFirst(g: Graph, order: seq<string>, i: nat, b: string)
    requires Respects(g, order) && i < |order| && DependsOn(g, order[i], b)
    ensures b in order[..i]
  {
    var w :| IsWalk(g, w) && 2 <= |w| && w[0] == order[i] && w[|w| - 1] == b;
    var to := WalkGoesDown(g, order, w, i);
    assert order[..i][to] == b;
  }

  /** A respectful order of all keys rules out cycles. */
  lemma RespectfulMeansAcyclic(g: Graph, order: seq<string>)
    requires Respects(g, order) && NoDuplicates(order) && g.Keys <= Elements(order)
    ensures !HasCycle(g)
  {
    if w :| IsCycle(g, w) {
      assert w[1] in Deps(g, w[0]);
      var from :| 0 <= from < |order| && order[from] == w[0];
      var to := WalkGoesDown(g, order, w, from);
      assert false;
    }
  }
}
