/**
 Workspace dependency cycles. The depth-first search keeps the path it is on; it reports nothing exactly
 when the workspace graph has no cycle, and everything it reports is a simple cycle.
 */
module WorkspaceCycles {
  import opened Sorting

  datatype Manifest = Manifest(
    name: string, dependencies: seq<string>, devDependencies: seq<string>,
    optionalDependencies: seq<string>, peerDependencies: seq<string>)

  /** Keys of an object spread: those of the first, then what the second adds. */
  function Merge(a: seq<string>, b: seq<string>): (keys: seq<string>)
    ensures forall x :: x in keys <==> x in a || x in b
    decreases |b|
  {
    if b == [] then a
    else
      assert forall x :: x in b <==> x == b[0] || x in b[1..];
      Merge(if b[0] in a then a else a + [b[0]], b[1..])
  }

  function Dependencies(m: Manifest): (keys: seq<string>)
    ensures forall x :: x in keys <==> x in m.dependencies || x in m.devDependencies
                                       || x in m.optionalDependencies || x in m.peerDependencies
  {
    Merge(Merge(Merge(m.dependencies, m.devDependencies), m.optionalDependencies), m.peerDependencies)
  }

  type Graph = map<string, seq<string>>

  /** Workspaces by name with their dependency names; a later workspace replaces an earlier namesake. */
  function ByName(workspaces: seq<Manifest>): Graph {
    if workspaces == [] then map[]
    else
      var m := workspaces[|workspaces| - 1];
      ByName(workspaces[..|workspaces| - 1])[m.name := Dependencies(m)]
  }

  function Names(workspaces: seq<Manifest>): (names: seq<string>)
    ensures forall x :: x in names <==> x in ByName(workspaces)
  {
    if workspaces == [] then []
    else
      var m := workspaces[|workspaces| - 1];
      var names := Names(workspaces[..|workspaces| - 1]);
      if m.name in names then names else names + [m.name]
  }

  // ---------------------------------------------------------------- cycles

  /** A dependency between two workspaces. */
  predicate Edge(g: Graph, a: string, b: string) { a in g && b in g && b in g[a] }

  predicate Walk(g: Graph, w: seq<string>) {
    forall i | 0 <= i < |w| - 1 :: Edge(g, w[i], w[i + 1])
  }

  predicate Cycle(g: Graph, c: seq<string>) { |c| >= 2 && c[0] == c[|c| - 1] && Walk(g, c) }

  /** Only the first workspace of the cycle is repeated, at its end. */
  ghost predicate SimpleCycle(g: Graph, c: seq<string>) { Cycle(g, c) && Distinct(c[..|c| - 1]) }

  ghost predicate Acyclic(g: Graph) { forall c :: !Cycle(g, c) }

  /** Every dependency stands before its dependent. */
  ghost predicate Ordered(g: Graph, finished: seq<string>) {
    forall i, b | 0 <= i < |finished| && Edge(g, finished[i], b) :: b in finished[..i]
  }

  lemma {:induction false} WalkDescends(g: Graph, finished: seq<string>, w: seq<string>, i: nat) returns (j: nat)
    requires Ordered(g, finished) && Walk(g, w) && w != [] && i < |finished| && finished[i] == w[0]
    ensures j <= i && finished[j] == w[|w| - 1] && (|w| > 1 ==> j < i)
    decreases |w|
  {
    if |w| == 1 {
      j := i;
    } else {
      assert Edge(g, w[0], w[1]);
      assert w[1] in finished[..i];
      var k :| 0 <= k < i && finished[k] == w[1];
      forall n | 0 <= n < |w[1..]| - 1 ensures Edge(g, w[1..][n], w[1..][n + 1]) {
        assert Edge(g, w[n + 1], w[n + 2]);
      }
      j := WalkDescends(g, finished, w[1..], k);
    }
  }

  lemma {:induction false} NoCycleFrom(g: Graph, finished: seq<string>, c: seq<string>, i: nat)
    requires Ordered(g, finished) && i < |finished| && Cycle(g, c)
    ensures finished[i] != c[0]
    decreases i
  {
    if finished[i] == c[0] {
      var j := WalkDescends(g, finished, c, i);
      NoCycleFrom(g, finished, c, j);
    }
  }

  lemma OrderedIsAcyclic(g: Graph, finished: seq<string>)
    requires Ordered(g, finished) && forall a | a in g :: a in finished
    ensures Acyclic(g)
  {
    forall c | Cycle(g, c) ensures false {
      assert Edge(g, c[0], c[1]);
      var i :| 0 <= i < |finished| && finished[i] == c[0];
      NoCycleFrom(g, finished, c, i);
    }
  }

  // ---------------------------------------------------------------- the search

  function IndexOf(s: seq<string>, x: string): (i: int)
    ensures -1 <= i < |s|
    ensures i >= 0 ==> s[i] == x
    ensures i < 0 <==> x !in s
  {
    if s == [] then -1
    else if s[0] == x then 0
    else
      var i := IndexOf(s[1..], x);
      assert s == [s[0]] + s[1..];
      if i < 0 then -1 else i + 1
  }

  class Search {
    const graph: Graph
    var visited: set<string>
    var active: seq<string>
    var cycles: seq<seq<string>>
    ghost var finished: seq<string>

    ghost predicate Valid()
      reads this
    {
      && Distinct(active) && Walk(graph, active) && (forall a | a in active :: a in graph)
      && (forall c | c in cycles :: SimpleCycle(graph, c))
      && (forall a :: a in visited <==> a in finished)
      && (cycles == [] ==> Ordered(graph, finished))
    }

    constructor (graph: Graph)
      ensures this.graph == graph && Valid() && active == [] && cycles == []
    {
      this.graph := graph;
      visited, active, cycles, finished := {}, [], [], [];
    }

    ghost function ActiveSet(): set<string>
      reads this
    {
      set a | a in active
    }

    method Visit(name: string)
      requires Valid() && name in graph
      requires active != [] ==> Edge(graph, active[|active| - 1], name)
      modifies this
      ensures Valid() && active == old(active)
      ensures old(cycles) <= cycles && old(visited) <= visited
      ensures cycles == [] ==> name in visited
      decreases graph.Keys - ActiveSet()
    {
      var position := IndexOf(active, name);
      if position >= 0 {
        ClosingCycle(graph, active, position, name);
        cycles := cycles + [active[position..] + [name]];
        return;
      }
      if name in visited { return; }
      ExtendedWalk(graph, active, name);
      active := active + [name];
      assert ActiveSet() == old(ActiveSet()) + {name};
      var dependencies := graph[name];
      for i := 0 to |dependencies|
        invariant Valid() && active == old(active) + [name]
        invariant old(cycles) <= cycles && old(visited) <= visited
        invariant cycles == [] ==> forall k | 0 <= k < i :: dependencies[k] in graph ==> dependencies[k] in visited
      {
        if dependencies[i] in graph {
          Visit(dependencies[i]);
        }
      }
      active := active[..|active| - 1];
      assert active == old(active);
      if cycles == [] {
        forall b | Edge(graph, name, b) ensures b in finished { assert b in dependencies; }
        AppendOrdered(graph, finished, name);
      }
      visited := visited + {name};
      finished := finished + [name];
    }
  }

  lemma ClosingCycle(g: Graph, active: seq<string>, position: nat, name: string)
    requires Distinct(active) && Walk(g, active) && position < |active| && active[position] == name
    requires Edge(g, active[|active| - 1], name)
    ensures SimpleCycle(g, active[position..] + [name])
  {
    var c := active[position..] + [name];
    forall i | 0 <= i < |c| - 1 ensures Edge(g, c[i], c[i + 1]) {
      assert i + 1 < |active[position..]| ==> Edge(g, active[position + i], active[position + i + 1]);
    }
    assert c[..|c| - 1] == active[position..];
  }

  lemma ExtendedWalk(g: Graph, active: seq<string>, name: string)
    requires Walk(g, active) && Distinct(active) && name !in active
    requires active != [] ==> Edge(g, active[|active| - 1], name)
    ensures Walk(g, active + [name]) && Distinct(active + [name])
  {
    var w := active + [name];
    forall i | 0 <= i < |w| - 1 ensures Edge(g, w[i], w[i + 1]) {
      assert i + 1 < |active| ==> Edge(g, active[i], active[i + 1]);
    }
  }

  lemma AppendOrdered(g: Graph, finished: seq<string>, name: string)
    requires Ordered(g, finished) && forall b | Edge(g, name, b) :: b in finished
    ensures Ordered(g, finished + [name])
  {
    var all := finished + [name];
    forall i, b | 0 <= i < |all| && Edge(g, all[i], b) ensures b in all[..i] {
      assert all[..i] == finished[..i];
      assert i == |finished| ==> all[..i] == finished;
    }
  }

  ghost predicate VisitedUpTo(names: seq<string>, i: nat, visited: set<string>) {
    i <= |names| && forall k | 0 <= k < i :: names[k] in visited
  }

  /** The search is sound and complete: it reports no cycle exactly when there is none, and every report
      is a cycle of dependencies between workspaces in which only the first name repeats. */
  method FindCycles(workspaces: seq<Manifest>) returns (cycles: seq<seq<string>>)
    ensures cycles == [] <==> Acyclic(ByName(workspaces))
    ensures forall c | c in cycles :: SimpleCycle(ByName(workspaces), c)
  {
    var graph := ByName(workspaces);
    var search := new Search(graph);
    var names := Names(workspaces);
    for i := 0 to |names|
      invariant search.graph == graph && search.Valid() && search.active == []
      invariant search.cycles == [] ==> VisitedUpTo(names, i, search.visited)
    {
      assert names[i] in names;
      search.Visit(names[i]);
    }
    cycles := search.cycles;
    if cycles == [] {
      OrderedIsAcyclic(graph, search.finished);
    } else {
      assert cycles[0] in cycles;
      assert Cycle(graph, cycles[0]);
    }
  }
}
