/**
 Dependency graphs: walks, cycles, a height that falls along every edge of an acyclic graph,
 and the three-colour depth-first search that looks for a cycle.
 */
module Graphs {
  import opened Seqs
  import opened Wrappers

  // A node and its prerequisites, in declared order.
  type Graph = map<string, seq<string>>

  // An unknown node has no prerequisites, as a missing map entry reads in Go.
  function Successors(g: Graph, u: string): seq<string> {
    if u in g then g[u] else []
  }

  function Nodes(g: Graph): set<string> {
    g.Keys + set u, v | u in g && v in g[u] :: v
  }

  lemma SuccessorIsNode(g: Graph, u: string, i: nat)
    requires i < |Successors(g, u)|
    ensures Successors(g, u)[i] in Nodes(g) && Successors(g, u)[i] in Successors(g, u)
  {
    assert u in g && g[u][i] in g[u];
  }

  ghost predicate IsWalk(g: Graph, u: string, p: seq<string>, v: string) {
    && |p| >= 1 && p[0] == u && p[|p| - 1] == v
    && forall i :: 0 <= i < |p| - 1 ==> p[i + 1] in Successors(g, p[i])
  }

  // v can be reached from u along at least one edge.
  ghost predicate Reaches(g: Graph, u: string, v: string) {
    exists p :: IsWalk(g, u, p, v) && |p| >= 2
  }

  ghost predicate Acyclic(g: Graph) {
    forall v :: !Reaches(g, v, v)
  }

  lemma EdgeReaches(g: Graph, u: string, v: string)
    requires v in Successors(g, u)
    ensures Reaches(g, u, v)
  {
    assert IsWalk(g, u, [u, v], v);
  }

  lemma ReachesTransitive(g: Graph, u: string, v: string, w: string)
    requires Reaches(g, u, v) && Reaches(g, v, w)
    ensures Reaches(g, u, w)
  {
    var p :| IsWalk(g, u, p, v) && |p| >= 2;
    var q :| IsWalk(g, v, q, w) && |q| >= 2;
    var r := p + q[1..];
    forall i | 0 <= i < |r| - 1
      ensures r[i + 1] in Successors(g, r[i])
    {
      if i >= |p| - 1 {
        assert r[i] == q[i + 1 - |p|];
      }
    }
    assert IsWalk(g, u, r, w);
  }

  ghost function Descendants(g: Graph, u: string): set<string> {
    set v | v in Nodes(g) && Reaches(g, u, v)
  }

  // The termination measure of everything that recurses over an acyclic graph.
  ghost function Height(g: Graph, u: string): nat {
    |Descendants(g, u)|
  }

  lemma ProperSubsetIsSmaller<T>(a: set<T>, b: set<T>)
    requires a < b
    ensures |a| < |b|
  {
    assert |b - a| > 0;
    assert b == a + (b - a);
  }

  lemma HeightFalls(g: Graph, u: string, v: string)
    requires Acyclic(g) && v in Successors(g, u)
    ensures Height(g, v) < Height(g, u)
  {
    EdgeReaches(g, u, v);
    forall w | w in Descendants(g, v)
      ensures w in Descendants(g, u)
    {
      ReachesTransitive(g, u, v, w);
    }
    assert v in Nodes(g);
    assert v in Descendants(g, u) && v !in Descendants(g, v);
    ProperSubsetIsSmaller(Descendants(g, v), Descendants(g, u));
  }

  lemma ElementsGrow(s: seq<string>, u: string)
    ensures Elements(s + [u]) == Elements(s) + {u}
  {
  }

  // Every node of a topological order comes after all its prerequisites.
  ghost predicate Topological(g: Graph, order: seq<string>) {
    order != [] ==>
      && Topological(g, order[..|order| - 1])
      && Elements(Successors(g, order[|order| - 1])) <= Elements(order[..|order| - 1])
  }

  lemma {:induction false} TopologicalAt(g: Graph, order: seq<string>, i: nat, d: string)
    requires Topological(g, order) && i < |order| && d in Successors(g, order[i])
    ensures d in order[..i]
  {
    if i < |order| - 1 {
      TopologicalAt(g, order[..|order| - 1], i, d);
      assert order[..|order| - 1][..i] == order[..i];
    } else {
      assert d in Elements(order[..i]);
    }
  }

  ghost function FirstIndex(order: seq<string>, u: string): (i: nat)
    requires u in order
    ensures i < |order| && order[i] == u && u !in order[..i]
  {
    if order[0] == u then 0 else
      assert order == [order[0]] + order[1..];
      var i := FirstIndex(order[1..], u) + 1;
      assert order[..i] == [order[0]] + order[1..][..i - 1];
      i
  }

  lemma {:induction false} WalkDescends(g: Graph, order: seq<string>, u: string, p: seq<string>, v: string)
    requires Topological(g, order) && u in order && IsWalk(g, u, p, v)
    ensures v in order
    ensures |p| >= 2 ==> FirstIndex(order, v) < FirstIndex(order, u)
    decreases |p|
  {
    if |p| >= 2 {
      var i := FirstIndex(order, u);
      assert p[1] in Successors(g, p[0]);
      TopologicalAt(g, order, i, p[1]);
      assert FirstIndex(order, p[1]) < i;
      forall j | 0 <= j < |p[1..]| - 1
        ensures p[1..][j + 1] in Successors(g, p[1..][j])
      {
        assert p[1..][j] == p[j + 1] && p[1..][j + 1] == p[j + 2];
      }
      WalkDescends(g, order, p[1], p[1..], v);
    }
  }

  lemma TopologicalImpliesAcyclic(g: Graph, order: seq<string>)
    requires Topological(g, order) && g.Keys <= Elements(order)
    ensures Acyclic(g)
  {
    forall v
      ensures !Reaches(g, v, v)
    {
      if Reaches(g, v, v) {
        var p :| IsWalk(g, v, p, v) && |p| >= 2;
        assert p[0 + 1] in Successors(g, p[0]);
        WalkDescends(g, order, v, p, v);
      }
    }
  }

  // Each node of the stack is a prerequisite of the one below it.
  ghost predicate OnWalk(g: Graph, stack: seq<string>) {
    |stack| >= 2 ==>
      && OnWalk(g, stack[..|stack| - 1])
      && stack[|stack| - 1] in Successors(g, stack[|stack| - 2])
  }

  lemma {:induction false} OnWalkAt(g: Graph, stack: seq<string>, i: nat)
    requires OnWalk(g, stack) && i + 1 < |stack|
    ensures stack[i + 1] in Successors(g, stack[i])
  {
    if i + 2 < |stack| {
      OnWalkAt(g, stack[..|stack| - 1], i);
    }
  }

  lemma WalkGrows(g: Graph, stack: seq<string>, u: string)
    requires OnWalk(g, stack)
    requires stack != [] ==> u in Successors(g, stack[|stack| - 1])
    ensures OnWalk(g, stack + [u])
  {
    assert (stack + [u])[..|stack|] == stack;
  }

  lemma StackClosesCycle(g: Graph, stack: seq<string>, u: string)
    requires OnWalk(g, stack) && u in stack && u in Successors(g, stack[|stack| - 1])
    ensures Reaches(g, u, u)
  {
    var i :| 0 <= i < |stack| && stack[i] == u;
    var p := stack[i..] + [u];
    forall j | 0 <= j < |p| - 1
      ensures p[j + 1] in Successors(g, p[j])
    {
      assert p[j] == stack[i + j];
      if j + 1 < |p| - 1 {
        OnWalkAt(g, stack, i + j);
      }
    }
    assert IsWalk(g, u, p, u);
  }

  const WHITE := 0
  const GREY := 1
  const BLACK := 2

  // The colours are grey for the nodes being visited and black for those already visited.
  ghost predicate Coloured(state: map<string, int>, grey: set<string>, black: set<string>) {
    && state.Keys == grey + black && grey !! black
    && forall u :: u in state ==> state[u] == if u in grey then GREY else BLACK
  }

  lemma PopStack(g: Graph, stack: seq<string>, u: string) returns (below: seq<string>)
    requires OnWalk(g, stack) && stack != [] && stack[|stack| - 1] == u
    ensures below == stack[..|stack| - 1] && OnWalk(g, below) && Elements(stack) == Elements(below) + {u}
  {
    below := stack[..|stack| - 1];
    assert stack == below + [u];
    ElementsGrow(below, u);
  }

  /** The search state that the recursive visit closes over. */
  class CycleSearch {
    const graph: Graph
    var state: map<string, int>
    ghost var unseen: set<string>    // the nodes not yet visited
    ghost var stack: seq<string>     // the nodes being visited, outermost first
    ghost var finished: seq<string>  // the nodes already visited, in the order they finished

    ghost function Black(): set<string>
      reads this
    {
      Elements(finished)
    }

    ghost predicate Valid()
      reads this
    {
      && Coloured(state, Elements(stack), Elements(finished))
      && state.Keys !! unseen && Nodes(graph) == state.Keys + unseen
      && OnWalk(graph, stack) && Topological(graph, finished)
    }

    constructor (graph: Graph)
      ensures Valid() && this.graph == graph && stack == [] && finished == []
    {
      this.graph := graph;
      state := map[];
      stack, finished, unseen := [], [], Nodes(graph);
    }

    // state[ref] = 1
    method Enter(u: string)
      requires Valid() && u in unseen
      requires stack != [] ==> u in Successors(graph, stack[|stack| - 1])
      modifies this
      ensures Valid() && state == old(state)[u := GREY]
      ensures stack == old(stack) + [u] && finished == old(finished)
      ensures state.Keys == old(state.Keys) + {u} && unseen == old(unseen) - {u}
    {
      ElementsGrow(stack, u);
      WalkGrows(graph, stack, u);
      state := state[u := GREY];
      stack, unseen := stack + [u], unseen - {u};
    }

    // state[ref] = 2
    method Leave(u: string)
      requires Valid() && stack != [] && stack[|stack| - 1] == u && u !in stack[..|stack| - 1]
      requires Elements(Successors(graph, u)) <= Black()
      modifies this
      ensures Valid() && state == old(state)[u := BLACK] && unseen == old(unseen)
      ensures stack == old(stack)[..|old(stack)| - 1] && Black() == old(Black()) + {u}
    {
      ghost var below := PopStack(graph, stack, u);
      ElementsGrow(finished, u);
      assert state[u := BLACK].Keys == state.Keys;
      state := state[u := BLACK];
      stack := below;
      finished := finished + [u];
    }

    method Visit(u: string) returns (cycle: Option<string>)
      requires Valid() && u in state.Keys + unseen
      requires stack != [] ==> u in Successors(graph, stack[|stack| - 1])
      modifies this
      ensures cycle.None? ==> Valid() && stack == old(stack)
      ensures cycle.None? ==> unseen <= old(unseen) && old(Black()) + {u} <= Black()
      ensures cycle.Some? ==> Reaches(graph, cycle.value, cycle.value)
      decreases unseen, 0
    {
      var colour := if u in state then state[u] else WHITE;
      if colour == GREY {
        StackClosesCycle(graph, stack, u);
        return Some(u);
      }
      if colour == BLACK {
        return None;
      }
      Enter(u);
      cycle := VisitPrerequisites(u);
      if cycle.None? {
        assert stack[..|stack| - 1] == old(stack);
        Leave(u);
      }
    }

    method VisitPrerequisites(u: string) returns (cycle: Option<string>)
      requires Valid() && stack != [] && stack[|stack| - 1] == u
      modifies this
      ensures cycle.None? ==> Valid() && stack == old(stack)
      ensures cycle.None? ==> unseen <= old(unseen)
      ensures cycle.None? ==> old(Black()) + Elements(Successors(graph, u)) <= Black()
      ensures cycle.Some? ==> Reaches(graph, cycle.value, cycle.value)
      decreases unseen, 1
    {
      var deps := Successors(graph, u);
      for i := 0 to |deps|
        invariant Valid() && stack == old(stack)
        invariant unseen <= old(unseen)
        invariant old(Black()) + Elements(deps[..i]) <= Black()
      {
        SuccessorIsNode(graph, u, i);
        cycle := Visit(deps[i]);
        if cycle.Some? {
          return;
        }
      }
      TakeAll(deps);
      cycle := None;
    }
  }

  /**
   The search succeeds exactly on acyclic graphs, in whatever order the roots are taken,
   and the node it reports lies on a cycle.
   */
  method DetectDependencyCycles(graph: Graph) returns (cycle: Option<string>)
    ensures cycle.None? <==> Acyclic(graph)
    ensures cycle.Some? ==> Reaches(graph, cycle.value, cycle.value)
  {
    var search := new CycleSearch(graph);
    var roots := graph.Keys;
    while roots != {}
      invariant search.Valid() && search.graph == graph && search.stack == []
      invariant roots <= graph.Keys <= roots + search.Black()
      decreases roots
    {
      var u :| u in roots;
      cycle := search.Visit(u);
      if cycle.Some? {
        return;
      }
      roots := roots - {u};
    }
    TopologicalImpliesAcyclic(graph, search.finished);
    cycle := None;
  }
}
