/** Canvas nodes and edges, directed reachability, and the greedy removal of cycle-closing edges. */
module LayoutGraph {
  import opened Reachability

  datatype Position = Position(x: int, y: int)
  datatype Node = Node(id: string, kind: string, position: Position)
  datatype Edge = Edge(source: string, target: string, channel: string)
  datatype Orientation = Horizontal | Vertical

  function NodeIds(nodes: seq<Node>): set<string> {
    set n | n in nodes :: n.id
  }

  ghost function Arcs(edges: seq<Edge>): Relation {
    set e | e in edges :: (e.source, e.target)
  }

  /** The arcs read in both directions. */
  ghost function Links(edges: seq<Edge>): Relation {
    Arcs(edges) + set e | e in edges :: (e.target, e.source)
  }

  lemma ArcsExtend(edges: seq<Edge>, e: Edge)
    ensures Arcs(edges + [e]) == Arcs(edges) + {(e.source, e.target)}
    ensures Links(edges + [e]) == Links(edges) + {(e.source, e.target), (e.target, e.source)}
  {
    assert forall x :: x in edges + [e] <==> x in edges || x == e;
    assert e in edges + [e];
    assert forall x :: x in Arcs(edges + [e]) ==> x in Arcs(edges) + {(e.source, e.target)};
  }

  lemma LinksSymmetric(edges: seq<Edge>)
    ensures Symmetric(Links(edges))
  {
  }

  /** Two nodes are connected if a path joins them that ignores edge direction. */
  ghost predicate Connected(edges: seq<Edge>, a: string, b: string) {
    Reaches(Links(edges), a, b)
  }

  /** The edges with both ends in ids, in their order. */
  function Within(edges: seq<Edge>, ids: set<string>): (r: seq<Edge>)
    ensures forall e :: e in r <==> e in edges && e.source in ids && e.target in ids
  {
    if edges == [] then []
    else
      var rest := Within(edges[..|edges| - 1], ids);
      var e := edges[|edges| - 1];
      assert edges == edges[..|edges| - 1] + [e];
      if e.source in ids && e.target in ids then rest + [e] else rest
  }

  lemma WithinAppend(edges: seq<Edge>, e: Edge, ids: set<string>)
    ensures Within(edges + [e], ids) == Within(edges, ids) + if e.source in ids && e.target in ids then [e] else []
  {
    assert (edges + [e])[..|edges|] == edges;
  }

  lemma LastEdge(front: seq<Edge>, later: seq<Edge>)
    requires later != []
    ensures front + later == (front + later[..|later| - 1]) + [later[|later| - 1]]
    ensures later == later[..|later| - 1] + [later[|later| - 1]]
  {
  }

  lemma {:induction false} WithinBoth(front: seq<Edge>, later: seq<Edge>, ids: set<string>)
    ensures Within(front + later, ids) == Within(front, ids) + Within(later, ids)
    decreases |later|
  {
    if later == [] {
      assert front + later == front;
    } else {
      var n := |later| - 1;
      LastEdge(front, later);
      WithinBoth(front, later[..n], ids);
      WithinAppend(front + later[..n], later[n], ids);
      WithinAppend(later[..n], later[n], ids);
    }
  }

  /** Every edge is kept or left out where it is, and by its own ends alone. */
  lemma WithinIs(front: seq<Edge>, e: Edge, later: seq<Edge>, ids: set<string>)
    ensures Within([], ids) == []
    ensures Within(front + [e] + later, ids)
            == Within(front, ids) + (if e.source in ids && e.target in ids then [e] else []) + Within(later, ids)
  {
    WithinAppend(front, e, ids);
    WithinBoth(front + [e], later, ids);
  }

  method ResolveLayoutEdges(edges: seq<Edge>, nodeSet: set<string>) returns (layoutEdges: seq<Edge>)
    ensures layoutEdges == Within(edges, nodeSet)
  {
    layoutEdges := [];
    for i := 0 to |edges|
      invariant layoutEdges == Within(edges[..i], nodeSet)
    {
      var edge := edges[i];
      assert edges[..i + 1][..i] == edges[..i];
      if edge.source !in nodeSet || edge.target !in nodeSet {
        continue;
      }
      layoutEdges := layoutEdges + [edge];
    }
    assert edges[..|edges|] == edges;
  }

  lemma WithinAll(edges: seq<Edge>, ids: set<string>)
    requires forall e :: e in edges ==> e.source in ids && e.target in ids
    ensures Within(edges, ids) == edges
  {
    if edges != [] {
      WithinAll(edges[..|edges| - 1], ids);
      assert edges == edges[..|edges| - 1] + [edges[|edges| - 1]];
    }
  }

  /** The adjacency map lists exactly the successors of every node it knows. */
  ghost predicate ListsSuccessors(adjacency: map<string, seq<string>>, r: Relation) {
    && (forall a, b :: (a, b) in r ==> a in adjacency && b in adjacency[a])
    && (forall a, b :: a in adjacency && b in adjacency[a] ==> (a, b) in r)
  }

  lemma ListsAnother(adjacency: map<string, seq<string>>, r: Relation, a: string, b: string)
    requires ListsSuccessors(adjacency, r)
    ensures ListsSuccessors(adjacency[a := (if a in adjacency then adjacency[a] else []) + [b]], r + {(a, b)})
  {
  }

  method BuildSuccessors(edges: seq<Edge>) returns (adjacency: map<string, seq<string>>)
    ensures ListsSuccessors(adjacency, Arcs(edges))
  {
    adjacency := map[];
    for i := 0 to |edges|
      invariant ListsSuccessors(adjacency, Arcs(edges[..i]))
    {
      var edge := edges[i];
      var known := if edge.source in adjacency then adjacency[edge.source] else [];
      ArcsExtend(edges[..i], edge);
      assert edges[..i + 1] == edges[..i] + [edge];
      ListsAnother(adjacency, Arcs(edges[..i]), edge.source, edge.target);
      adjacency := adjacency[edge.source := known + [edge.target]];
    }
    assert edges[..|edges|] == edges;
  }

  /** What a breadth-first search from starts maintains: everything seen is reachable, every start
      is seen, and whatever a visited node points to is seen. */
  ghost predicate Searching(r: Relation, starts: set<string>, visited: set<string>, queue: seq<string>) {
    && (forall x :: x in visited ==> ReachedFrom(r, starts, x))
    && (forall x :: x in queue ==> ReachedFrom(r, starts, x))
    && (forall x :: x in starts ==> x in visited || x in queue)
    && (forall a, b :: (a, b) in r && a in visited ==> b in visited || b in queue)
  }

  ghost predicate ReachedFrom(r: Relation, starts: set<string>, x: string) {
    exists s :: s in starts && Reaches(r, s, x)
  }

  lemma SearchStarts(r: Relation, queue: seq<string>)
    ensures Searching(r, (set x | x in queue), {}, queue)
  {
    forall x | x in queue ensures ReachedFrom(r, (set y | y in queue), x) {
      ReachesSelf(r, x);
    }
  }

  lemma SearchSkips(r: Relation, starts: set<string>, visited: set<string>, queue: seq<string>)
    requires Searching(r, starts, visited, queue) && queue != [] && queue[0] in visited
    ensures Searching(r, starts, visited, queue[1..])
  {
    assert queue == [queue[0]] + queue[1..];
    assert forall x :: x in queue ==> x == queue[0] || x in queue[1..];
  }

  /** Visiting the head of the queue; next lists at least its unvisited successors and nothing but successors. */
  lemma SearchVisits(r: Relation, starts: set<string>, visited: set<string>, queue: seq<string>, next: seq<string>)
    requires Searching(r, starts, visited, queue) && queue != []
    requires forall x :: x in next ==> (queue[0], x) in r
    requires forall x :: (queue[0], x) in r ==> x in next || x in visited || x == queue[0]
    ensures Searching(r, starts, visited + {queue[0]}, queue[1..] + next)
  {
    var current := queue[0];
    assert queue == [current] + queue[1..];
    assert forall x :: x in queue ==> x == current || x in queue[1..];
    assert ReachedFrom(r, starts, current);
    var s :| s in starts && Reaches(r, s, current);
    forall x | x in next ensures ReachedFrom(r, starts, x) {
      ReachesExtend(r, s, current, x);
    }
  }

  /** Once the queue is empty, visited is exactly what the starts reach. */
  lemma SearchEnds(r: Relation, starts: set<string>, visited: set<string>, x: string)
    requires Searching(r, starts, visited, [])
    ensures x in visited <==> ReachedFrom(r, starts, x)
  {
    if ReachedFrom(r, starts, x) {
      var s :| s in starts && Reaches(r, s, x);
      ClosedStays(r, visited, s, x);
    }
  }

  /** All nodes a search can see. */
  ghost function Universe(r: Relation, starts: set<string>): set<string> {
    starts + set arc | arc in r :: arc.1
  }

  lemma ReachedIsInUniverse(r: Relation, starts: set<string>, x: string)
    requires ReachedFrom(r, starts, x)
    ensures x in Universe(r, starts)
  {
    var u := Universe(r, starts);
    assert Closed(r, u) by {
      forall a, b | (a, b) in r && a in u ensures b in u {
        assert (a, b).1 == b;
      }
    }
    var s :| s in starts && Reaches(r, s, x);
    ClosedStays(r, u, s, x);
  }

  /** The nodes left to visit, which bounds the search although the queue holds nodes several times. */
  ghost function Unseen(r: Relation, starts: set<string>, visited: set<string>): nat {
    |Universe(r, starts) - visited|
  }

  lemma VisitShrinks(r: Relation, starts: set<string>, visited: set<string>, current: string)
    requires ReachedFrom(r, starts, current) && current !in visited
    ensures Unseen(r, starts, visited + {current}) < Unseen(r, starts, visited)
  {
    ReachedIsInUniverse(r, starts, current);
    var u := Universe(r, starts);
    assert u - (visited + {current}) == (u - visited) - {current};
  }

  /** Breadth-first search; the queue may hold a node several times. */
  method HasLayoutPath(edges: seq<Edge>, startNodeId: string, targetNodeId: string) returns (found: bool)
    ensures found <==> Reaches(Arcs(edges), startNodeId, targetNodeId)
  {
    ghost var r := Arcs(edges);
    var adjacency := BuildSuccessors(edges);
    var visited: set<string> := {};
    var queue := [startNodeId];
    ghost var starts := {startNodeId};
    SearchStarts(r, queue);
    assert (set x | x in queue) == starts;
    while |queue| > 0
      invariant Searching(r, starts, visited, queue)
      invariant targetNodeId !in visited
      decreases Unseen(r, starts, visited), |queue|
    {
      var current := queue[0];
      assert ReachedFrom(r, starts, current);
      if current == targetNodeId {
        return true;
      }
      if current in visited {
        SearchSkips(r, starts, visited, queue);
        queue := queue[1..];
        continue;
      }
      var next := if current in adjacency then adjacency[current] else [];
      SearchVisits(r, starts, visited, queue, next);
      VisitShrinks(r, starts, visited, current);
      visited := visited + {current};
      queue := queue[1..] + next;
    }
    assert Reaches(r, startNodeId, targetNodeId) ==> ReachedFrom(r, starts, targetNodeId);
    SearchEnds(r, starts, visited, targetNodeId);
    return false;
  }

  /** What is left after dropping, one after the other, each edge that would close a cycle. */
  ghost function Forward(edges: seq<Edge>): seq<Edge> {
    if edges == [] then []
    else
      var kept := Forward(edges[..|edges| - 1]);
      var e := edges[|edges| - 1];
      if Reaches(Arcs(kept), e.target, e.source) then kept else kept + [e]
  }

  method ResolveForwardLayoutEdges(layoutNodes: seq<Node>, layoutEdges: seq<Edge>) returns (forwardEdges: seq<Edge>)
    ensures forwardEdges == Forward(Within(layoutEdges, NodeIds(layoutNodes)))
  {
    var nodeSet := NodeIds(layoutNodes);
    forwardEdges := [];
    for i := 0 to |layoutEdges|
      invariant forwardEdges == Forward(Within(layoutEdges[..i], nodeSet))
    {
      var edge := layoutEdges[i];
      assert layoutEdges[..i + 1][..i] == layoutEdges[..i];
      if edge.source !in nodeSet || edge.target !in nodeSet {
        continue;
      }
      var before := Within(layoutEdges[..i], nodeSet);
      assert (before + [edge])[..|before|] == before;
      var closesCycle := HasLayoutPath(forwardEdges, edge.target, edge.source);
      if closesCycle {
        continue;
      }
      forwardEdges := forwardEdges + [edge];
    }
    assert layoutEdges[..|layoutEdges|] == layoutEdges;
  }

  /** The forward edges never contain a directed cycle; a self-loop counts as one. */
  lemma {:induction false} ForwardAcyclic(edges: seq<Edge>)
    ensures Acyclic(Arcs(Forward(edges)))
  {
    if edges == [] {
      AcyclicIffNoArcReturns(Arcs(Forward(edges)));
    } else {
      var kept := Forward(edges[..|edges| - 1]);
      var e := edges[|edges| - 1];
      ForwardAcyclic(edges[..|edges| - 1]);
      if !Reaches(Arcs(kept), e.target, e.source) {
        AddArcKeepsAcyclic(Arcs(kept), e.source, e.target);
        ArcsExtend(kept, e);
      }
    }
  }

  /** The members of edges that lie in kept, in their order and as often as they occur. */
  ghost function Keep(edges: seq<Edge>, kept: set<Edge>): seq<Edge> {
    if edges == [] then []
    else
      var rest := Keep(edges[..|edges| - 1], kept);
      var e := edges[|edges| - 1];
      if e in kept then rest + [e] else rest
  }

  lemma {:induction false} ForwardFacts(edges: seq<Edge>, n: nat)
    requires n <= |edges|
    ensures Arcs(Forward(edges[..n])) <= Arcs(Forward(edges))
    ensures forall e :: e in Forward(edges[..n]) ==> e in Forward(edges) && e in edges
    decreases |edges| - n
  {
    if n == |edges| {
      assert edges[..n] == edges;
      ForwardSubset(edges);
    } else {
      assert edges[..n + 1][..n] == edges[..n];
      var e := edges[n];
      ArcsExtend(Forward(edges[..n]), e);
      ForwardFacts(edges, n + 1);
    }
  }

  lemma {:induction false} ForwardSubset(edges: seq<Edge>)
    ensures forall e :: e in Forward(edges) ==> e in edges
  {
    if edges != [] {
      ForwardSubset(edges[..|edges| - 1]);
    }
  }

  /** Maximality: an edge is dropped exactly when the kept edges lead from its target back to its source. */
  lemma {:induction false} DroppedIffClosesCycle(edges: seq<Edge>, e: Edge)
    requires e in edges
    ensures e !in Forward(edges) <==> Reaches(Arcs(Forward(edges)), e.target, e.source)
  {
    var f := Forward(edges);
    if e in f {
      ForwardAcyclic(edges);
      AcyclicIffNoArcReturns(Arcs(f));
      assert (e.source, e.target) in Arcs(f);
    } else {
      var i :| 0 <= i < |edges| && edges[i] == e;
      assert edges[..i + 1][..i] == edges[..i];
      var kept, next := Forward(edges[..i]), Forward(edges[..i + 1]);
      assert Reaches(Arcs(kept), e.target, e.source) || e in next;
      ForwardFacts(edges, i + 1);
      ForwardFacts(edges, i);
      ReachesMonotone(Arcs(kept), Arcs(f), e.target, e.source);
    }
  }

  /** The forward edges are a subsequence of the edges, and no occurrence of a kept edge is dropped. */
  lemma {:induction false} ForwardKeepsOrder(edges: seq<Edge>, n: nat)
    requires n <= |edges|
    ensures Forward(edges[..n]) == Keep(edges[..n], set e | e in Forward(edges))
  {
    if n > 0 {
      var f := Forward(edges);
      ForwardKeepsOrder(edges, n - 1);
      var e := edges[n - 1];
      assert edges[..n][..n - 1] == edges[..n - 1];
      var before := Forward(edges[..n - 1]);
      ForwardFacts(edges, n - 1);
      ForwardFacts(edges, n);
      if Reaches(Arcs(before), e.target, e.source) {
        ReachesMonotone(Arcs(before), Arcs(f), e.target, e.source);
        DroppedIffClosesCycle(edges, e);
      } else {
        assert e in Forward(edges[..n]);
      }
    }
  }

  /** Dropping the cycle-closing edges disconnects nothing. */
  lemma {:induction false} ForwardKeepsConnectivity(edges: seq<Edge>, a: string, b: string)
    ensures Connected(Forward(edges), a, b) <==> Connected(edges, a, b)
  {
    var f := Forward(edges);
    ForwardSubset(edges);
    assert Links(f) <= Links(edges);
    if Connected(f, a, b) {
      ReachesMonotone(Links(f), Links(edges), a, b);
    }
    if Connected(edges, a, b) {
      forall x, y | (x, y) in Links(edges) ensures Reaches(Links(f), x, y) {
        LinkSurvives(edges, x, y);
      }
      ReachesSimulated(Links(edges), Links(f), a, b);
    }
  }

  lemma LinkSurvives(edges: seq<Edge>, x: string, y: string)
    requires (x, y) in Links(edges)
    ensures Connected(Forward(edges), x, y)
  {
    var f := Forward(edges);
    LinksSymmetric(f);
    var e :| e in edges && ((e.source, e.target) == (x, y) || (e.target, e.source) == (x, y));
    if e in f {
      ReachesStep(Links(f), x, y);
    } else {
      DroppedIffClosesCycle(edges, e);
      ReachesMonotone(Arcs(f), Links(f), e.target, e.source);
      ReachesSymmetric(Links(f), e.target, e.source);
    }
  }
}
