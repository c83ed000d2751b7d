/** Undirected components of the laid-out nodes, and the traversal that limits a layout to some seeds. */
module LayoutComponents {
  import opened Reachability
  import opened LayoutGraph

  function IdSeq(nodes: seq<Node>): (r: seq<string>)
    ensures |r| == |nodes| && forall i :: 0 <= i < |nodes| ==> r[i] == nodes[i].id
  {
    seq(|nodes|, i requires 0 <= i < |nodes| => nodes[i].id)
  }

  function Elements(ids: seq<string>): set<string> {
    set x | x in ids
  }

  ghost predicate DistinctIds(nodes: seq<Node>) {
    forall i, j :: 0 <= i < j < |nodes| ==> nodes[i].id != nodes[j].id
  }

  ghost predicate EdgesInside(edges: seq<Edge>, ids: set<string>) {
    forall e :: e in edges ==> e.source in ids && e.target in ids
  }

  /** Everything connected to v. */
  ghost function ClassOf(v: string, ids: set<string>, edges: seq<Edge>): set<string> {
    set u | u in ids && Connected(edges, v, u)
  }

  ghost function Union(parts: seq<set<string>>): set<string> {
    set c, x | c in parts && x in c :: x
  }

  /** The classes of the nodes in order, each listed where its first node occurs. */
  ghost function Components(order: seq<string>, ids: set<string>, edges: seq<Edge>): seq<set<string>> {
    if order == [] then []
    else
      var earlier := Components(order[..|order| - 1], ids, edges);
      var v := order[|order| - 1];
      if v in Union(earlier) then earlier else earlier + [ClassOf(v, ids, edges)]
  }

  lemma UnionAppend(parts: seq<set<string>>, c: set<string>)
    ensures Union(parts + [c]) == Union(parts) + c
  {
    assert forall d :: d in parts + [c] <==> d in parts || d == c;
    assert c in parts + [c];
    assert forall x :: x in Union(parts + [c]) ==> x in Union(parts) + c;
  }

  ghost predicate IsClass(c: set<string>, ids: set<string>, edges: seq<Edge>) {
    exists v :: v in ids && c == ClassOf(v, ids, edges)
  }

  lemma ClassContains(v: string, ids: set<string>, edges: seq<Edge>)
    requires v in ids
    ensures v in ClassOf(v, ids, edges)
  {
    ReachesSelf(Links(edges), v);
  }

  /** Members of one class are connected, and what is connected to a member is a member. */
  lemma ClassIsConnected(c: set<string>, ids: set<string>, edges: seq<Edge>, u: string, w: string)
    requires IsClass(c, ids, edges) && u in c && w in ids
    ensures w in c <==> Connected(edges, u, w)
  {
    var v :| v in ids && c == ClassOf(v, ids, edges);
    LinksSymmetric(edges);
    ReachesSymmetric(Links(edges), v, u);
    if w in c {
      ReachesTransitive(Links(edges), u, v, w);
    }
    if Connected(edges, u, w) {
      ReachesTransitive(Links(edges), v, u, w);
    }
  }

  lemma {:induction false} ComponentsAreClasses(order: seq<string>, ids: set<string>, edges: seq<Edge>)
    requires Elements(order) <= ids
    ensures forall c :: c in Components(order, ids, edges) ==> IsClass(c, ids, edges)
    ensures Elements(order) <= Union(Components(order, ids, edges))
  {
    if order != [] {
      var front, v := order[..|order| - 1], order[|order| - 1];
      assert v in order && forall x :: x in order ==> x in front || x == v;
      ComponentsAreClasses(front, ids, edges);
      ClassContains(v, ids, edges);
      UnionAppend(Components(front, ids, edges), ClassOf(v, ids, edges));
    }
  }

  lemma {:induction false} ComponentsDisjoint(order: seq<string>, ids: set<string>, edges: seq<Edge>, i: nat, j: nat)
    requires Elements(order) <= ids
    requires i < j < |Components(order, ids, edges)|
    ensures Components(order, ids, edges)[i] !! Components(order, ids, edges)[j]
  {
    var parts := Components(order, ids, edges);
    var front, v := order[..|order| - 1], order[|order| - 1];
    var earlier := Components(front, ids, edges);
    assert Elements(front) <= ids && v in Elements(order);
    if j < |earlier| {
      ComponentsDisjoint(front, ids, edges, i, j);
    } else {
      ComponentsAreClasses(front, ids, edges);
      assert parts[j] == ClassOf(v, ids, edges) && parts[i] in earlier && v !in Union(earlier);
      forall x | x in parts[i] && x in parts[j] ensures false {
        LinksSymmetric(edges);
        ReachesSymmetric(Links(edges), v, x);
        ClassIsConnected(parts[i], ids, edges, x, v);
      }
    }
  }

  /** The components partition the nodes. */
  lemma ComponentsPartition(order: seq<string>, edges: seq<Edge>)
    ensures Union(Components(order, Elements(order), edges)) == Elements(order)
    ensures forall c :: c in Components(order, Elements(order), edges) ==> c != {}
    ensures forall i, j :: 0 <= i < j < |Components(order, Elements(order), edges)| ==>
              Components(order, Elements(order), edges)[i] !! Components(order, Elements(order), edges)[j]
  {
    var ids := Elements(order);
    var parts := Components(order, ids, edges);
    ComponentsAreClasses(order, ids, edges);
    forall c | c in parts ensures c != {} && c <= ids {
      var v :| v in ids && c == ClassOf(v, ids, edges);
      ClassContains(v, ids, edges);
    }
    forall i, j | 0 <= i < j < |parts| ensures parts[i] !! parts[j] {
      ComponentsDisjoint(order, ids, edges, i, j);
    }
  }

  /** Two nodes share a component iff an undirected path joins them. */
  lemma SameComponentIffConnected(order: seq<string>, edges: seq<Edge>, u: string, w: string)
    requires u in order && w in order
    ensures Connected(edges, u, w) <==> exists c :: c in Components(order, Elements(order), edges) && u in c && w in c
  {
    var ids := Elements(order);
    var parts := Components(order, ids, edges);
    ComponentsAreClasses(order, ids, edges);
    assert u in Union(parts);
    var d :| d in parts && u in d;
    ClassIsConnected(d, ids, edges, u, w);
    if c :| c in parts && u in c && w in c {
      ClassIsConnected(c, ids, edges, u, w);
    }
  }

  lemma UnionIsClosed(parts: seq<set<string>>, ids: set<string>, edges: seq<Edge>)
    requires EdgesInside(edges, ids)
    requires forall c :: c in parts ==> IsClass(c, ids, edges)
    ensures Closed(Links(edges), Union(parts))
  {
    forall a, b | (a, b) in Links(edges) && a in Union(parts) ensures b in Union(parts) {
      var c :| c in parts && a in c;
      ReachesStep(Links(edges), a, b);
      ClassIsConnected(c, ids, edges, a, b);
    }
  }

  /** Forward edges and all edges have the same components, so no component of several nodes is without
      forward edges: each of its nodes is an end of one. */
  lemma ComponentsOfForwardEdges(order: seq<string>, ids: set<string>, edges: seq<Edge>)
    ensures Components(order, ids, Forward(edges)) == Components(order, ids, edges)
  {
    if order != [] {
      var v := order[|order| - 1];
      ComponentsOfForwardEdges(order[..|order| - 1], ids, edges);
      forall u ensures Connected(Forward(edges), v, u) <==> Connected(edges, v, u) {
        ForwardKeepsConnectivity(edges, v, u);
      }
      assert ClassOf(v, ids, Forward(edges)) == ClassOf(v, ids, edges);
    }
  }

  lemma EveryNodeOfALargeComponentHasAForwardEdge(c: set<string>, ids: set<string>, edges: seq<Edge>, u: string)
    requires EdgesInside(edges, ids) && IsClass(c, ids, edges) && u in c && |c| >= 2
    ensures exists e :: e in Within(Forward(edges), c) && (e.source == u || e.target == u)
  {
    assert c != {u};
    var w :| w in c && w != u;
    ClassIsConnected(c, ids, edges, u, w);
    ForwardKeepsConnectivity(edges, u, w);
    var f := Forward(edges);
    var p :| PathBetween(Links(f), p, u, w);
    assert (p[0], p[0 + 1]) in Links(f);
    var x := p[1];
    var e :| e in f && ((e.source, e.target) == (u, x) || (e.target, e.source) == (u, x));
    ForwardSubset(edges);
    ReachesStep(Links(f), u, x);
    ForwardKeepsConnectivity(edges, u, x);
    ClassIsConnected(c, ids, edges, u, x);
  }

  // ----- adjacency and traversal -----

  method BuildFlowAdjacency(flowNodeIds: seq<string>, edges: seq<Edge>) returns (adjacency: map<string, seq<string>>)
    ensures adjacency.Keys == Elements(flowNodeIds)
    ensures ListsSuccessors(adjacency, Links(Within(edges, Elements(flowNodeIds))))
  {
    var ids := Elements(flowNodeIds);
    adjacency := map id | id in ids :: [];
    assert Links([]) == {};
    for i := 0 to |edges|
      invariant adjacency.Keys == ids
      invariant ListsSuccessors(adjacency, Links(Within(edges[..i], ids)))
    {
      var edge := edges[i];
      assert edges[..i + 1][..i] == edges[..i];
      if edge.source !in ids || edge.target !in ids {
        continue;
      }
      LinksOneMore(edges, ids, i);
      ghost var r := Links(Within(edges[..i], ids));
      ListsAnother(adjacency, r, edge.source, edge.target);
      adjacency := adjacency[edge.source := adjacency[edge.source] + [edge.target]];
      ListsAnother(adjacency, r + {(edge.source, edge.target)}, edge.target, edge.source);
      adjacency := adjacency[edge.target := adjacency[edge.target] + [edge.source]];
    }
    assert edges[..|edges|] == edges;
  }

  lemma LinksOneMore(edges: seq<Edge>, ids: set<string>, i: nat)
    requires i < |edges| && edges[i].source in ids && edges[i].target in ids
    ensures Links(Within(edges[..i + 1], ids))
            == Links(Within(edges[..i], ids)) + {(edges[i].source, edges[i].target)} + {(edges[i].target, edges[i].source)}
  {
    assert edges[..i + 1][..i] == edges[..i];
    ArcsExtend(Within(edges[..i], ids), edges[i]);
  }

  function Unvisited(neighbors: seq<string>, visited: set<string>): (r: seq<string>)
    ensures forall x :: x in r <==> x in neighbors && x !in visited
  {
    if neighbors == [] then []
    else
      var rest := Unvisited(neighbors[..|neighbors| - 1], visited);
      var x := neighbors[|neighbors| - 1];
      assert neighbors == neighbors[..|neighbors| - 1] + [x];
      if x in visited then rest else rest + [x]
  }

  method EnqueueUnvisited(queue: seq<string>, neighbors: seq<string>, visited: set<string>) returns (r: seq<string>)
    ensures r == queue + Unvisited(neighbors, visited)
  {
    r := queue;
    for i := 0 to |neighbors|
      invariant r == queue + Unvisited(neighbors[..i], visited)
    {
      assert neighbors[..i + 1][..i] == neighbors[..i];
      if neighbors[i] in visited {
        continue;
      }
      r := r + [neighbors[i]];
    }
    assert neighbors[..|neighbors|] == neighbors;
  }

  lemma SearchVisitsUnvisited(r: Relation, starts: set<string>, visited: set<string>, queue: seq<string>,
                              neighbors: seq<string>)
    requires Searching(r, starts, visited, queue) && queue != []
    requires forall x :: x in neighbors <==> (queue[0], x) in r
    ensures Searching(r, starts, visited + {queue[0]}, queue[1..] + Unvisited(neighbors, visited + {queue[0]}))
  {
    SearchVisits(r, starts, visited, queue, Unvisited(neighbors, visited + {queue[0]}));
  }

  /** Everything the seeds are connected to. */
  method TraverseConnectedNodeSet(seedNodeIds: seq<string>, adjacency: map<string, seq<string>>, ghost r: Relation)
    returns (selected: set<string>)
    requires ListsSuccessors(adjacency, r)
    ensures forall x :: x in selected <==> ReachedFrom(r, Elements(seedNodeIds), x)
  {
    selected := {};
    var queue := seedNodeIds;
    ghost var starts := Elements(seedNodeIds);
    SearchStarts(r, queue);
    while |queue| > 0
      invariant Searching(r, starts, selected, queue)
      decreases Unseen(r, starts, selected), |queue|
    {
      var current := queue[0];
      assert ReachedFrom(r, starts, current);
      if current in selected {
        SearchSkips(r, starts, selected, queue);
        queue := queue[1..];
        continue;
      }
      var neighbors := if current in adjacency then adjacency[current] else [];
      VisitShrinks(r, starts, selected, current);
      SearchVisitsUnvisited(r, starts, selected, queue, neighbors);
      selected := selected + {current};
      queue := EnqueueUnvisited(queue[1..], neighbors, selected);
    }
    forall x ensures x in selected <==> ReachedFrom(r, starts, x) {
      SearchEnds(r, starts, selected, x);
    }
  }

  /** The members of ids that are selected, in their order. */
  function Select(ids: seq<string>, selected: set<string>): (r: seq<string>)
    ensures forall x :: x in r <==> x in ids && x in selected
  {
    if ids == [] then []
    else
      var rest := Select(ids[..|ids| - 1], selected);
      var v := ids[|ids| - 1];
      assert ids == ids[..|ids| - 1] + [v];
      if v in selected then rest + [v] else rest
  }

  method CollectSelectedNodeIds(flowNodeIds: seq<string>, selected: set<string>) returns (r: seq<string>)
    ensures r == Select(flowNodeIds, selected)
  {
    r := [];
    for i := 0 to |flowNodeIds|
      invariant r == Select(flowNodeIds[..i], selected)
    {
      assert flowNodeIds[..i + 1][..i] == flowNodeIds[..i];
      if flowNodeIds[i] in selected {
        r := r + [flowNodeIds[i]];
      }
    }
    assert flowNodeIds[..|flowNodeIds|] == flowNodeIds;
  }

  /** The nodes the seeds select: those connected to a seed. */
  ghost function ConnectedToSeeds(seeds: seq<string>, flowNodeIds: seq<string>, edges: seq<Edge>): set<string> {
    set x | x in flowNodeIds && ReachedFrom(Links(Within(edges, Elements(flowNodeIds))), Elements(seeds), x)
  }

  ghost function ScopeOfSeeds(seeds: seq<string>, flowNodeIds: seq<string>, edges: seq<Edge>): seq<string> {
    if seeds == [] then flowNodeIds else Select(flowNodeIds, ConnectedToSeeds(seeds, flowNodeIds, edges))
  }

  method ResolveConnectedComponentNodeIds(seedNodeIds: seq<string>, flowNodeIds: seq<string>, edges: seq<Edge>)
    returns (r: seq<string>)
    ensures r == ScopeOfSeeds(seedNodeIds, flowNodeIds, edges)
  {
    if |seedNodeIds| == 0 {
      return flowNodeIds;
    }
    var adjacency := BuildFlowAdjacency(flowNodeIds, edges);
    var selected := TraverseConnectedNodeSet(seedNodeIds, adjacency, Links(Within(edges, Elements(flowNodeIds))));
    r := CollectSelectedNodeIds(flowNodeIds, selected);
    SelectAgrees(flowNodeIds, flowNodeIds, selected, ConnectedToSeeds(seedNodeIds, flowNodeIds, edges));
  }

  lemma {:induction false} SelectAgrees(ids: seq<string>, all: seq<string>, a: set<string>, b: set<string>)
    requires forall x :: x in ids ==> x in all
    requires forall x :: x in all ==> (x in a <==> x in b)
    ensures Select(ids, a) == Select(ids, b)
  {
    if ids != [] {
      SelectAgrees(ids[..|ids| - 1], all, a, b);
      assert ids[|ids| - 1] in ids;
    }
  }

  ghost predicate HoldsSeed(part: set<string>, seeds: seq<string>) {
    exists s :: s in seeds && s in part
  }

  ghost function SeededParts(parts: seq<set<string>>, seeds: seq<string>): set<string> {
    set c, x | c in parts && HoldsSeed(c, seeds) && x in c :: x
  }

  /** The seed traversal agrees with the component search: it yields, in flow order, exactly the union of
      the components that contain a seed. */
  lemma SeedScopeIsUnionOfComponents(seeds: seq<string>, flowNodeIds: seq<string>, edges: seq<Edge>)
    requires seeds != [] && forall s :: s in seeds ==> s in flowNodeIds
    ensures var inner := Within(edges, Elements(flowNodeIds));
      var parts := Components(flowNodeIds, Elements(flowNodeIds), inner);
      ScopeOfSeeds(seeds, flowNodeIds, edges) == Select(flowNodeIds, SeededParts(parts, seeds))
  {
    var ids := Elements(flowNodeIds);
    var inner := Within(edges, ids);
    var parts := Components(flowNodeIds, ids, inner);
    forall x | x in flowNodeIds
      ensures x in ConnectedToSeeds(seeds, flowNodeIds, edges) <==> x in SeededParts(parts, seeds)
    {
      if x in ConnectedToSeeds(seeds, flowNodeIds, edges) {
        var s :| s in Elements(seeds) && Reaches(Links(inner), s, x);
        SameComponentIffConnected(flowNodeIds, inner, s, x);
        var c :| c in parts && s in c && x in c;
        assert HoldsSeed(c, seeds);
      }
      if x in SeededParts(parts, seeds) {
        var c :| c in parts && HoldsSeed(c, seeds) && x in c;
        var s :| s in seeds && s in c;
        SameComponentIffConnected(flowNodeIds, inner, s, x);
        assert s in Elements(seeds);
      }
    }
    SelectAgrees(flowNodeIds, flowNodeIds, ConnectedToSeeds(seeds, flowNodeIds, edges), SeededParts(parts, seeds));
  }

  // ----- the component search -----

  /** The node each ID stands for: with a repeated ID, the last one. */
  function NodesById(nodes: seq<Node>): (m: map<string, Node>)
    ensures m.Keys == NodeIds(nodes)
    ensures forall id :: id in m ==> m[id] in nodes && m[id].id == id
  {
    if nodes == [] then map[]
    else
      var n := nodes[|nodes| - 1];
      assert nodes == nodes[..|nodes| - 1] + [n];
      NodesById(nodes[..|nodes| - 1])[n.id := n]
  }

  function IdSets(components: seq<seq<Node>>): (r: seq<set<string>>)
    ensures |r| == |components| && forall i :: 0 <= i < |r| ==> r[i] == NodeIds(components[i])
  {
    seq(|components|, i requires 0 <= i < |components| => NodeIds(components[i]))
  }

  /** A component lists each of its nodes once, as the node map knows it. */
  ghost predicate ListsNodesOnce(component: seq<Node>, byId: map<string, Node>) {
    && DistinctIds(component)
    && forall n :: n in component ==> n.id in byId && byId[n.id] == n
  }

  method CollectComponent(seed: string, byId: map<string, Node>, adjacency: map<string, seq<string>>,
                          visited0: set<string>, ghost edges: seq<Edge>)
    returns (component: seq<Node>, visited: set<string>)
    requires seed in byId && seed !in visited0
    requires EdgesInside(edges, byId.Keys) && ListsSuccessors(adjacency, Links(edges))
    requires Closed(Links(edges), visited0)
    requires forall id :: id in byId ==> byId[id].id == id
    ensures NodeIds(component) == ClassOf(seed, byId.Keys, edges)
    ensures ListsNodesOnce(component, byId)
    ensures visited == visited0 + NodeIds(component)
  {
    visited := visited0;
    component := [];
    var queue := [seed];
    ghost var found: set<string> := {};
    SearchStarts(Links(edges), queue);
    assert (set x | x in queue) == {seed};
    while |queue| > 0
      invariant Searching(Links(edges), {seed}, found, queue)
      invariant found == NodeIds(component) && visited == visited0 + found
      invariant ListsNodesOnce(component, byId)
      decreases Unseen(Links(edges), {seed}, found), |queue|
    {
      var current := queue[0];
      SearchHead(edges, visited0, byId.Keys, seed, found, queue);
      if current in visited {
        SearchSkips(Links(edges), {seed}, found, queue);
        queue := queue[1..];
        continue;
      }
      var neighbors := if current in adjacency then adjacency[current] else [];
      ComponentStep(edges, visited0, byId.Keys, seed, found, queue, adjacency);
      ListsOneMoreNode(component, byId[current], byId);
      component := component + [byId[current]];
      UnionAssociative(visited0, found, {current});
      found := found + {current};
      visited := visited + {current};
      queue := EnqueueUnvisited(queue[1..], neighbors, visited);
    }
    SearchFoundClass(edges, byId.Keys, seed, found);
  }

  lemma UnionAssociative(a: set<string>, b: set<string>, c: set<string>)
    ensures (a + b) + c == a + (b + c)
  {
  }

  lemma SearchHead(edges: seq<Edge>, visited0: set<string>, ids: set<string>, seed: string,
                   found: set<string>, queue: seq<string>)
    requires EdgesInside(edges, ids) && seed in ids && queue != []
    requires Closed(Links(edges), visited0) && seed !in visited0
    requires Searching(Links(edges), {seed}, found, queue)
    ensures queue[0] !in visited0 && queue[0] in ids
  {
    assert ReachedFrom(Links(edges), {seed}, queue[0]);
    SearchStaysOutside(edges, visited0, ids, seed, queue[0]);
  }

  lemma ComponentStep(edges: seq<Edge>, visited0: set<string>, ids: set<string>, seed: string,
                      found: set<string>, queue: seq<string>, adjacency: map<string, seq<string>>)
    requires EdgesInside(edges, ids) && seed in ids && queue != [] && queue[0] !in found
    requires Closed(Links(edges), visited0) && seed !in visited0
    requires Searching(Links(edges), {seed}, found, queue)
    requires ListsSuccessors(adjacency, Links(edges))
    ensures var neighbors := if queue[0] in adjacency then adjacency[queue[0]] else [];
      Searching(Links(edges), {seed}, found + {queue[0]},
                queue[1..] + Unvisited(neighbors, visited0 + (found + {queue[0]})))
    ensures Unseen(Links(edges), {seed}, found + {queue[0]}) < Unseen(Links(edges), {seed}, found)
  {
    var current := queue[0];
    var neighbors := if current in adjacency then adjacency[current] else [];
    assert ReachedFrom(Links(edges), {seed}, current);
    SearchStaysOutside(edges, visited0, ids, seed, current);
    VisitShrinks(Links(edges), {seed}, found, current);
    SearchVisitsUnvisited(Links(edges), {seed}, found, queue, neighbors);
    UnvisitedIgnores(neighbors, visited0, found + {current});
  }

  lemma ListsOneMoreNode(component: seq<Node>, n: Node, byId: map<string, Node>)
    requires ListsNodesOnce(component, byId) && n.id !in NodeIds(component)
    requires n.id in byId && byId[n.id] == n
    ensures ListsNodesOnce(component + [n], byId)
    ensures NodeIds(component + [n]) == NodeIds(component) + {n.id}
  {
    NodeIdsAppend(component, n);
    forall i | 0 <= i < |component| ensures component[i].id != n.id {
      assert component[i].id in NodeIds(component);
    }
  }

  lemma NodeIdsAppend(nodes: seq<Node>, n: Node)
    ensures NodeIds(nodes + [n]) == NodeIds(nodes) + {n.id}
  {
    assert forall m :: m in nodes + [n] <==> m in nodes || m == n;
    assert n in nodes + [n];
  }

  /** A search that starts outside a closed set of links never enters it. */
  lemma SearchStaysOutside(edges: seq<Edge>, s: set<string>, ids: set<string>, seed: string, x: string)
    requires EdgesInside(edges, ids) && seed in ids
    requires Closed(Links(edges), s) && seed !in s && ReachedFrom(Links(edges), {seed}, x)
    ensures x !in s && x in ids
    ensures forall y :: (x, y) in Links(edges) ==> y !in s
  {
    LinksSymmetric(edges);
    ClosedNotEntered(Links(edges), s, seed, x);
    assert Closed(Links(edges), ids);
    ClosedStays(Links(edges), ids, seed, x);
    forall y | (x, y) in Links(edges) ensures y !in s {
      assert (y, x) in Links(edges);
    }
  }

  lemma UnvisitedIgnores(neighbors: seq<string>, outside: set<string>, visited: set<string>)
    requires forall x :: x in neighbors ==> x !in outside
    ensures Unvisited(neighbors, outside + visited) == Unvisited(neighbors, visited)
  {
    if neighbors != [] {
      UnvisitedIgnores(neighbors[..|neighbors| - 1], outside, visited);
      assert neighbors[|neighbors| - 1] in neighbors;
    }
  }

  lemma SearchFoundClass(edges: seq<Edge>, ids: set<string>, seed: string, found: set<string>)
    requires EdgesInside(edges, ids) && seed in ids
    requires Searching(Links(edges), {seed}, found, [])
    ensures found == ClassOf(seed, ids, edges)
  {
    forall x ensures x in found <==> x in ClassOf(seed, ids, edges) {
      SearchEnds(Links(edges), {seed}, found, x);
      assert Reaches(Links(edges), seed, x) <==> ReachedFrom(Links(edges), {seed}, x);
      if Connected(edges, seed, x) {
        assert Closed(Links(edges), ids);
        ClosedStays(Links(edges), ids, seed, x);
      }
    }
  }

  method ResolveDisconnectedLayoutComponents(layoutNodes: seq<Node>, layoutEdges: seq<Edge>)
    returns (components: seq<seq<Node>>)
    ensures IdSets(components)
         == Components(IdSeq(layoutNodes), NodeIds(layoutNodes), Within(layoutEdges, NodeIds(layoutNodes)))
    ensures forall c :: c in components ==> ListsNodesOnce(c, NodesById(layoutNodes))
  {
    components := [];
    var order := IdSeq(layoutNodes);
    var byId := NodesById(layoutNodes);
    ghost var edges := Within(layoutEdges, byId.Keys);
    ElementsOfIdSeq(layoutNodes);
    var adjacency := BuildFlowAdjacency(order, layoutEdges);
    var visited: set<string> := {};
    for i := 0 to |layoutNodes|
      invariant IdSets(components) == Components(order[..i], byId.Keys, edges)
      invariant visited == Union(IdSets(components))
      invariant forall c :: c in components ==> ListsNodesOnce(c, byId)
    {
      var seed := layoutNodes[i].id;
      NextComponent(order, i, byId.Keys, edges, components);
      if seed in visited {
        continue;
      }
      var component;
      component, visited := CollectComponent(seed, byId, adjacency, visited, edges);
      ClassContains(seed, byId.Keys, edges);
      if |component| > 0 {
        IdSetsAppend(components, component);
        components := components + [component];
      }
    }
    assert order[..|layoutNodes|] == order;
  }

  lemma IdSetsAppend(components: seq<seq<Node>>, component: seq<Node>)
    ensures IdSets(components + [component]) == IdSets(components) + [NodeIds(component)]
    ensures Union(IdSets(components + [component])) == Union(IdSets(components)) + NodeIds(component)
  {
    assert IdSets(components + [component]) == IdSets(components) + [NodeIds(component)];
    UnionAppend(IdSets(components), NodeIds(component));
  }

  lemma NextComponent(order: seq<string>, i: nat, ids: set<string>, edges: seq<Edge>, components: seq<seq<Node>>)
    requires i < |order| && Elements(order) == ids && EdgesInside(edges, ids)
    requires IdSets(components) == Components(order[..i], ids, edges)
    ensures Closed(Links(edges), Union(IdSets(components))) && order[i] in ids
    ensures Components(order[..i + 1], ids, edges)
         == if order[i] in Union(IdSets(components)) then IdSets(components)
            else IdSets(components) + [ClassOf(order[i], ids, edges)]
  {
    assert order[..i + 1][..i] == order[..i];
    UnionOfPrefixIsClosed(order, i, ids, edges);
  }

  lemma UnionOfPrefixIsClosed(order: seq<string>, i: nat, ids: set<string>, edges: seq<Edge>)
    requires i < |order| && Elements(order) == ids && EdgesInside(edges, ids)
    ensures Closed(Links(edges), Union(Components(order[..i], ids, edges))) && order[i] in ids
  {
    ComponentsAreClasses(order[..i], ids, edges);
    UnionIsClosed(Components(order[..i], ids, edges), ids, edges);
  }

  lemma ElementsOfIdSeq(nodes: seq<Node>)
    ensures Elements(IdSeq(nodes)) == NodeIds(nodes)
  {
    forall n | n in nodes ensures n.id in IdSeq(nodes) {
      var i :| 0 <= i < |nodes| && nodes[i] == n;
      assert IdSeq(nodes)[i] == n.id;
    }
  }
}
