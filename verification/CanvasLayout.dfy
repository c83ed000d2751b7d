/** The layout entry point: scope resolution, the pipeline, and its guarantees on the list of nodes. */
module CanvasLayout {
  import opened Reachability
  import opened LayoutGraph
  import opened LayoutComponents
  import opened LayoutGeometry
  import opened LayoutPlacement
  import opened LayoutPacking
  import opened AutoLayout

  datatype Scope = Unspecified | FullCanvas | ConnectedComponent | OtherScope(name: string)
  datatype Config = Config(scope: Scope, nodeIds: seq<string>)
  datatype Outcome = Done(nodes: seq<Node>) | UnknownNode(id: string) | UnsupportedScope(name: string)

  // ----- nodes with an ID, and the index of each ID -----

  function FlowIds(nodes: seq<Node>): (r: seq<string>)
    ensures forall id :: id in r <==> id != "" && id in NodeIds(nodes)
  {
    if nodes == [] then []
    else
      var front, n := nodes[..|nodes| - 1], nodes[|nodes| - 1];
      NodeIdsAppend(front, n);
      assert nodes == front + [n];
      if n.id == "" then FlowIds(front) else FlowIds(front) + [n.id]
  }

  /** Node i is the one its ID stands for: no later node has the same ID. */
  predicate IsLast(nodes: seq<Node>, i: nat)
    requires i < |nodes|
  {
    forall j :: i < j < |nodes| ==> nodes[j].id != nodes[i].id
  }

  ghost predicate IndexesLast(index: map<string, nat>, nodes: seq<Node>) {
    && (forall id :: id in index <==> id != "" && id in NodeIds(nodes))
    && (forall id :: id in index ==> index[id] < |nodes| && nodes[index[id]].id == id && IsLast(nodes, index[id]))
  }

  method IndexNodes(nodes: seq<Node>) returns (index: map<string, nat>, flowNodeIds: seq<string>)
    ensures IndexesLast(index, nodes)
    ensures flowNodeIds == FlowIds(nodes)
  {
    index, flowNodeIds := map[], [];
    for i := 0 to |nodes|
      invariant IndexesLast(index, nodes[..i])
      invariant flowNodeIds == FlowIds(nodes[..i])
    {
      var node := nodes[i];
      assert nodes[..i + 1] == nodes[..i] + [node];
      assert nodes[..i + 1][..i] == nodes[..i];
      IndexOneMore(index, nodes[..i], node);
      if node.id == "" {
        continue;
      }
      index := index[node.id := i];
      flowNodeIds := flowNodeIds + [node.id];
    }
    assert nodes[..|nodes|] == nodes;
  }

  lemma IndexOneMore(index: map<string, nat>, nodes: seq<Node>, n: Node)
    requires IndexesLast(index, nodes)
    ensures IndexesLast(if n.id == "" then index else index[n.id := |nodes|], nodes + [n])
  {
    NodeIdsAppend(nodes, n);
    forall id | id in index && id != n.id ensures IsLast(nodes + [n], index[id]) {
      assert IsLast(nodes, index[id]);
    }
  }

  lemma {:induction false} NodesByIdIsLast(nodes: seq<Node>, i: nat)
    requires i < |nodes| && IsLast(nodes, i)
    ensures nodes[i].id in NodesById(nodes) && NodesById(nodes)[nodes[i].id] == nodes[i]
  {
    var n := |nodes| - 1;
    if i < n {
      assert IsLast(nodes[..n], i);
      NodesByIdIsLast(nodes[..n], i);
    }
  }

  lemma {:induction false} SomeLast(nodes: seq<Node>, id: string) returns (i: nat)
    requires id in NodeIds(nodes)
    ensures i < |nodes| && nodes[i].id == id && IsLast(nodes, i)
  {
    var n := |nodes| - 1;
    NodeIdsAppend(nodes[..n], nodes[n]);
    assert nodes == nodes[..n] + [nodes[n]];
    if nodes[n].id == id {
      i := n;
    } else {
      i := SomeLast(nodes[..n], id);
    }
  }

  // ----- scope -----

  function FirstUnknown(ids: seq<string>, known: set<string>): (r: Outcome)
    ensures r.Done? <==> forall id :: id in ids ==> id in known
    ensures !r.UnsupportedScope?
  {
    if ids == [] then Done([])
    else
      assert forall id :: id in ids <==> id == ids[0] || id in ids[1..];
      if ids[0] !in known then UnknownNode(ids[0]) else FirstUnknown(ids[1..], known)
  }

  /** Each ID once, where it first occurs. */
  function FirstOccurrences(ids: seq<string>): (r: seq<string>)
    ensures forall id :: id in r <==> id in ids
    ensures forall i, j :: 0 <= i < j < |r| ==> r[i] != r[j]
  {
    if ids == [] then []
    else
      var front, last := ids[..|ids| - 1], ids[|ids| - 1];
      assert ids == front + [last];
      if last in front then FirstOccurrences(front) else FirstOccurrences(front) + [last]
  }

  lemma FirstOccurrencesStep(ids: seq<string>, i: nat)
    requires i < |ids|
    ensures FirstOccurrences(ids[..i + 1])
            == if ids[i] in ids[..i] then FirstOccurrences(ids[..i]) else FirstOccurrences(ids[..i]) + [ids[i]]
  {
    assert ids[..i + 1][..i] == ids[..i];
  }

  method ResolveLayoutSeedNodeIds(nodeIds: seq<string>, flowNodeSet: set<string>)
    returns (seeds: seq<string>, unknown: Outcome)
    ensures unknown == FirstUnknown(nodeIds, flowNodeSet)
    ensures unknown.Done? ==> seeds == FirstOccurrences(nodeIds) && Elements(seeds) == Elements(nodeIds)
  {
    seeds := [];
    var seen: set<string> := {};
    for i := 0 to |nodeIds|
      invariant seen == Elements(nodeIds[..i]) && seeds == FirstOccurrences(nodeIds[..i])
      invariant FirstUnknown(nodeIds[i..], flowNodeSet) == FirstUnknown(nodeIds, flowNodeSet)
    {
      var nodeId := nodeIds[i];
      assert nodeIds[i..][1..] == nodeIds[i + 1..];
      assert nodeIds[..i + 1] == nodeIds[..i] + [nodeId];
      ElementsAppend(nodeIds[..i], nodeId);
      FirstOccurrencesStep(nodeIds, i);
      if nodeId !in flowNodeSet {
        return seeds, UnknownNode(nodeId);
      }
      if nodeId in seen {
        continue;
      }
      seen := seen + {nodeId};
      seeds := seeds + [nodeId];
    }
    assert nodeIds[..|nodeIds|] == nodeIds;
    return seeds, Done([]);
  }

  lemma ElementsAppend(ids: seq<string>, id: string)
    ensures Elements(ids + [id]) == Elements(ids) + {id}
  {
    assert forall x :: x in ids + [id] <==> x in ids || x == id;
  }

  function ResolveLayoutScope(scope: Scope, hasSeedNodeIds: bool): Scope {
    if scope == Unspecified then (if hasSeedNodeIds then ConnectedComponent else FullCanvas) else scope
  }

  /** The IDs of the nodes to lay out, or why there are none. */
  ghost function ScopedIds(nodes: seq<Node>, edges: seq<Edge>, config: Config): (seq<string>, Outcome) {
    var flow := FlowIds(nodes);
    var unknown := FirstUnknown(config.nodeIds, Elements(flow));
    if flow == [] then ([], Done(nodes))
    else if !unknown.Done? then ([], unknown)
    else match ResolveLayoutScope(config.scope, config.nodeIds != [])
      case FullCanvas => (flow, Done(nodes))
      case ConnectedComponent => (ScopeOfSeeds(config.nodeIds, flow, edges), Done(nodes))
      case OtherScope(name) => ([], UnsupportedScope(name))
      case Unspecified => ([], Done(nodes))
  }

  method ResolveScopedNodeIds(flowNodeIds: seq<string>, edges: seq<Edge>, config: Config, ghost nodes: seq<Node>)
    returns (scoped: seq<string>, failure: Outcome)
    requires FlowIds(nodes) == flowNodeIds && flowNodeIds != []
    ensures ScopedIds(nodes, edges, config) == (scoped, if failure.Done? then Done(nodes) else failure)
  {
    var seeds, unknown := ResolveLayoutSeedNodeIds(config.nodeIds, Elements(flowNodeIds));
    if !unknown.Done? {
      return [], unknown;
    }
    assert seeds == [] <==> config.nodeIds == [] by {
      assert |seeds| > 0 ==> seeds[0] in Elements(seeds);
      assert |config.nodeIds| > 0 ==> config.nodeIds[0] in Elements(config.nodeIds);
    }
    match ResolveLayoutScope(config.scope, |seeds| > 0)
    case FullCanvas =>
      return flowNodeIds, Done([]);
    case ConnectedComponent =>
      scoped := ResolveConnectedComponentNodeIds(seeds, flowNodeIds, edges);
      return scoped, Done([]);
    case OtherScope(name) =>
      return [], UnsupportedScope(name);
    case Unspecified =>
      assert false;
      return [], Done([]);
  }

  lemma ScopedFacts(nodes: seq<Node>, edges: seq<Edge>, config: Config)
    ensures forall id :: id in ScopedIds(nodes, edges, config).0 ==> id != "" && id in NodeIds(nodes)
  {
  }

  // ----- the pipeline -----

  ghost function CurrentPositions(nodes: seq<Node>, ids: set<string>): (p: Positions)
    requires ids <= NodeIds(nodes)
    ensures p.Keys == ids
  {
    map id | id in ids :: NodesById(nodes)[id].position
  }

  /** The nodes with the new positions; a repeated ID moves only the last node that has it. */
  function ApplyPositions(nodes: seq<Node>, positions: Positions): (r: seq<Node>)
    ensures |r| == |nodes|
  {
    seq(|nodes|, i requires 0 <= i < |nodes| =>
      if nodes[i].id in positions && IsLast(nodes, i) then nodes[i].(position := positions[nodes[i].id]) else nodes[i])
  }

  method ApplyTo(positions: LayoutPositions, nodes: seq<Node>, index: map<string, nat>) returns (updated: seq<Node>)
    requires IndexesLast(index, nodes) && "" !in positions.byNodeId
    ensures updated == ApplyPositions(nodes, positions.byNodeId)
  {
    updated := nodes;
    var rest := positions.byNodeId.Keys;
    while rest != {}
      invariant rest <= positions.byNodeId.Keys
      invariant updated == ApplyPositions(nodes, Restrict(positions.byNodeId, positions.byNodeId.Keys - rest))
      decreases rest
    {
      var nodeId :| nodeId in rest;
      ghost var before := Restrict(positions.byNodeId, positions.byNodeId.Keys - rest);
      rest := rest - {nodeId};
      ghost var after := Restrict(positions.byNodeId, positions.byNodeId.Keys - rest);
      assert after == before[nodeId := positions.byNodeId[nodeId]];
      ApplyOneMore(nodes, before, nodeId, positions.byNodeId[nodeId]);
      if nodeId !in index {
        continue;
      }
      updated := updated[index[nodeId] := updated[index[nodeId]].(position := positions.byNodeId[nodeId])];
    }
    assert Restrict(positions.byNodeId, positions.byNodeId.Keys - rest) == positions.byNodeId;
  }

  lemma ApplyOneMore(nodes: seq<Node>, p: Positions, id: string, v: Position)
    requires id !in p
    ensures id !in NodeIds(nodes) ==> ApplyPositions(nodes, p[id := v]) == ApplyPositions(nodes, p)
    ensures forall i :: 0 <= i < |nodes| && nodes[i].id == id && IsLast(nodes, i) ==>
              ApplyPositions(nodes, p[id := v]) == ApplyPositions(nodes, p)[i := nodes[i].(position := v)]
              && ApplyPositions(nodes, p)[i] == nodes[i]
  {
    if id !in NodeIds(nodes) {
      assert forall i :: 0 <= i < |nodes| ==> nodes[i] in nodes && nodes[i].id in NodeIds(nodes);
    }
    forall i | 0 <= i < |nodes| && nodes[i].id == id && IsLast(nodes, i)
      ensures ApplyPositions(nodes, p[id := v]) == ApplyPositions(nodes, p)[i := nodes[i].(position := v)]
    {
      forall j | 0 <= j < |nodes| && j != i && nodes[j].id == id ensures !IsLast(nodes, j) {
      }
    }
  }

  ghost function LayeredLayout(nodes: seq<Node>, edges: seq<Edge>, config: Config, o: Orientation, engine: Engine): Outcome {
    var (scoped, outcome) := ScopedIds(nodes, edges, config);
    if scoped == [] then outcome
    else
      ScopedFacts(nodes, edges, config);
      var ids := Elements(scoped);
      Done(ApplyPositions(nodes, LayoutMap(scoped, Within(edges, ids), CurrentPositions(nodes, ids), o, engine)))
  }

  lemma IdSeqAppend(nodes: seq<Node>, n: Node)
    ensures IdSeq(nodes + [n]) == IdSeq(nodes) + [n.id]
  {
  }

  lemma IdSeqPrefix(ids: seq<string>, i: nat)
    requires i < |ids|
    ensures ids[..i + 1] == ids[..i] + [ids[i]]
  {
  }

  method ResolveLayoutNodes(nodes: seq<Node>, index: map<string, nat>, scoped: seq<string>) returns (r: seq<Node>)
    requires IndexesLast(index, nodes)
    requires forall id :: id in scoped ==> id in index
    ensures IdSeq(r) == scoped
    ensures forall n :: n in r ==> n.id in NodesById(nodes) && n == NodesById(nodes)[n.id]
  {
    r := [];
    for i := 0 to |scoped|
      invariant IdSeq(r) == scoped[..i]
      invariant forall n :: n in r ==> n.id in NodesById(nodes) && n == NodesById(nodes)[n.id]
    {
      assert scoped[i] in scoped;
      NodesByIdIsLast(nodes, index[scoped[i]]);
      IdSeqAppend(r, nodes[index[scoped[i]]]);
      IdSeqPrefix(scoped, i);
      r := r + [nodes[index[scoped[i]]]];
    }
    assert scoped[..|scoped|] == scoped;
  }

  method ApplyLayeredLayout(nodes: seq<Node>, edges: seq<Edge>, config: Config, o: Orientation, engine: Engine)
    returns (outcome: Outcome)
    requires PlacesOnlyEndpoints(engine)
    ensures outcome == LayeredLayout(nodes, edges, config, o, engine)
  {
    if |nodes| == 0 {
      return Done(nodes);
    }
    var index, flowNodeIds := IndexNodes(nodes);
    if |flowNodeIds| == 0 {
      return Done(nodes);
    }
    var scoped, failure := ResolveScopedNodeIds(flowNodeIds, edges, config, nodes);
    if !failure.Done? {
      return failure;
    }
    if |scoped| == 0 {
      return Done(nodes);
    }
    ScopedFacts(nodes, edges, config);
    var updated := LayOutScoped(nodes, edges, index, scoped, o, engine);
    return Done(updated);
  }

  /** Lays out the nodes in scope and gives them their new positions. */
  method LayOutScoped(nodes: seq<Node>, edges: seq<Edge>, index: map<string, nat>, scoped: seq<string>, o: Orientation,
                      engine: Engine)
    returns (updated: seq<Node>)
    requires PlacesOnlyEndpoints(engine) && IndexesLast(index, nodes) && scoped != []
    requires forall id :: id in scoped ==> id != "" && id in NodeIds(nodes)
    ensures updated
            == ApplyPositions(nodes, LayoutMap(scoped, Within(edges, Elements(scoped)),
                                               CurrentPositions(nodes, Elements(scoped)), o, engine))
  {
    var layoutNodes := ResolveLayoutNodes(nodes, index, scoped);
    ghost var pos := CurrentPositions(nodes, Elements(scoped));
    ElementsOfIdSeq(layoutNodes);
    var positions := LayOut(layoutNodes, edges, o, engine, pos);
    updated := ApplyTo(positions, nodes, index);
  }

  /** The pipeline on the nodes to lay out, up to the packing. */
  method PlaceAndPack(layoutNodes: seq<Node>, edges: seq<Edge>, o: Orientation, engine: Engine, ghost pos: Positions)
    returns (positions: LayoutPositions)
    requires PlacesOnlyEndpoints(engine)
    requires StandAt(layoutNodes, pos) && pos.Keys == NodeIds(layoutNodes) == Elements(IdSeq(layoutNodes))
    ensures positions.byNodeId
         == Arranged(PlacedParts(IdSeq(layoutNodes), Within(edges, pos.Keys), pos, o, engine), o)
    ensures fresh(positions)
  {
    var layoutEdges := ResolveLayoutEdges(edges, NodeIds(layoutNodes));
    WithinAll(layoutEdges, NodeIds(layoutNodes));
    var forwardEdges := ResolveForwardLayoutEdges(layoutNodes, layoutEdges);
    var components := ResolveDisconnectedLayoutComponents(layoutNodes, layoutEdges);
    forall c | c in components ensures DistinctIds(c) && StandAt(c, pos) && NodeIds(c) <= pos.Keys {
      ComponentStands(c, layoutNodes, pos);
    }
    var sorted := SortComponentsByCurrentPosition(components, o, pos);
    positions := ResolvePackedLayoutedPositions(sorted, forwardEdges, o, engine, pos);
    SortedPartsFacts(IdSeq(layoutNodes), layoutEdges, pos, o);
    PlacedPartsAre(IdSeq(layoutNodes), layoutEdges, pos, o, engine, IdSets(sorted));
  }

  /** The pipeline on the nodes to lay out. */
  method LayOut(layoutNodes: seq<Node>, edges: seq<Edge>, o: Orientation, engine: Engine, ghost pos: Positions)
    returns (positions: LayoutPositions)
    requires PlacesOnlyEndpoints(engine) && layoutNodes != []
    requires StandAt(layoutNodes, pos) && pos.Keys == NodeIds(layoutNodes) == Elements(IdSeq(layoutNodes))
    ensures positions.byNodeId == LayoutMap(IdSeq(layoutNodes), Within(edges, pos.Keys), pos, o, engine)
    ensures positions.byNodeId.Keys == pos.Keys
  {
    positions := PlaceAndPack(layoutNodes, edges, o, engine, pos);
    ghost var arranged := positions.byNodeId;
    CornerStays(IdSeq(layoutNodes), Within(edges, pos.Keys), pos, o, engine);
    var minCurrent := ResolveMinPositionFromNodes(layoutNodes);
    MinPositionIsCorner(layoutNodes, pos);
    SameOnKeys(pos, pos);
    var minLayout := positions.MinPosition();
    var dx, dy := minCurrent.x - minLayout.x, minCurrent.y - minLayout.y;
    positions.ApplyOffset(Position(dx, dy));
    AnchoredIsShift(arranged, Corner(pos), dx, dy);
  }

  lemma PlacedPartsAre(order: seq<string>, edges: seq<Edge>, pos: Positions, o: Orientation, engine: Engine,
                       sorted: seq<set<string>>)
    requires pos.Keys == Elements(order)
    requires sorted == SortedParts(Components(order, pos.Keys, edges), pos, o)
    requires forall c :: c in sorted ==> c <= pos.Keys
    ensures PlacedParts(order, edges, pos, o, engine) == PartPositions(sorted, Forward(edges), pos, o, engine)
  {
  }

  lemma ComponentStands(c: seq<Node>, layoutNodes: seq<Node>, pos: Positions)
    requires ListsNodesOnce(c, NodesById(layoutNodes)) && StandAt(layoutNodes, pos)
    requires pos.Keys == NodeIds(layoutNodes)
    ensures DistinctIds(c) && StandAt(c, pos) && NodeIds(c) <= pos.Keys
  {
  }

  // ----- what a layout guarantees -----

  lemma {:induction false} SameIdsSameFlow(a: seq<Node>, b: seq<Node>)
    requires |a| == |b| && forall i :: 0 <= i < |a| ==> a[i].id == b[i].id
    ensures FlowIds(a) == FlowIds(b) && NodeIds(a) == NodeIds(b)
  {
    if a != [] {
      var n := |a| - 1;
      SameIdsSameFlow(a[..n], b[..n]);
      NodeIdsAppend(a[..n], a[n]);
      NodeIdsAppend(b[..n], b[n]);
      assert a == a[..n] + [a[n]] && b == b[..n] + [b[n]];
    }
  }

  lemma AppliedPositionsAreCurrent(nodes: seq<Node>, p: Positions)
    requires p.Keys <= NodeIds(nodes)
    ensures NodeIds(ApplyPositions(nodes, p)) == NodeIds(nodes)
    ensures CurrentPositions(ApplyPositions(nodes, p), p.Keys) == p
    ensures ApplyPositions(ApplyPositions(nodes, p), p) == ApplyPositions(nodes, p)
  {
    var next := ApplyPositions(nodes, p);
    SameIdsSameFlow(nodes, next);
    forall id | id in p ensures NodesById(next)[id].position == p[id] {
      var i := SomeLast(nodes, id);
      assert IsLast(next, i);
      NodesByIdIsLast(next, i);
    }
    forall i | 0 <= i < |nodes| ensures ApplyPositions(next, p)[i] == next[i] {
      assert IsLast(next, i) <==> IsLast(nodes, i);
    }
  }

  /** Laying out an already laid-out canvas changes nothing, whatever the graph, scope and orientation. */
  lemma LayoutIsIdempotent(nodes: seq<Node>, edges: seq<Edge>, config: Config, o: Orientation, engine: Engine)
    requires PlacesOnlyEndpoints(engine)
    ensures var first := LayeredLayout(nodes, edges, config, o, engine);
      first.Done? ==> LayeredLayout(first.nodes, edges, config, o, engine) == first
  {
    var first := LayeredLayout(nodes, edges, config, o, engine);
    var (scoped, outcome) := ScopedIds(nodes, edges, config);
    ScopedFacts(nodes, edges, config);
    if first.Done? && scoped != [] {
      var ids := Elements(scoped);
      var inner := Within(edges, ids);
      var pos := CurrentPositions(nodes, ids);
      var next := LayoutMap(scoped, inner, pos, o, engine);
      LayoutMapIdempotent(scoped, inner, pos, next, o, engine);
      AppliedPositionsAreCurrent(nodes, next);
      SameIdsSameFlow(nodes, first.nodes);
      assert ScopedIds(first.nodes, edges, config).0 == scoped;
    }
  }

  /** Only the positions of scoped nodes change; IDs, kinds and order never do. */
  lemma LayoutTouchesOnlyScopedPositions(nodes: seq<Node>, edges: seq<Edge>, config: Config, o: Orientation,
                                         engine: Engine, i: nat)
    requires PlacesOnlyEndpoints(engine) && LayeredLayout(nodes, edges, config, o, engine).Done?
    requires i < |nodes|
    ensures var after := LayeredLayout(nodes, edges, config, o, engine).nodes;
      && |after| == |nodes|
      && after[i] == nodes[i].(position := after[i].position)
      && (nodes[i].id !in ScopedIds(nodes, edges, config).0 ==> after[i] == nodes[i])
      && (nodes[i].id == "" ==> after[i] == nodes[i])
      && ((exists j :: i < j < |nodes| && nodes[j].id == nodes[i].id) ==> after[i] == nodes[i])
  {
    var (scoped, outcome) := ScopedIds(nodes, edges, config);
    ScopedFacts(nodes, edges, config);
    if scoped != [] {
      var ids := Elements(scoped);
      CornerStays(scoped, Within(edges, ids), CurrentPositions(nodes, ids), o, engine);
    }
  }

  /** The laid-out nodes keep their minimum X and their minimum Y. */
  lemma LayoutKeepsCorner(nodes: seq<Node>, edges: seq<Edge>, config: Config, o: Orientation, engine: Engine)
    requires PlacesOnlyEndpoints(engine) && LayeredLayout(nodes, edges, config, o, engine).Done?
    ensures var after := LayeredLayout(nodes, edges, config, o, engine).nodes;
      var ids := Elements(ScopedIds(nodes, edges, config).0);
      && ids <= NodeIds(nodes) && ids <= NodeIds(after)
      && Corner(CurrentPositions(after, ids)) == Corner(CurrentPositions(nodes, ids))
  {
    var (scoped, outcome) := ScopedIds(nodes, edges, config);
    ScopedFacts(nodes, edges, config);
    if scoped != [] {
      var ids := Elements(scoped);
      var inner := Within(edges, ids);
      var pos := CurrentPositions(nodes, ids);
      CornerStays(scoped, inner, pos, o, engine);
      AppliedPositionsAreCurrent(nodes, LayoutMap(scoped, inner, pos, o, engine));
    }
  }

  ghost predicate Apart(u: Position, v: Position, o: Orientation) {
    if o == Vertical then
      v.x - (u.x + NODE_WIDTH) >= HORIZONTAL_PACK_GAP || u.x - (v.x + NODE_WIDTH) >= HORIZONTAL_PACK_GAP
    else
      v.y - (u.y + NODE_HEIGHT) >= VERTICAL_PACK_GAP || u.y - (v.y + NODE_HEIGHT) >= VERTICAL_PACK_GAP
  }

  /** The boxes of laid-out nodes that no undirected path joins are at least the packing gap apart, whatever
      the engine answers. */
  lemma LayoutSeparatesComponents(nodes: seq<Node>, edges: seq<Edge>, config: Config, o: Orientation, engine: Engine,
                                  u: string, v: string)
    requires PlacesOnlyEndpoints(engine) && LayeredLayout(nodes, edges, config, o, engine).Done?
    requires var scoped := ScopedIds(nodes, edges, config).0;
      u in scoped && v in scoped && !Connected(Within(edges, Elements(scoped)), u, v)
    ensures var after := LayeredLayout(nodes, edges, config, o, engine).nodes;
      && u in NodesById(after) && v in NodesById(after)
      && Apart(NodesById(after)[u].position, NodesById(after)[v].position, o)
  {
    var (scoped, outcome) := ScopedIds(nodes, edges, config);
    ScopedFacts(nodes, edges, config);
    var ids := Elements(scoped);
    var inner := Within(edges, ids);
    var pos := CurrentPositions(nodes, ids);
    var next := LayoutMap(scoped, inner, pos, o, engine);
    CornerStays(scoped, inner, pos, o, engine);
    UnconnectedApart(scoped, inner, pos, o, engine, u, v);
    AppliedPositionsAreCurrent(nodes, next);
    var after := LayeredLayout(nodes, edges, config, o, engine).nodes;
    assert CurrentPositions(after, next.Keys)[u] == next[u] && CurrentPositions(after, next.Keys)[v] == next[v];
  }

  lemma UnconnectedApart(order: seq<string>, edges: seq<Edge>, pos: Positions, o: Orientation, engine: Engine,
                         u: string, v: string)
    requires pos.Keys == Elements(order) && PlacesOnlyEndpoints(engine)
    requires u in order && v in order && !Connected(edges, u, v)
    ensures var next := LayoutMap(order, edges, pos, o, engine);
      u in next && v in next && Apart(next[u], next[v], o)
  {
    var comps := Components(order, Elements(order), edges);
    var sorted := SortedParts(comps, pos, o);
    var parts := PlacedParts(order, edges, pos, o, engine);
    SortedPartsFacts(order, edges, pos, o);
    PlacedPartsFacts(order, edges, pos, o, engine);
    var i := PartOf(order, edges, sorted, u);
    var j := PartOf(order, edges, sorted, v);
    SameComponentIffConnected(order, edges, u, v);
    assert sorted[i] in comps;
    PartsApart(parts, o, Corner(pos), i, j, u, v);
  }

  lemma PartOf(order: seq<string>, edges: seq<Edge>, sorted: seq<set<string>>, u: string) returns (i: nat)
    requires u in order
    requires forall c :: c in sorted <==> c in Components(order, Elements(order), edges)
    ensures i < |sorted| && u in sorted[i]
  {
    ReachesSelf(Links(edges), u);
    SameComponentIffConnected(order, edges, u, u);
    var c :| c in Components(order, Elements(order), edges) && u in c;
    assert c in sorted;
    i :| 0 <= i < |sorted| && sorted[i] == c;
  }

  lemma PartsApart(parts: seq<Positions>, o: Orientation, corner: Position, i: nat, j: nat, u: string, v: string)
    requires DisjointParts(parts) && i < |parts| && j < |parts| && i != j && u in parts[i] && v in parts[j]
    ensures var next := Anchored(Arranged(parts, o), corner);
      u in next && v in next && Apart(next[u], next[v], o)
  {
    if i < j {
      PackedApart(parts, o, i, j, u, v);
    } else {
      PackedApart(parts, o, j, i, v, u);
    }
  }
}
