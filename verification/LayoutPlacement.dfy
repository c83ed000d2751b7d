/** How one component is placed: by the layered-layout engine where it answers, in a column otherwise. */
module LayoutPlacement {
  import opened LayoutGraph
  import opened LayoutComponents
  import opened LayoutGeometry
  import opened Sorting

  /** The layered-layout engine with its rounding: edges and orientation in, positions out. */
  type Engine = (seq<(string, string)>, Orientation) -> Positions

  ghost predicate PlacesOnlyEndpoints(engine: Engine) {
    forall es: seq<(string, string)>, o, k :: k in engine(es, o) ==> exists e :: e in es && (e.0 == k || e.1 == k)
  }

  function EdgeKey(e: Edge): string {
    e.source + "->" + e.target
  }

  /** The edges handed to the engine: the first of those that share a key. */
  function EngineEdges(edges: seq<Edge>): (r: seq<(string, string)>)
    ensures forall p :: p in r ==> exists e :: e in edges && p == (e.source, e.target)
    ensures edges != [] ==> r != []
  {
    if edges == [] then []
    else
      var front, e := edges[..|edges| - 1], edges[|edges| - 1];
      assert edges == front + [e];
      var rest := EngineEdges(front);
      if exists f :: f in front && EdgeKey(f) == EdgeKey(e) then rest else rest + [(e.source, e.target)]
  }

  ghost function EdgeKeys(edges: seq<Edge>): set<string> {
    set e | e in edges :: EdgeKey(e)
  }

  lemma OneMoreEngineEdge(edges: seq<Edge>, i: nat)
    requires i < |edges|
    ensures EdgeKeys(edges[..i + 1]) == EdgeKeys(edges[..i]) + {EdgeKey(edges[i])}
    ensures EngineEdges(edges[..i + 1])
            == if EdgeKey(edges[i]) in EdgeKeys(edges[..i]) then EngineEdges(edges[..i])
               else EngineEdges(edges[..i]) + [(edges[i].source, edges[i].target)]
  {
    assert edges[..i + 1] == edges[..i] + [edges[i]];
    assert edges[..i + 1][..i] == edges[..i];
  }

  method CollectEngineEdges(edges: seq<Edge>) returns (r: seq<(string, string)>)
    ensures r == EngineEdges(edges)
  {
    r := [];
    var seen: set<string> := {};
    for i := 0 to |edges|
      invariant r == EngineEdges(edges[..i])
      invariant seen == EdgeKeys(edges[..i])
    {
      var e := edges[i];
      var key := EdgeKey(e);
      OneMoreEngineEdge(edges, i);
      if key in seen {
        continue;
      }
      seen := seen + {key};
      r := r + [(e.source, e.target)];
    }
    assert edges[..|edges|] == edges;
  }

  // ----- the fallback column -----

  /** The order of the fallback column: by Y, then X, then ID. */
  predicate PlaceBefore(p: Position, u: string, q: Position, v: string) {
    if p.y != q.y then p.y < q.y
    else if p.x != q.x then p.x < q.x
    else NameLess(u, v)
  }

  predicate NodeBefore(a: Node, b: Node) {
    PlaceBefore(a.position, a.id, b.position, b.id)
  }

  lemma PlaceBeforeIrreflexive(p: Position, u: string)
    ensures !PlaceBefore(p, u, p, u)
  {
    NameLessIrreflexive(u);
  }

  lemma PlaceBeforeTransitive(p: Position, u: string, q: Position, v: string, r: Position, w: string)
    requires PlaceBefore(p, u, q, v) && PlaceBefore(q, v, r, w)
    ensures PlaceBefore(p, u, r, w)
  {
    if p == q && q == r {
      NameLessTransitive(u, v, w);
    }
  }

  lemma PlaceBeforeTotal(p: Position, u: string, q: Position, v: string)
    requires u != v
    ensures PlaceBefore(p, u, q, v) || PlaceBefore(q, v, p, u)
  {
    NameLessTotal(u, v);
  }

  /** The members of m that come before v. */
  ghost function Earlier(v: string, m: set<string>, pos: Positions): set<string>
    requires v in pos && m <= pos.Keys
  {
    set u | u in m && PlaceBefore(pos[u], u, pos[v], v)
  }

  ghost function Rank(v: string, m: set<string>, pos: Positions): nat
    requires v in pos && m <= pos.Keys
  {
    |Earlier(v, m, pos)|
  }

  ghost function Ranks(m: set<string>, pos: Positions): (r: map<string, nat>)
    requires m <= pos.Keys
    ensures r.Keys == m
  {
    map v | v in m :: Rank(v, m, pos)
  }

  /** One below the other, in the order of their ranks. */
  ghost function Column(ranks: map<string, nat>, startY: int): (c: Positions)
    ensures c.Keys == ranks.Keys
  {
    map v | v in ranks :: Position(0, startY + COLUMN_SPACING * ranks[v])
  }

  lemma SmallerSet(a: set<string>, b: set<string>)
    requires a < b
    ensures |a| < |b|
  {
    assert b == a + (b - a);
    assert b - a != {};
  }

  lemma RankMonotone(u: string, v: string, m: set<string>, pos: Positions)
    requires m <= pos.Keys && u in m && v in m && PlaceBefore(pos[u], u, pos[v], v)
    ensures Rank(u, m, pos) < Rank(v, m, pos)
  {
    forall w | w in Earlier(u, m, pos) ensures w in Earlier(v, m, pos) {
      PlaceBeforeTransitive(pos[w], w, pos[u], u, pos[v], v);
    }
    PlaceBeforeIrreflexive(pos[u], u);
    assert u in Earlier(v, m, pos) && u !in Earlier(u, m, pos);
    SmallerSet(Earlier(u, m, pos), Earlier(v, m, pos));
  }

  lemma RankOrders(u: string, v: string, m: set<string>, pos: Positions)
    requires m <= pos.Keys && u in m && v in m
    ensures PlaceBefore(pos[u], u, pos[v], v) <==> Rank(u, m, pos) < Rank(v, m, pos)
  {
    if PlaceBefore(pos[u], u, pos[v], v) {
      RankMonotone(u, v, m, pos);
    } else if u != v {
      PlaceBeforeTotal(pos[u], u, pos[v], v);
      RankMonotone(v, u, m, pos);
    }
  }

  /** A column sorts back into itself: ranks read off a column, wherever it is moved, are the ranks it was
      built with. */
  lemma ColumnKeepsRanks(m: set<string>, pos: Positions, pos': Positions, x: int, y: int)
    requires m <= pos.Keys && m <= pos'.Keys
    requires forall v :: v in m ==> pos'[v] == Position(x, y + COLUMN_SPACING * Ranks(m, pos)[v])
    ensures Ranks(m, pos') == Ranks(m, pos)
  {
    forall v | v in m ensures Ranks(m, pos')[v] == Ranks(m, pos)[v] {
      RankKept(v, m, pos, pos', x, y);
    }
  }

  lemma RankKept(v: string, m: set<string>, pos: Positions, pos': Positions, x: int, y: int)
    requires m <= pos.Keys && m <= pos'.Keys && v in m
    requires forall u :: u in m ==> pos'[u] == Position(x, y + COLUMN_SPACING * Ranks(m, pos)[u])
    ensures Rank(v, m, pos') == Rank(v, m, pos)
  {
    forall u | u in m
      ensures PlaceBefore(pos'[u], u, pos'[v], v) <==> PlaceBefore(pos[u], u, pos[v], v)
    {
      RankOrders(u, v, m, pos);
      if Rank(u, m, pos) == Rank(v, m, pos) {
        SameRankSameNode(u, v, m, pos);
        PlaceBeforeIrreflexive(pos[u], u);
        PlaceBeforeIrreflexive(pos'[u], u);
      }
    }
    assert Earlier(v, m, pos') == Earlier(v, m, pos);
  }

  lemma SameRankSameNode(u: string, v: string, m: set<string>, pos: Positions)
    requires m <= pos.Keys && u in m && v in m && Rank(u, m, pos) == Rank(v, m, pos)
    ensures u == v
  {
    RankOrders(u, v, m, pos);
    RankOrders(v, u, m, pos);
    if u != v {
      PlaceBeforeTotal(pos[u], u, pos[v], v);
    }
  }

  lemma NewId(nodes: seq<Node>, n: nat)
    requires DistinctIds(nodes) && |nodes| == n + 1
    ensures nodes[n].id !in NodeIds(nodes[..n]) && DistinctIds(nodes[..n])
    ensures NodeIds(nodes) == NodeIds(nodes[..n]) + {nodes[n].id}
  {
    NodeIdsAppend(nodes[..n], nodes[n]);
    assert nodes == nodes[..n] + [nodes[n]];
  }

  lemma {:induction false} DistinctCount(nodes: seq<Node>)
    requires DistinctIds(nodes)
    ensures |NodeIds(nodes)| == |nodes|
  {
    if nodes == [] {
      assert NodeIds(nodes) == {};
    } else {
      var n := |nodes| - 1;
      NewId(nodes, n);
      DistinctCount(nodes[..n]);
    }
  }

  /** In a sorted list the index of a node is its rank. */
  lemma SortedIndexIsRank(sorted: seq<Node>, pos: Positions, i: nat)
    requires DistinctIds(sorted) && StandAt(sorted, pos) && i < |sorted|
    requires Ordered(sorted, NodeBefore)
    ensures NodeIds(sorted) <= pos.Keys && sorted[i] in sorted
    ensures Rank(sorted[i].id, NodeIds(sorted), pos) == i
  {
    var v := sorted[i];
    var m := NodeIds(sorted);
    assert v in sorted;
    assert Earlier(v.id, m, pos) == NodeIds(sorted[..i]) by {
      forall j | 0 <= j < |sorted| ensures PlaceBefore(pos[sorted[j].id], sorted[j].id, pos[v.id], v.id) <==> j < i {
        assert sorted[j] in sorted;
        if j < i {
          assert !NodeBefore(v, sorted[j]);
          PlaceBeforeTotal(v.position, v.id, sorted[j].position, sorted[j].id);
        } else if j > i {
          assert !NodeBefore(sorted[j], v);
        } else {
          PlaceBeforeIrreflexive(v.position, v.id);
        }
      }
      forall u | u in m ensures u in Earlier(v.id, m, pos) <==> u in NodeIds(sorted[..i]) {
        var n :| n in sorted && n.id == u;
        var j :| 0 <= j < |sorted| && sorted[j] == n;
        if j < i {
          assert sorted[..i][j] == n;
        }
        if u in NodeIds(sorted[..i]) {
          var n' :| n' in sorted[..i] && n'.id == u;
          var j' :| 0 <= j' < i && sorted[j'] == n';
        }
      }
      assert NodeIds(sorted[..i]) <= m;
    }
    DistinctCount(sorted[..i]);
  }

  lemma SortedNodes(nodes: seq<Node>)
    requires DistinctIds(nodes)
    ensures var sorted := StableSort(nodes, NodeBefore);
      && |sorted| == |nodes| && (forall n :: n in sorted <==> n in nodes)
      && NodeIds(sorted) == NodeIds(nodes) && DistinctIds(sorted) && Ordered(sorted, NodeBefore)
  {
    var sorted := StableSort(nodes, NodeBefore);
    StableSortMembers(nodes, NodeBefore);
    NodeOrder(set n | n in nodes);
    StableSortOrders((set n | n in nodes), nodes, NodeBefore);
    assert NodeIds(sorted) == NodeIds(nodes);
    DistinctCount(nodes);
    CountDistinct(sorted);
  }

  lemma NodeOrder(nodes: set<Node>)
    ensures StrictWeakOrder(nodes, NodeBefore)
  {
    forall a | a in nodes ensures !NodeBefore(a, a) {
      PlaceBeforeIrreflexive(a.position, a.id);
    }
    forall a, b, c | a in nodes && b in nodes && c in nodes && NodeBefore(a, b) && NodeBefore(b, c)
      ensures NodeBefore(a, c)
    {
      PlaceBeforeTransitive(a.position, a.id, b.position, b.id, c.position, c.id);
    }
    forall a, b, c | a in nodes && b in nodes && c in nodes && NodeBefore(a, c)
      ensures NodeBefore(a, b) || NodeBefore(b, c)
    {
      if a.id != b.id {
        PlaceBeforeTotal(a.position, a.id, b.position, b.id);
        if NodeBefore(b, a) {
          PlaceBeforeTransitive(b.position, b.id, a.position, a.id, c.position, c.id);
        }
      }
    }
  }

  lemma CountDistinct(nodes: seq<Node>)
    requires |NodeIds(nodes)| == |nodes|
    ensures DistinctIds(nodes)
  {
    if nodes != [] {
      var n := |nodes| - 1;
      NodeIdsAppend(nodes[..n], nodes[n]);
      assert nodes == nodes[..n] + [nodes[n]];
      CountAtMost(nodes[..n]);
      CountDistinct(nodes[..n]);
      forall i | 0 <= i < n ensures nodes[i].id != nodes[n].id {
        assert nodes[..n][i] == nodes[i] && nodes[i].id in NodeIds(nodes[..n]);
      }
    }
  }

  lemma CountAtMost(nodes: seq<Node>)
    ensures |NodeIds(nodes)| <= |nodes|
  {
    if nodes != [] {
      var n := |nodes| - 1;
      NodeIdsAppend(nodes[..n], nodes[n]);
      assert nodes == nodes[..n] + [nodes[n]];
      CountAtMost(nodes[..n]);
    } else {
      assert NodeIds(nodes) == {};
    }
  }

  // ----- one component -----

  ghost function Placed(edges: seq<Edge>, o: Orientation, engine: Engine): Positions {
    if edges == [] then map[] else engine(EngineEdges(edges), o)
  }

  ghost function ColumnStart(placed: Positions): int {
    if placed == map[] then 0
    else
      XsNotEmpty(placed);
      MaxOf(Ys(placed)) + COLUMN_SPACING
  }

  /** Where a component ends up before packing: the engine's positions, and below them the nodes it does
      not mention, in a column. */
  ghost function ComponentPositions(ids: set<string>, edges: seq<Edge>, pos: Positions, o: Orientation, engine: Engine)
    : Positions
    requires ids <= pos.Keys
  {
    var placed := Placed(edges, o, engine);
    placed + Column(Ranks(ids - placed.Keys, pos), ColumnStart(placed))
  }

  lemma PlacedInside(ids: set<string>, edges: seq<Edge>, o: Orientation, engine: Engine)
    requires PlacesOnlyEndpoints(engine) && EdgesInside(edges, ids)
    ensures Placed(edges, o, engine).Keys <= ids
  {
    forall k | k in Placed(edges, o, engine) ensures k in ids {
      var p :| p in EngineEdges(edges) && (p.0 == k || p.1 == k);
      var e :| e in edges && p == (e.source, e.target);
    }
  }

  lemma ComponentPositionsCover(ids: set<string>, edges: seq<Edge>, pos: Positions, o: Orientation, engine: Engine)
    requires ids <= pos.Keys && PlacesOnlyEndpoints(engine) && EdgesInside(edges, ids)
    ensures ComponentPositions(ids, edges, pos, o, engine).Keys == ids
  {
    PlacedInside(ids, edges, o, engine);
  }

  /** Only the nodes left to the column depend on the current positions, and a column sorts back into
      itself: placing a component that already stands as placed changes nothing. */
  lemma ComponentPositionsStable(ids: set<string>, edges: seq<Edge>, pos: Positions, pos': Positions,
                                 o: Orientation, engine: Engine, dx: int, dy: int)
    requires ids <= pos.Keys && ids <= pos'.Keys && PlacesOnlyEndpoints(engine) && EdgesInside(edges, ids)
    requires Restrict(pos', ids) == Shift(ComponentPositions(ids, edges, pos, o, engine), dx, dy)
    ensures ComponentPositions(ids, edges, pos', o, engine) == ComponentPositions(ids, edges, pos, o, engine)
  {
    var placed := Placed(edges, o, engine);
    PlacedInside(ids, edges, o, engine);
    var missing := ids - placed.Keys;
    var column := Column(Ranks(missing, pos), ColumnStart(placed));
    forall v | v in missing
      ensures pos'[v] == Position(dx, ColumnStart(placed) + dy + COLUMN_SPACING * Ranks(missing, pos)[v])
    {
      assert (placed + column)[v] == column[v];
      assert Restrict(pos', ids)[v] == Shift(placed + column, dx, dy)[v];
    }
    ColumnKeepsRanks(missing, pos, pos', dx, ColumnStart(placed) + dy);
  }

  /** Puts the nodes, sorted, one below the other. */
  method PlaceColumn(positions: LayoutPositions, nodes: seq<Node>, startY: int, ghost pos: Positions)
    requires DistinctIds(nodes) && StandAt(nodes, pos) && NodeIds(nodes) !! positions.byNodeId.Keys
    requires NodeIds(nodes) <= pos.Keys
    modifies positions
    ensures positions.byNodeId == old(positions.byNodeId) + Column(Ranks(NodeIds(nodes), pos), startY)
  {
    var sorted := StableSort(nodes, NodeBefore);
    SortedNodes(nodes);
    assert StandAt(sorted, pos);
    ghost var base := positions.byNodeId;
    PlacedNone(base, sorted, pos, startY);
    for i := 0 to |sorted|
      invariant positions.byNodeId == PlacedFirst(base, sorted, pos, startY, i)
    {
      PlacedOneMore(base, sorted, pos, startY, i);
      positions.byNodeId := positions.byNodeId[sorted[i].id := Position(0, startY + i * COLUMN_SPACING)];
    }
    PlacedAll(base, sorted, pos, startY);
  }

  /** The positions once the first i nodes of the column have been placed. */
  ghost function PlacedFirst(base: Positions, sorted: seq<Node>, pos: Positions, startY: int, i: nat): Positions
    requires i <= |sorted| && NodeIds(sorted) <= pos.Keys
  {
    base + Restrict(Column(Ranks(NodeIds(sorted), pos), startY), NodeIds(sorted[..i]))
  }

  lemma PlacedNone(base: Positions, sorted: seq<Node>, pos: Positions, startY: int)
    requires NodeIds(sorted) <= pos.Keys
    ensures PlacedFirst(base, sorted, pos, startY, 0) == base
  {
  }

  lemma PlacedOneMore(base: Positions, sorted: seq<Node>, pos: Positions, startY: int, i: nat)
    requires DistinctIds(sorted) && StandAt(sorted, pos) && i < |sorted| && NodeIds(sorted) <= pos.Keys
    requires Ordered(sorted, NodeBefore)
    ensures PlacedFirst(base, sorted, pos, startY, i)[sorted[i].id := Position(0, startY + i * COLUMN_SPACING)]
            == PlacedFirst(base, sorted, pos, startY, i + 1)
  {
    ColumnEntry(sorted, pos, startY, i);
    RestrictGrows(base, Column(Ranks(NodeIds(sorted), pos), startY), sorted, i);
  }

  lemma PlacedAll(base: Positions, sorted: seq<Node>, pos: Positions, startY: int)
    requires NodeIds(sorted) <= pos.Keys
    ensures PlacedFirst(base, sorted, pos, startY, |sorted|) == base + Column(Ranks(NodeIds(sorted), pos), startY)
  {
    var column := Column(Ranks(NodeIds(sorted), pos), startY);
    assert sorted[..|sorted|] == sorted;
    assert Restrict(column, NodeIds(sorted)) == column;
  }

  lemma ColumnEntry(sorted: seq<Node>, pos: Positions, startY: int, i: nat)
    requires DistinctIds(sorted) && StandAt(sorted, pos) && i < |sorted| && NodeIds(sorted) <= pos.Keys
    requires Ordered(sorted, NodeBefore)
    ensures sorted[i].id in NodeIds(sorted)
    ensures Column(Ranks(NodeIds(sorted), pos), startY)[sorted[i].id] == Position(0, startY + i * COLUMN_SPACING)
  {
    SortedIndexIsRank(sorted, pos, i);
    assert sorted[i].id in NodeIds(sorted);
    assert Ranks(NodeIds(sorted), pos)[sorted[i].id] == i;
  }

  lemma RestrictGrows(base: Positions, column: Positions, sorted: seq<Node>, i: nat)
    requires i < |sorted| && sorted[i].id in column
    ensures (base + Restrict(column, NodeIds(sorted[..i])))[sorted[i].id := column[sorted[i].id]]
         == base + Restrict(column, NodeIds(sorted[..i + 1]))
  {
    NodeIdsAppend(sorted[..i], sorted[i]);
    assert sorted[..i + 1] == sorted[..i] + [sorted[i]];
  }

  /** The nodes the engine did not place. */
  function Missing(nodes: seq<Node>, placed: Positions): (r: seq<Node>)
    ensures forall n :: n in r <==> n in nodes && n.id !in placed
  {
    if nodes == [] then []
    else
      var front, n := nodes[..|nodes| - 1], nodes[|nodes| - 1];
      assert nodes == front + [n];
      if n.id in placed then Missing(front, placed) else Missing(front, placed) + [n]
  }

  lemma MissingIds(nodes: seq<Node>, placed: Positions)
    ensures NodeIds(Missing(nodes, placed)) == NodeIds(nodes) - placed.Keys
  {
    forall id | id in NodeIds(nodes) - placed.Keys ensures id in NodeIds(Missing(nodes, placed)) {
      var n :| n in nodes && n.id == id;
      assert n in Missing(nodes, placed);
    }
  }

  lemma DistinctAppend(nodes: seq<Node>, n: Node)
    requires DistinctIds(nodes) && forall m :: m in nodes ==> m.id != n.id
    ensures DistinctIds(nodes + [n])
  {
  }

  lemma {:induction false} MissingStaysDistinct(nodes: seq<Node>, placed: Positions)
    requires DistinctIds(nodes)
    ensures DistinctIds(Missing(nodes, placed))
  {
    if nodes != [] {
      var n := |nodes| - 1;
      MissingStaysDistinct(nodes[..n], placed);
      if nodes[n].id !in placed {
        forall m | m in Missing(nodes[..n], placed) ensures m.id != nodes[n].id {
          var j :| 0 <= j < n && nodes[..n][j] == m;
        }
        DistinctAppend(Missing(nodes[..n], placed), nodes[n]);
      }
    }
  }

  lemma MissingDistinct(nodes: seq<Node>, placed: Positions)
    requires DistinctIds(nodes)
    ensures DistinctIds(Missing(nodes, placed)) && NodeIds(Missing(nodes, placed)) == NodeIds(nodes) - placed.Keys
  {
    MissingIds(nodes, placed);
    MissingStaysDistinct(nodes, placed);
  }

  method CollectMissing(nodes: seq<Node>, placed: Positions) returns (r: seq<Node>)
    ensures r == Missing(nodes, placed)
  {
    r := [];
    for i := 0 to |nodes|
      invariant r == Missing(nodes[..i], placed)
    {
      assert nodes[..i + 1][..i] == nodes[..i];
      if nodes[i].id in placed {
        continue;
      }
      r := r + [nodes[i]];
    }
    assert nodes[..|nodes|] == nodes;
  }

  method ResolveColumnStart(placed: Positions) returns (startY: int)
    ensures startY == ColumnStart(placed)
  {
    startY := 0;
    if |placed| > 0 {
      var maxY, first := 0, true;
      var rest := placed.Keys;
      while rest != {}
        invariant rest <= placed.Keys && (first <==> rest == placed.Keys)
        invariant !first ==> exists k :: k in placed && placed[k].y == maxY
        invariant forall k :: k in placed && k !in rest ==> placed[k].y <= maxY
        decreases rest
      {
        var k :| k in rest;
        rest := rest - {k};
        if first || placed[k].y > maxY {
          maxY, first := placed[k].y, false;
        }
      }
      XsNotEmpty(placed);
      assert placed.Keys != {};
      ghost var k :| k in placed && placed[k].y == maxY;
      MaxOfUnique(Ys(placed), maxY);
      startY := maxY + COLUMN_SPACING;
    }
  }

  method PlaceWithoutEdges(positions: LayoutPositions, nodes: seq<Node>, ghost pos: Positions)
    requires positions.byNodeId == map[]
    requires DistinctIds(nodes) && StandAt(nodes, pos) && NodeIds(nodes) <= pos.Keys && nodes != []
    modifies positions
    ensures positions.byNodeId == Column(Ranks(NodeIds(nodes), pos), 0)
  {
    if |nodes| == 1 {
      SingleColumn(nodes[0], pos);
      assert nodes == [nodes[0]];
      assert NodeIds(nodes) == {nodes[0].id};
      positions.byNodeId := positions.byNodeId[nodes[0].id := Position(0, 0)];
      return;
    }
    PlaceColumn(positions, nodes, 0, pos);
  }

  lemma NoIds(nodes: seq<Node>)
    ensures nodes == [] ==> NodeIds(nodes) == {}
  {
  }

  /** Adds the nodes the engine left out, below those it placed. */
  method PlaceMissing(positions: LayoutPositions, nodes: seq<Node>, ghost pos: Positions)
    requires DistinctIds(nodes) && StandAt(nodes, pos) && NodeIds(nodes) <= pos.Keys
    requires positions.byNodeId.Keys <= NodeIds(nodes)
    modifies positions
    ensures positions.byNodeId == old(positions.byNodeId)
          + Column(Ranks(NodeIds(nodes) - old(positions.byNodeId).Keys, pos), ColumnStart(old(positions.byNodeId)))
  {
    DistinctCount(nodes);
    if |positions.byNodeId| == |nodes| {
      assert |positions.byNodeId.Keys| == |NodeIds(nodes)|;
      SameSizeSubset(positions.byNodeId.Keys, NodeIds(nodes));
      return;
    }
    var missing := CollectMissing(nodes, positions.byNodeId);
    MissingDistinct(nodes, positions.byNodeId);
    NoIds(missing);
    if |missing| == 0 {
      return;
    }
    var startY := ResolveColumnStart(positions.byNodeId);
    PlaceColumn(positions, missing, startY, pos);
  }

  method ComputeAutogPositions(componentNodes: seq<Node>, componentEdges: seq<Edge>, o: Orientation, engine: Engine,
                               ghost pos: Positions)
    returns (positions: LayoutPositions)
    requires PlacesOnlyEndpoints(engine)
    requires DistinctIds(componentNodes) && StandAt(componentNodes, pos) && NodeIds(componentNodes) <= pos.Keys
    requires EdgesInside(componentEdges, NodeIds(componentNodes))
    ensures fresh(positions)
    ensures positions.byNodeId == ComponentPositions(NodeIds(componentNodes), componentEdges, pos, o, engine)
  {
    ghost var ids := NodeIds(componentNodes);
    positions := new LayoutPositions();
    assert ids - positions.byNodeId.Keys == ids;
    if |componentNodes| == 0 {
      NoEdgesWithoutNodes(componentEdges, ids);
      return;
    }
    if |componentEdges| == 0 {
      PlaceWithoutEdges(positions, componentNodes, pos);
      return;
    }
    var engineEdges := CollectEngineEdges(componentEdges);
    positions.byNodeId := engine(engineEdges, o);
    PlacedInside(ids, componentEdges, o, engine);
    PlaceMissing(positions, componentNodes, pos);
  }

  lemma NoEdgesWithoutNodes(edges: seq<Edge>, ids: set<string>)
    requires EdgesInside(edges, ids)
    ensures edges == [] || ids != {}
  {
    if edges != [] {
      assert edges[0] in edges && edges[0].source in ids;
    }
  }

  lemma SingleColumn(n: Node, pos: Positions)
    requires n.id in pos
    ensures Column(Ranks({n.id}, pos), 0) == map[n.id := Position(0, 0)]
  {
    PlaceBeforeIrreflexive(pos[n.id], n.id);
    assert Earlier(n.id, {n.id}, pos) == {};
  }

  lemma SameSizeSubset(a: set<string>, b: set<string>)
    requires a <= b && |a| == |b|
    ensures a == b
  {
    if a != b {
      SmallerSet(a, b);
    }
  }
}
