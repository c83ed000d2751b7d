/** Positions, their corner, moving them, and bounding boxes. */
module LayoutGeometry {
  import opened LayoutGraph
  import opened LayoutComponents
  import opened Sorting

  const NODE_WIDTH := 420
  const NODE_HEIGHT := 180
  const NODE_GAP := 180
  const VERTICAL_PACK_GAP := 280
  const HORIZONTAL_PACK_GAP := 100
  const COLUMN_SPACING := NODE_HEIGHT + NODE_GAP

  type Positions = map<string, Position>

  lemma EmptyIfNoMember(s: set<int>)
    ensures s == {} || exists x :: x in s
  {
    if forall x :: x !in s {
      assert s == {};
    }
  }

  ghost function MinOf(s: set<int>): (m: int)
    requires s != {}
    ensures m in s && forall x :: x in s ==> m <= x
  {
    EmptyIfNoMember(s);
    var x :| x in s;
    if s == {x} then x
    else
      var m := MinOf(s - {x});
      assert forall y :: y in s ==> y == x || y in s - {x};
      if x < m then x else m
  }

  ghost function MaxOf(s: set<int>): (m: int)
    requires s != {}
    ensures m in s && forall x :: x in s ==> x <= m
  {
    EmptyIfNoMember(s);
    var x :| x in s;
    if s == {x} then x
    else
      var m := MaxOf(s - {x});
      assert forall y :: y in s ==> y == x || y in s - {x};
      if x > m then x else m
  }

  ghost function Xs(p: Positions): set<int> {
    set k | k in p :: p[k].x
  }

  ghost function Ys(p: Positions): set<int> {
    set k | k in p :: p[k].y
  }

  lemma XsNotEmpty(p: Positions)
    requires p != map[]
    ensures Xs(p) != {} && Ys(p) != {}
  {
    assert p.Keys != {};
    var k :| k in p;
    assert p[k].x in Xs(p) && p[k].y in Ys(p);
  }

  /** The smallest X and the smallest Y, which may come from different nodes. */
  ghost function Corner(p: Positions): (c: Position)
    ensures p != map[] ==> Xs(p) != {} && Ys(p) != {} && c == Position(MinOf(Xs(p)), MinOf(Ys(p)))
  {
    if p == map[] then Position(0, 0)
    else
      XsNotEmpty(p);
      Position(MinOf(Xs(p)), MinOf(Ys(p)))
  }

  function Restrict(p: Positions, ids: set<string>): Positions {
    map k | k in p && k in ids :: p[k]
  }

  function Shift(p: Positions, dx: int, dy: int): Positions {
    map k | k in p :: Position(p[k].x + dx, p[k].y + dy)
  }

  lemma MinOfUnique(s: set<int>, m: int)
    requires m in s && forall x :: x in s ==> m <= x
    ensures MinOf(s) == m
  {
  }

  lemma MaxOfUnique(s: set<int>, m: int)
    requires m in s && forall x :: x in s ==> x <= m
    ensures MaxOf(s) == m
  {
  }

  lemma CornerCharacterized(p: Positions, c: Position, kx: string, ky: string)
    requires kx in p && ky in p && c == Position(p[kx].x, p[ky].y)
    requires forall k :: k in p ==> c.x <= p[k].x && c.y <= p[k].y
    ensures p != map[] && Corner(p) == c
  {
    assert p.Keys != {};
    assert p[kx].x in Xs(p) && p[ky].y in Ys(p);
    MinOfUnique(Xs(p), c.x);
    MinOfUnique(Ys(p), c.y);
  }

  lemma CornerAttained(p: Positions) returns (kx: string, ky: string)
    requires p != map[]
    ensures kx in p && ky in p && Corner(p) == Position(p[kx].x, p[ky].y)
    ensures forall k :: k in p ==> Corner(p).x <= p[k].x && Corner(p).y <= p[k].y
  {
    XsNotEmpty(p);
    kx :| kx in p && p[kx].x == MinOf(Xs(p));
    ky :| ky in p && p[ky].y == MinOf(Ys(p));
    forall k | k in p ensures Corner(p).x <= p[k].x && Corner(p).y <= p[k].y {
      assert p[k].x in Xs(p) && p[k].y in Ys(p);
    }
  }

  lemma ShiftMoves(p: Positions, dx: int, dy: int)
    requires p != map[]
    ensures Shift(p, dx, dy) != map[]
    ensures Corner(Shift(p, dx, dy)) == Position(Corner(p).x + dx, Corner(p).y + dy)
  {
    var kx, ky := CornerAttained(p);
    CornerCharacterized(Shift(p, dx, dy), Position(Corner(p).x + dx, Corner(p).y + dy), kx, ky);
  }

  // ----- minimum positions -----

  function Lower(a: Position, b: Position): Position {
    Position(if b.x < a.x then b.x else a.x, if b.y < a.y then b.y else a.y)
  }

  function MinPosition(nodes: seq<Node>): (m: Position)
    ensures nodes != [] ==> (exists n :: n in nodes && n.position.x == m.x) && (exists n :: n in nodes && n.position.y == m.y)
    ensures forall n :: n in nodes ==> m.x <= n.position.x && m.y <= n.position.y
  {
    if nodes == [] then Position(0, 0)
    else if |nodes| == 1 then
      assert nodes[0] in nodes && forall n :: n in nodes ==> n == nodes[0];
      nodes[0].position
    else
      var front, n := nodes[..|nodes| - 1], nodes[|nodes| - 1];
      assert nodes == front + [n] && n in nodes && forall o :: o in front ==> o in nodes;
      assert forall o :: o in nodes ==> o in front || o == n;
      Lower(MinPosition(front), n.position)
  }

  method ResolveMinPositionFromNodes(nodes: seq<Node>) returns (m: Position)
    ensures m == MinPosition(nodes)
  {
    var minX, minY, first := 0, 0, true;
    for i := 0 to |nodes|
      invariant first <==> i == 0
      invariant Position(minX, minY) == MinPosition(nodes[..i])
    {
      var node := nodes[i];
      assert nodes[..i + 1][..i] == nodes[..i];
      if first {
        minX, minY, first := node.position.x, node.position.y, false;
        continue;
      }
      if node.position.x < minX {
        minX := node.position.x;
      }
      if node.position.y < minY {
        minY := node.position.y;
      }
    }
    assert nodes[..|nodes|] == nodes;
    return Position(minX, minY);
  }

  /** The nodes stand where pos says. */
  ghost predicate StandAt(nodes: seq<Node>, pos: Positions) {
    forall n :: n in nodes ==> n.id in pos && pos[n.id] == n.position
  }

  lemma MinPositionIsCorner(nodes: seq<Node>, pos: Positions)
    requires StandAt(nodes, pos)
    ensures MinPosition(nodes) == Corner(Restrict(pos, NodeIds(nodes)))
  {
    var q := Restrict(pos, NodeIds(nodes));
    if nodes == [] {
      assert q.Keys == {};
    } else {
      var m := MinPosition(nodes);
      var nx :| nx in nodes && nx.position.x == m.x;
      var ny :| ny in nodes && ny.position.y == m.y;
      forall k | k in q ensures m.x <= q[k].x && m.y <= q[k].y {
        var n :| n in nodes && n.id == k;
      }
      CornerCharacterized(q, m, nx.id, ny.id);
    }
  }

  /** The positions of a layout in progress, keyed by node ID. */
  class LayoutPositions {
    var byNodeId: Positions

    constructor ()
      ensures byNodeId == map[]
    {
      byNodeId := map[];
    }

    method MinPosition() returns (m: Position)
      ensures m == Corner(byNodeId)
    {
      var minX, minY, first := 0, 0, true;
      var rest := byNodeId.Keys;
      while rest != {}
        invariant rest <= byNodeId.Keys && (first <==> rest == byNodeId.Keys)
        invariant !first ==> exists k :: k in byNodeId && byNodeId[k].x == minX
        invariant !first ==> exists k :: k in byNodeId && byNodeId[k].y == minY
        invariant forall k :: k in byNodeId && k !in rest ==> minX <= byNodeId[k].x && minY <= byNodeId[k].y
        invariant first ==> minX == 0 && minY == 0
        decreases rest
      {
        var nodeId :| nodeId in rest;
        rest := rest - {nodeId};
        var pos := byNodeId[nodeId];
        if first {
          minX, minY, first := pos.x, pos.y, false;
          continue;
        }
        if pos.x < minX {
          minX := pos.x;
        }
        if pos.y < minY {
          minY := pos.y;
        }
      }
      m := Position(minX, minY);
      if byNodeId != map[] {
        assert byNodeId.Keys != {};
        ghost var kx :| kx in byNodeId && byNodeId[kx].x == minX;
        ghost var ky :| ky in byNodeId && byNodeId[ky].y == minY;
        CornerCharacterized(byNodeId, m, kx, ky);
      }
    }

    method ApplyOffset(offset: Position)
      modifies this
      ensures byNodeId == Shift(old(byNodeId), offset.x, offset.y)
    {
      var rest := byNodeId.Keys;
      while rest != {}
        invariant rest <= byNodeId.Keys == old(byNodeId).Keys
        invariant forall k :: k in rest ==> byNodeId[k] == old(byNodeId)[k]
        invariant forall k :: k in byNodeId && k !in rest ==> byNodeId[k] == Shift(old(byNodeId), offset.x, offset.y)[k]
        decreases rest
      {
        var nodeId :| nodeId in rest;
        rest := rest - {nodeId};
        var pos := byNodeId[nodeId];
        byNodeId := byNodeId[nodeId := Position(pos.x + offset.x, pos.y + offset.y)];
      }
    }
  }

  // ----- bounding boxes -----

  datatype Bounds = Bounds(minX: int, minY: int, maxX: int, maxY: int, width: int, height: int)

  ghost function BoundsOf(p: Positions): Bounds {
    if p == map[] then Bounds(0, 0, 0, 0, 0, 0)
    else
      XsNotEmpty(p);
      var (minX, minY) := (MinOf(Xs(p)), MinOf(Ys(p)));
      var (maxX, maxY) := (MaxOf(Xs(p)) + NODE_WIDTH, MaxOf(Ys(p)) + NODE_HEIGHT);
      Bounds(minX, minY, maxX, maxY, maxX - minX, maxY - minY)
  }

  lemma ExtremesExtend(p: Positions, k: string, v: Position)
    requires k !in p
    ensures Xs(p[k := v]) == Xs(p) + {v.x} && Ys(p[k := v]) == Ys(p) + {v.y}
  {
    var q := p[k := v];
    assert forall j :: j in p ==> q[j] == p[j];
    assert q[k] == v;
  }

  lemma BoundsExtend(p: Positions, k: string, v: Position)
    requires k !in p && p != map[]
    ensures var b, c := BoundsOf(p), BoundsOf(p[k := v]);
      && c.minX == (if v.x < b.minX then v.x else b.minX)
      && c.minY == (if v.y < b.minY then v.y else b.minY)
      && c.maxX == (if v.x + NODE_WIDTH > b.maxX then v.x + NODE_WIDTH else b.maxX)
      && c.maxY == (if v.y + NODE_HEIGHT > b.maxY then v.y + NODE_HEIGHT else b.maxY)
  {
    ExtremesExtend(p, k, v);
    XsNotEmpty(p);
    assert p[k := v] != map[] by { assert k in p[k := v]; }
  }

  lemma BoundsOfOne(k: string, v: Position)
    ensures BoundsOf(map[k := v]) == Bounds(v.x, v.y, v.x + NODE_WIDTH, v.y + NODE_HEIGHT, NODE_WIDTH, NODE_HEIGHT)
  {
    ExtremesExtend(map[], k, v);
    assert map[][k := v] == map[k := v];
    assert k in map[k := v];
  }

  /** The bounds without their size, which is set at the end. */
  ghost predicate Bound(bounds: Bounds, seen: Positions) {
    bounds == BoundsOf(seen).(width := 0, height := 0)
  }

  function Widened(b: Bounds, first: bool, p: Position): Bounds {
    var maxX, maxY := p.x + NODE_WIDTH, p.y + NODE_HEIGHT;
    if first then b.(minX := p.x, minY := p.y, maxX := maxX, maxY := maxY)
    else b.(minX := if p.x < b.minX then p.x else b.minX, minY := if p.y < b.minY then p.y else b.minY,
            maxX := if maxX > b.maxX then maxX else b.maxX, maxY := if maxY > b.maxY then maxY else b.maxY)
  }

  lemma WidenedBounds(b: Bounds, seen: Positions, k: string, p: Position)
    requires Bound(b, seen) && k !in seen
    ensures Bound(Widened(b, seen == map[], p), seen[k := p])
    ensures seen[k := p] != map[]
  {
    assert k in seen[k := p];
    if seen == map[] {
      BoundsOfOne(k, p);
      assert seen[k := p] == map[k := p];
    } else {
      BoundsExtend(seen, k, p);
    }
  }

  /** Makes the bounds take in one more node. */
  method Widen(bounds: Bounds, first: bool, position: Position) returns (r: Bounds)
    ensures r == Widened(bounds, first, position)
  {
    r := bounds;
    var nodeMaxX, nodeMaxY := position.x + NODE_WIDTH, position.y + NODE_HEIGHT;
    if first {
      return r.(minX := position.x, minY := position.y, maxX := nodeMaxX, maxY := nodeMaxY);
    }
    if position.x < r.minX {
      r := r.(minX := position.x);
    }
    if position.y < r.minY {
      r := r.(minY := position.y);
    }
    if nodeMaxX > r.maxX {
      r := r.(maxX := nodeMaxX);
    }
    if nodeMaxY > r.maxY {
      r := r.(maxY := nodeMaxY);
    }
  }

  lemma SizedBounds(b: Bounds, seen: Positions)
    requires Bound(b, seen)
    ensures BoundsOf(seen)
            == if seen == map[] then Bounds(0, 0, 0, 0, 0, 0) else b.(width := b.maxX - b.minX, height := b.maxY - b.minY)
  {
  }

  lemma NoBounds()
    ensures Bound(Bounds(0, 0, 0, 0, 0, 0), map[])
  {
  }

  method ResolveLayoutBounds(componentNodes: seq<Node>, positions: LayoutPositions) returns (bounds: Bounds)
    requires DistinctIds(componentNodes)
    ensures bounds == BoundsOf(Restrict(positions.byNodeId, NodeIds(componentNodes)))
  {
    bounds := Bounds(0, 0, 0, 0, 0, 0);
    var first := true;
    ghost var seen: Positions := map[];
    NoBounds();
    for i := 0 to |componentNodes|
      invariant seen == Restrict(positions.byNodeId, NodeIds(componentNodes[..i]))
      invariant first <==> seen == map[]
      invariant Bound(bounds, seen)
    {
      var node := componentNodes[i];
      RestrictExtend(componentNodes, i, positions.byNodeId);
      if node.id !in positions.byNodeId {
        continue;
      }
      var position := positions.byNodeId[node.id];
      WidenedBounds(bounds, seen, node.id, position);
      seen := seen[node.id := position];
      bounds := Widen(bounds, first, position);
      first := false;
    }
    assert componentNodes[..|componentNodes|] == componentNodes;
    SizedBounds(bounds, seen);
    if first {
      return Bounds(0, 0, 0, 0, 0, 0);
    }
    bounds := bounds.(width := bounds.maxX - bounds.minX, height := bounds.maxY - bounds.minY);
  }

  lemma RestrictExtend(nodes: seq<Node>, i: nat, p: Positions)
    requires i < |nodes| && DistinctIds(nodes)
    ensures var before := Restrict(p, NodeIds(nodes[..i]));
      && nodes[i].id !in before
      && Restrict(p, NodeIds(nodes[..i + 1]))
         == if nodes[i].id in p then before[nodes[i].id := p[nodes[i].id]] else before
  {
    NodeIdsAppend(nodes[..i], nodes[i]);
    assert nodes[..i + 1] == nodes[..i] + [nodes[i]];
    assert nodes[i].id !in NodeIds(nodes[..i]);
  }
}
