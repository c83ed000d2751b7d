/** Packing placed components next to each other without overlap. */
module LayoutPacking {
  import opened LayoutGraph
  import opened LayoutComponents
  import opened LayoutGeometry
  import opened LayoutPlacement

  function PackGap(o: Orientation): int {
    if o == Vertical then HORIZONTAL_PACK_GAP else VERTICAL_PACK_GAP
  }

  /** How far a placed component reaches along the packing axis. */
  ghost function Extent(part: Positions, o: Orientation): int {
    if o == Vertical then BoundsOf(part).width else BoundsOf(part).height
  }

  ghost function PackOffset(parts: seq<Positions>, o: Orientation): int {
    if parts == [] then 0
    else
      var before, part := PackOffset(parts[..|parts| - 1], o), parts[|parts| - 1];
      if part == map[] then before else before + Extent(part, o) + PackGap(o)
  }

  /** The component moved so that its corner lies at the offset on the packing axis and at 0 on the other. */
  ghost function PackedPart(part: Positions, offset: int, o: Orientation): Positions {
    var b := BoundsOf(part);
    if o == Vertical then Shift(part, offset - b.minX, -b.minY) else Shift(part, -b.minX, offset - b.minY)
  }

  ghost function Packed(parts: seq<Positions>, o: Orientation): Positions {
    if parts == [] then map[]
    else
      var front, part := parts[..|parts| - 1], parts[|parts| - 1];
      if part == map[] then Packed(front, o) else Packed(front, o) + PackedPart(part, PackOffset(front, o), o)
  }

  ghost predicate DisjointParts(parts: seq<Positions>) {
    forall i, j :: 0 <= i < j < |parts| ==> parts[i].Keys !! parts[j].Keys
  }

  lemma {:induction false} PackedKeys(parts: seq<Positions>, o: Orientation, k: string)
    ensures k in Packed(parts, o) <==> exists i :: 0 <= i < |parts| && k in parts[i]
  {
    if parts != [] {
      var n := |parts| - 1;
      PackedKeys(parts[..n], o, k);
      if i :| 0 <= i < |parts| && k in parts[i] {
        assert i < n ==> parts[..n][i] == parts[i];
      }
      if i :| 0 <= i < n && k in parts[..n][i] {
        assert k in parts[i];
      }
    }
  }

  /** Packing leaves every component in one piece: later components do not touch earlier ones. */
  lemma {:induction false} PackedAt(parts: seq<Positions>, o: Orientation, i: nat, k: string)
    requires DisjointParts(parts) && i < |parts| && k in parts[i]
    ensures k in Packed(parts, o) && Packed(parts, o)[k] == PackedPart(parts[i], PackOffset(parts[..i], o), o)[k]
  {
    var n := |parts| - 1;
    if i < n {
      assert parts[..n][..i] == parts[..i] && parts[..n][i] == parts[i];
      PackedAt(parts[..n], o, i, k);
      assert k !in parts[n];
    } else {
      assert parts[..n][..i] == parts[..i];
    }
  }

  lemma BoundsFacts(part: Positions, k: string)
    requires k in part
    ensures var b := BoundsOf(part);
      && b.minX <= part[k].x && part[k].x + NODE_WIDTH <= b.maxX && b.width == b.maxX - b.minX
      && b.minY <= part[k].y && part[k].y + NODE_HEIGHT <= b.maxY && b.height == b.maxY - b.minY
      && Corner(part) == Position(b.minX, b.minY)
  {
    assert part.Keys != {};
    assert part[k].x in Xs(part) && part[k].y in Ys(part);
  }

  lemma {:induction false} PackOffsetGrows(parts: seq<Positions>, o: Orientation, i: nat, j: nat)
    requires i <= j <= |parts|
    ensures PackOffset(parts[..i], o) <= PackOffset(parts[..j], o)
  {
    if i < j {
      PackOffsetGrows(parts, o, i, j - 1);
      assert parts[..j][..j - 1] == parts[..j - 1];
      if parts[j - 1] != map[] {
        assert parts[j - 1].Keys != {};
        var k :| k in parts[j - 1];
        BoundsFacts(parts[j - 1], k);
      }
    }
  }

  /** The boxes of nodes of different components are at least the packing gap apart on the packing axis. */
  lemma PackedApart(parts: seq<Positions>, o: Orientation, i: nat, j: nat, u: string, v: string)
    requires DisjointParts(parts) && i < j < |parts| && u in parts[i] && v in parts[j]
    ensures u in Packed(parts, o) && v in Packed(parts, o)
    ensures var p := Packed(parts, o);
      if o == Vertical then p[v].x - (p[u].x + NODE_WIDTH) >= HORIZONTAL_PACK_GAP
      else p[v].y - (p[u].y + NODE_HEIGHT) >= VERTICAL_PACK_GAP
  {
    PackedAt(parts, o, i, u);
    PackedAt(parts, o, j, v);
    BoundsFacts(parts[i], u);
    BoundsFacts(parts[j], v);
    PackOffsetGrows(parts, o, i + 1, j);
    assert parts[..i + 1][..i] == parts[..i];
    assert parts[i].Keys != {};
  }

  /** One component keeps the engine's coordinates; several are packed. */
  ghost function Arranged(parts: seq<Positions>, o: Orientation): Positions {
    if |parts| == 1 then parts[0] else Packed(parts, o)
  }

  lemma ArrangedKeys(parts: seq<Positions>, o: Orientation, k: string)
    ensures k in Arranged(parts, o) <==> exists i :: 0 <= i < |parts| && k in parts[i]
  {
    PackedKeys(parts, o, k);
    assert |parts| == 1 ==> forall i :: 0 <= i < |parts| ==> parts[i] == parts[0];
  }

  /** Moved as a whole so that its corner lies at the given place. */
  ghost function Anchored(p: Positions, corner: Position): Positions {
    Shift(p, corner.x - Corner(p).x, corner.y - Corner(p).y)
  }

  lemma AnchoredIsShift(p: Positions, corner: Position, dx: int, dy: int)
    requires dx == corner.x - Corner(p).x && dy == corner.y - Corner(p).y
    ensures Anchored(p, corner) == Shift(p, dx, dy)
  {
  }

  lemma AnchoredCorner(p: Positions, corner: Position)
    requires p != map[]
    ensures Anchored(p, corner).Keys == p.Keys && Corner(Anchored(p, corner)) == corner
  {
    ShiftMoves(p, corner.x - Corner(p).x, corner.y - Corner(p).y);
  }

  lemma ArrangedCovers(parts: seq<Positions>, sets: seq<set<string>>, o: Orientation)
    requires |parts| == |sets| && forall i :: 0 <= i < |parts| ==> parts[i].Keys == sets[i]
    ensures Arranged(parts, o).Keys == Union(sets)
  {
    forall k ensures k in Arranged(parts, o) <==> k in Union(sets) {
      ArrangedKeys(parts, o, k);
      if k in Union(sets) {
        var c :| c in sets && k in c;
        var i :| 0 <= i < |sets| && sets[i] == c;
        assert k in parts[i];
      }
      if i :| 0 <= i < |parts| && k in parts[i] {
        assert sets[i] in sets;
      }
    }
  }

  lemma SameOnKeys(p: Positions, q: Positions)
    requires forall k :: k in q ==> k in p && p[k] == q[k]
    ensures Restrict(p, q.Keys) == q
  {
  }

  /** Arranging and anchoring move each component as a whole. When there are several, its corner on the
      packing axis is given by the components before it. */
  lemma PartIsMoved(parts: seq<Positions>, o: Orientation, corner: Position, i: nat) returns (dx: int, dy: int)
    requires DisjointParts(parts) && i < |parts| && parts[i] != map[]
    ensures Restrict(Anchored(Arranged(parts, o), corner), parts[i].Keys) == Shift(parts[i], dx, dy)
    ensures |parts| > 1 && o == Vertical ==>
              Corner(parts[i]).x + dx == PackOffset(parts[..i], o) + corner.x - Corner(Arranged(parts, o)).x
    ensures |parts| > 1 && o == Horizontal ==>
              Corner(parts[i]).y + dy == PackOffset(parts[..i], o) + corner.y - Corner(Arranged(parts, o)).y
    ensures |parts| > 1 && o == Vertical ==> Corner(parts[i]).y + dy == corner.y - Corner(Arranged(parts, o)).y
    ensures |parts| > 1 && o == Horizontal ==> Corner(parts[i]).x + dx == corner.x - Corner(Arranged(parts, o)).x
  {
    var arranged := Arranged(parts, o);
    var mx, my := corner.x - Corner(arranged).x, corner.y - Corner(arranged).y;
    if |parts| == 1 {
      dx, dy := mx, my;
      SameOnKeys(Shift(parts[0], dx, dy), Shift(parts[0], dx, dy));
    } else {
      var offset := PackOffset(parts[..i], o);
      dx := mx + (if o == Vertical then offset else 0) - BoundsOf(parts[i]).minX;
      dy := my + (if o == Vertical then 0 else offset) - BoundsOf(parts[i]).minY;
      assert parts[i].Keys != {};
      var w :| w in parts[i];
      BoundsFacts(parts[i], w);
      forall k | k in parts[i] ensures k in arranged && Shift(arranged, mx, my)[k] == Shift(parts[i], dx, dy)[k] {
        PackedAt(parts, o, i, k);
      }
      SameOnKeys(Shift(arranged, mx, my), Shift(parts[i], dx, dy));
    }
  }

  /** The coordinate on the packing axis. */
  function Along(p: Position, o: Orientation): int {
    if o == Vertical then p.x else p.y
  }

  lemma CornerOfPart(parts: seq<Positions>, o: Orientation, corner: Position, i: nat)
    requires DisjointParts(parts) && i < |parts| && parts[i] != map[] && |parts| > 1
    ensures Along(Corner(Restrict(Anchored(Arranged(parts, o), corner), parts[i].Keys)), o)
         == PackOffset(parts[..i], o) + Along(corner, o) - Along(Corner(Arranged(parts, o)), o)
  {
    var dx, dy := PartIsMoved(parts, o, corner, i);
    ShiftMoves(parts[i], dx, dy);
  }

  lemma PackOffsetStep(parts: seq<Positions>, o: Orientation, i: nat)
    requires i < |parts| && parts[i] != map[]
    ensures PackOffset(parts[..i], o) < PackOffset(parts[..i + 1], o)
  {
    assert parts[..i + 1][..i] == parts[..i];
    assert parts[i].Keys != {};
    var w :| w in parts[i];
    BoundsFacts(parts[i], w);
  }

  /** Packed components have their corners in packing order, strictly. */
  lemma CornersInOrder(parts: seq<Positions>, o: Orientation, corner: Position, i: nat, j: nat)
    requires DisjointParts(parts) && i < j < |parts| && parts[i] != map[] && parts[j] != map[]
    ensures var next := Anchored(Arranged(parts, o), corner);
      Along(Corner(Restrict(next, parts[i].Keys)), o) < Along(Corner(Restrict(next, parts[j].Keys)), o)
  {
    CornerOfPart(parts, o, corner, i);
    CornerOfPart(parts, o, corner, j);
    PackOffsetStep(parts, o, i);
    PackOffsetGrows(parts, o, i + 1, j);
  }

  /** The placed components, in packing order. */
  ghost function PartPositions(sorted: seq<set<string>>, edges: seq<Edge>, pos: Positions, o: Orientation, engine: Engine)
    : (parts: seq<Positions>)
    requires forall c :: c in sorted ==> c <= pos.Keys
    ensures |parts| == |sorted|
    ensures forall i :: 0 <= i < |parts| ==>
              parts[i] == ComponentPositions(sorted[i], Within(edges, sorted[i]), pos, o, engine)
  {
    seq(|sorted|, i requires 0 <= i < |sorted| =>
      assert sorted[i] in sorted;
      ComponentPositions(sorted[i], Within(edges, sorted[i]), pos, o, engine))
  }

  method AddShifted(positions: LayoutPositions, part: Positions, dx: int, dy: int)
    modifies positions
    ensures positions.byNodeId == old(positions.byNodeId) + Shift(part, dx, dy)
  {
    var rest := part.Keys;
    ghost var done: Positions := map[];
    while rest != {}
      invariant rest <= part.Keys && done == Restrict(Shift(part, dx, dy), part.Keys - rest)
      invariant positions.byNodeId == old(positions.byNodeId) + done
      decreases rest
    {
      var k :| k in rest;
      rest := rest - {k};
      var p := Position(part[k].x + dx, part[k].y + dy);
      positions.byNodeId := positions.byNodeId[k := p];
      done := done[k := p];
    }
    assert done == Shift(part, dx, dy);
  }

  lemma PackedPartIsShift(part: Positions, offset: int, o: Orientation, dx: int, dy: int)
    requires dx == (if o == Vertical then offset else 0) - BoundsOf(part).minX
    requires dy == (if o == Vertical then 0 else offset) - BoundsOf(part).minY
    ensures PackedPart(part, offset, o) == Shift(part, dx, dy)
  {
  }

  /** Places one component and packs it at the offset; returns the next offset. */
  method PackComponent(packed: LayoutPositions, componentNodes: seq<Node>, layoutEdges: seq<Edge>, o: Orientation,
                       engine: Engine, offset: int, ghost pos: Positions)
    returns (nextOffset: int, ghost part: Positions)
    requires PlacesOnlyEndpoints(engine)
    requires DistinctIds(componentNodes) && StandAt(componentNodes, pos) && NodeIds(componentNodes) <= pos.Keys
    modifies packed
    ensures part == ComponentPositions(NodeIds(componentNodes), Within(layoutEdges, NodeIds(componentNodes)), pos, o, engine)
    ensures part == map[] ==> packed.byNodeId == old(packed.byNodeId) && nextOffset == offset
    ensures part != map[] ==>
              && packed.byNodeId == old(packed.byNodeId) + PackedPart(part, offset, o)
              && nextOffset == offset + Extent(part, o) + PackGap(o)
  {
    ghost var before := packed.byNodeId;
    var componentEdges := ResolveLayoutEdges(layoutEdges, NodeIds(componentNodes));
    var componentPositions := ComputeAutogPositions(componentNodes, componentEdges, o, engine, pos);
    part := componentPositions.byNodeId;
    if |componentPositions.byNodeId| == 0 {
      assert part == map[];
      return offset, part;
    }
    ComponentPositionsCover(NodeIds(componentNodes), componentEdges, pos, o, engine);
    assert Restrict(part, NodeIds(componentNodes)) == part;
    var bounds := ResolveLayoutBounds(componentNodes, componentPositions);
    assert bounds == BoundsOf(part);
    ghost var moved := PackedPart(part, offset, o);
    var dx, dy;
    if o == Vertical {
      dx, dy := offset - bounds.minX, -bounds.minY;
      nextOffset := offset + bounds.width + HORIZONTAL_PACK_GAP;
    } else {
      dx, dy := -bounds.minX, offset - bounds.minY;
      nextOffset := offset + bounds.height + VERTICAL_PACK_GAP;
    }
    PackedPartIsShift(part, offset, o, dx, dy);
    AddShifted(packed, componentPositions.byNodeId, dx, dy);
    assert packed.byNodeId == before + moved;
  }

  method ResolvePackedLayoutedPositions(sortedComponents: seq<seq<Node>>, layoutEdges: seq<Edge>, o: Orientation,
                                        engine: Engine, ghost pos: Positions)
    returns (packed: LayoutPositions)
    requires PlacesOnlyEndpoints(engine)
    requires forall c :: c in sortedComponents ==> DistinctIds(c) && StandAt(c, pos) && NodeIds(c) <= pos.Keys
    ensures packed.byNodeId
         == Arranged(PartPositions(IdSets(sortedComponents), layoutEdges, pos, o, engine), o)
    ensures fresh(packed)
  {
    ghost var parts := PartPositions(IdSets(sortedComponents), layoutEdges, pos, o, engine);
    if |sortedComponents| == 1 {
      assert sortedComponents[0] in sortedComponents;
      var componentEdges := ResolveLayoutEdges(layoutEdges, NodeIds(sortedComponents[0]));
      packed := ComputeAutogPositions(sortedComponents[0], componentEdges, o, engine, pos);
      return;
    }
    packed := new LayoutPositions();
    var currentPackOffset := 0;
    for i := 0 to |sortedComponents|
      invariant fresh(packed)
      invariant packed.byNodeId == Packed(parts[..i], o)
      invariant currentPackOffset == PackOffset(parts[..i], o)
    {
      assert sortedComponents[i] in sortedComponents;
      assert parts[..i + 1][..i] == parts[..i];
      ghost var part;
      currentPackOffset, part :=
        PackComponent(packed, sortedComponents[i], layoutEdges, o, engine, currentPackOffset, pos);
      assert part == parts[i];
    }
    assert parts[..|parts|] == parts;
  }
}
