/** The layered layout of a canvas: scope, components, packing, anchoring; and what it guarantees. */
module AutoLayout {
  import opened Reachability
  import opened LayoutGraph
  import opened LayoutComponents
  import opened LayoutGeometry
  import opened LayoutPlacement
  import opened LayoutPacking
  import opened Sorting

  // ----- sorting the components by where they stand -----

  predicate CornerBefore(a: Position, b: Position, o: Orientation) {
    if o == Vertical then (if a.x != b.x then a.x < b.x else a.y < b.y)
    else (if a.y != b.y then a.y < b.y else a.x < b.x)
  }

  ghost predicate PartBefore(a: set<string>, b: set<string>, pos: Positions, o: Orientation) {
    CornerBefore(Corner(Restrict(pos, a)), Corner(Restrict(pos, b)), o)
  }

  ghost function SortedParts(parts: seq<set<string>>, pos: Positions, o: Orientation): seq<set<string>> {
    StableSort(parts, (a, b) => PartBefore(a, b, pos, o))
  }

  method SortComponentsByCurrentPosition(components: seq<seq<Node>>, o: Orientation, ghost pos: Positions)
    returns (sorted: seq<seq<Node>>)
    requires forall c :: c in components ==> StandAt(c, pos)
    ensures IdSets(sorted) == SortedParts(IdSets(components), pos, o)
    ensures forall c :: c in sorted <==> c in components
  {
    var before := (a: seq<Node>, b: seq<Node>) => CornerBefore(MinPosition(a), MinPosition(b), o);
    sorted := StableSort(components, before);
    StableSortMembers(components, before);
    forall a, b | a in components && b in components
      ensures before(a, b) <==> PartBefore(NodeIds(a), NodeIds(b), pos, o)
    {
      MinPositionIsCorner(a, pos);
      MinPositionIsCorner(b, pos);
    }
    StableSortMaps(components, IdSets(components), c => NodeIds(c), before, (a, b) => PartBefore(a, b, pos, o));
  }

  lemma PartOrder(parts: set<set<string>>, pos: Positions, o: Orientation)
    ensures StrictWeakOrder(parts, (a, b) => PartBefore(a, b, pos, o))
  {
  }

  // ----- the layout of a set of nodes, on positions -----

  lemma SortedPartsFacts(order: seq<string>, edges: seq<Edge>, pos: Positions, o: Orientation)
    ensures var comps := Components(order, Elements(order), edges);
      var sorted := SortedParts(comps, pos, o);
      && multiset(sorted) == multiset(comps) && |sorted| == |comps|
      && (forall c :: c in sorted <==> c in comps)
      && (forall c :: c in sorted ==> c != {} && c <= Elements(order))
      && (forall i, j :: 0 <= i < j < |sorted| ==> sorted[i] !! sorted[j])
  {
    var comps := Components(order, Elements(order), edges);
    var before := (a, b) => PartBefore(a, b, pos, o);
    var sorted := StableSort(comps, before);
    ComponentsPartition(order, edges);
    StableSortPermutes(comps, before);
    SameMembers(sorted, comps);
    forall c | c in comps ensures c != {} && c <= Elements(order) {
      assert c <= Union(comps);
    }
    DisjointStaysDisjoint(comps, sorted);
  }

  lemma DisjointStaysDisjoint(s: seq<set<string>>, t: seq<set<string>>)
    requires multiset(s) == multiset(t)
    requires forall c :: c in s ==> c != {}
    requires forall i, j :: 0 <= i < j < |s| ==> s[i] !! s[j]
    ensures forall i, j :: 0 <= i < j < |t| ==> t[i] !! t[j]
  {
    forall i, j | 0 <= i < j < |s| ensures s[i] != s[j] {
      assert s[i] in s;
    }
    PermutedDistinct(s, t);
    SameMembers(s, t);
    forall i, j | 0 <= i < j < |t| ensures t[i] !! t[j] {
      assert t[i] in s && t[j] in s;
      var k :| 0 <= k < |s| && s[k] == t[i];
      var l :| 0 <= l < |s| && s[l] == t[j];
      assert if k < l then s[k] !! s[l] else s[l] !! s[k];
    }
  }

  ghost function PlacedParts(order: seq<string>, edges: seq<Edge>, pos: Positions, o: Orientation, engine: Engine)
    : seq<Positions>
    requires pos.Keys == Elements(order)
  {
    SortedPartsFacts(order, edges, pos, o);
    PartPositions(SortedParts(Components(order, Elements(order), edges), pos, o), Forward(edges), pos, o, engine)
  }

  /** The new positions of the nodes: placed, packed, and moved so that the corner stays where it was. */
  ghost function LayoutMap(order: seq<string>, edges: seq<Edge>, pos: Positions, o: Orientation, engine: Engine)
    : Positions
    requires pos.Keys == Elements(order)
  {
    Anchored(Arranged(PlacedParts(order, edges, pos, o, engine), o), Corner(pos))
  }

  lemma PlacedPartsFacts(order: seq<string>, edges: seq<Edge>, pos: Positions, o: Orientation, engine: Engine)
    requires pos.Keys == Elements(order) && PlacesOnlyEndpoints(engine)
    ensures var sorted := SortedParts(Components(order, Elements(order), edges), pos, o);
      var parts := PlacedParts(order, edges, pos, o, engine);
      && |parts| == |sorted|
      && (forall i :: 0 <= i < |parts| ==> parts[i].Keys == sorted[i] && parts[i] != map[])
      && DisjointParts(parts)
  {
    SortedPartsFacts(order, edges, pos, o);
    var sorted := SortedParts(Components(order, Elements(order), edges), pos, o);
    var parts := PlacedParts(order, edges, pos, o, engine);
    forall i | 0 <= i < |parts| ensures parts[i].Keys == sorted[i] && parts[i] != map[] {
      assert sorted[i] in sorted;
      ComponentPositionsCover(sorted[i], Within(Forward(edges), sorted[i]), pos, o, engine);
    }
  }

  lemma ArrangedIsEverything(order: seq<string>, edges: seq<Edge>, pos: Positions, o: Orientation, engine: Engine)
    requires pos.Keys == Elements(order) && PlacesOnlyEndpoints(engine)
    ensures Arranged(PlacedParts(order, edges, pos, o, engine), o).Keys == Elements(order)
  {
    var comps := Components(order, Elements(order), edges);
    var sorted := SortedParts(comps, pos, o);
    PlacedPartsFacts(order, edges, pos, o, engine);
    SortedPartsFacts(order, edges, pos, o);
    ComponentsPartition(order, edges);
    SameUnion(sorted, comps);
    ArrangedCovers(PlacedParts(order, edges, pos, o, engine), sorted, o);
  }

  /** The corner of the laid-out nodes does not move. */
  lemma CornerStays(order: seq<string>, edges: seq<Edge>, pos: Positions, o: Orientation, engine: Engine)
    requires pos.Keys == Elements(order) && PlacesOnlyEndpoints(engine) && order != []
    ensures LayoutMap(order, edges, pos, o, engine).Keys == Elements(order)
    ensures Corner(LayoutMap(order, edges, pos, o, engine)) == Corner(pos)
  {
    ArrangedIsEverything(order, edges, pos, o, engine);
    assert order[0] in Elements(order);
    AnchoredCorner(Arranged(PlacedParts(order, edges, pos, o, engine), o), Corner(pos));
  }

  lemma SameUnion(s: seq<set<string>>, t: seq<set<string>>)
    requires forall c :: c in s <==> c in t
    ensures Union(s) == Union(t)
  {
  }

  /** Placing and sorting again, from the new positions, gives the same components in the same order. */
  lemma PartsStable(order: seq<string>, edges: seq<Edge>, pos: Positions, next: Positions, o: Orientation, engine: Engine)
    requires pos.Keys == Elements(order) == next.Keys && PlacesOnlyEndpoints(engine)
    requires next == LayoutMap(order, edges, pos, o, engine)
    ensures PlacedParts(order, edges, next, o, engine) == PlacedParts(order, edges, pos, o, engine)
  {
    var sorted := SortedParts(Components(order, Elements(order), edges), pos, o);
    var parts := PlacedParts(order, edges, pos, o, engine);
    SortedPartsFacts(order, edges, pos, o);
    PlacedPartsFacts(order, edges, pos, o, engine);
    OrderStable(order, edges, pos, next, o, engine);
    var again := PlacedParts(order, edges, next, o, engine);
    forall i | 0 <= i < |parts| ensures again[i] == parts[i] {
      var dx, dy := PartIsMoved(parts, o, Corner(pos), i);
      assert sorted[i] in sorted;
      ComponentPositionsStable(sorted[i], Within(Forward(edges), sorted[i]), pos, next, o, engine, dx, dy);
    }
  }

  /** The packed components sort back into the order they were packed in. */
  lemma OrderStable(order: seq<string>, edges: seq<Edge>, pos: Positions, next: Positions, o: Orientation, engine: Engine)
    requires pos.Keys == Elements(order) && PlacesOnlyEndpoints(engine)
    requires next == LayoutMap(order, edges, pos, o, engine)
    ensures var comps := Components(order, Elements(order), edges);
      SortedParts(comps, next, o) == SortedParts(comps, pos, o)
  {
    var comps := Components(order, Elements(order), edges);
    SortedPartsFacts(order, edges, pos, o);
    PlacedPartsFacts(order, edges, pos, o, engine);
    PackedSortsBack(comps, SortedParts(comps, pos, o), PlacedParts(order, edges, pos, o, engine), o, Corner(pos));
  }

  lemma PackedSortsBack(comps: seq<set<string>>, sorted: seq<set<string>>, parts: seq<Positions>, o: Orientation,
                        corner: Position)
    requires multiset(sorted) == multiset(comps)
    requires |parts| == |sorted| && DisjointParts(parts)
    requires forall i :: 0 <= i < |parts| ==> parts[i].Keys == sorted[i] && parts[i] != map[]
    ensures SortedParts(comps, Anchored(Arranged(parts, o), corner), o) == sorted
  {
    var next := Anchored(Arranged(parts, o), corner);
    forall i, j | 0 <= i < j < |sorted|
      ensures PartBefore(sorted[i], sorted[j], next, o) && !PartBefore(sorted[j], sorted[i], next, o)
    {
      CornersInOrder(parts, o, corner, i, j);
    }
    SortsTo(comps, sorted, next, o);
  }

  lemma SortsTo(comps: seq<set<string>>, sorted: seq<set<string>>, pos: Positions, o: Orientation)
    requires multiset(sorted) == multiset(comps)
    requires StrictlyOrdered(sorted, (a, b) => PartBefore(a, b, pos, o))
    ensures SortedParts(comps, pos, o) == sorted
  {
    var before := (a, b) => PartBefore(a, b, pos, o);
    var all := set c | c in comps;
    StableSortPermutes(comps, before);
    PartOrder(all, pos, o);
    StableSortOrders(all, comps, before);
    OrderedIsUnique(sorted, StableSort(comps, before), before);
  }

  /** Laying out again changes no position. */
  lemma LayoutMapIdempotent(order: seq<string>, edges: seq<Edge>, pos: Positions, next: Positions, o: Orientation,
                            engine: Engine)
    requires pos.Keys == Elements(order) && PlacesOnlyEndpoints(engine) && order != []
    requires next == LayoutMap(order, edges, pos, o, engine)
    ensures next.Keys == Elements(order) && LayoutMap(order, edges, next, o, engine) == next
  {
    CornerStays(order, edges, pos, o, engine);
    PartsStable(order, edges, pos, next, o, engine);
  }
}
