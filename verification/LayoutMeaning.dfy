/** What a layout does, told by where the nodes stand before and after it, and by what the engine answers. */
module LayoutMeaning {
  import opened Reachability
  import opened LayoutGraph
  import opened LayoutComponents
  import opened LayoutGeometry
  import opened LayoutPlacement
  import opened LayoutPacking
  import opened AutoLayout
  import opened CanvasLayout
  import opened Sequences
  import opened Sorting

  // ----- the edges that the engine gets -----

  /** No earlier edge is written the same, as source, arrow and target. */
  predicate IsFirst(edges: seq<Edge>, i: nat)
    requires i < |edges|
  {
    forall k :: 0 <= k < i ==>
      edges[k].source + "->" + edges[k].target != edges[i].source + "->" + edges[i].target
  }

  /** The indices of these edges, in order. */
  ghost predicate ListsFirsts(edges: seq<Edge>, firsts: seq<nat>) {
    && (forall j, k :: 0 <= j < k < |firsts| ==> firsts[j] < firsts[k])
    && (forall j :: 0 <= j < |firsts| ==> firsts[j] < |edges| && IsFirst(edges, firsts[j]))
    && (forall i :: 0 <= i < |edges| && IsFirst(edges, i) ==> i in firsts)
  }

  function EndsAt(edges: seq<Edge>, firsts: seq<nat>): seq<(string, string)>
    requires forall j :: 0 <= j < |firsts| ==> firsts[j] < |edges|
  {
    seq(|firsts|, j requires 0 <= j < |firsts| => (edges[firsts[j]].source, edges[firsts[j]].target))
  }

  lemma FirstInFront(edges: seq<Edge>, n: nat, i: nat)
    requires i < n <= |edges|
    ensures IsFirst(edges[..n], i) <==> IsFirst(edges, i)
  {
    assert forall k :: 0 <= k < n ==> edges[..n][k] == edges[k];
  }

  lemma IsFirstIff(edges: seq<Edge>, n: nat)
    requires n < |edges|
    ensures IsFirst(edges, n) <==> !exists f :: f in edges[..n] && EdgeKey(f) == EdgeKey(edges[n])
  {
    if f :| f in edges[..n] && EdgeKey(f) == EdgeKey(edges[n]) {
      var k :| 0 <= k < n && edges[..n][k] == f;
    }
    forall k | 0 <= k < n ensures edges[k] in edges[..n] {
      assert edges[..n][k] == edges[k];
    }
  }

  /** The indices before the last edge. */
  lemma FirstsInFront(edges: seq<Edge>, firsts: seq<nat>) returns (earlier: seq<nat>)
    requires edges != [] && ListsFirsts(edges, firsts)
    ensures ListsFirsts(edges[..|edges| - 1], earlier)
    ensures firsts == if IsFirst(edges, |edges| - 1) then earlier + [|edges| - 1] else earlier
  {
    var n := |edges| - 1;
    forall i | 0 <= i < n ensures IsFirst(edges[..n], i) <==> IsFirst(edges, i) {
      FirstInFront(edges, n, i);
    }
    if IsFirst(edges, n) {
      var m := |firsts| - 1;
      var j :| 0 <= j < |firsts| && firsts[j] == n;
      assert j == m;
      earlier := firsts[..m];
      assert firsts == earlier + [n];
      forall i | 0 <= i < n && IsFirst(edges[..n], i) ensures i in earlier {
        assert i in firsts;
      }
    } else {
      earlier := firsts;
    }
  }

  lemma {:induction false} FewFirsts(firsts: seq<nat>, n: nat)
    requires forall j, k :: 0 <= j < k < |firsts| ==> firsts[j] < firsts[k]
    requires forall j :: 0 <= j < |firsts| ==> firsts[j] < n
    ensures |firsts| <= n
  {
    if firsts != [] {
      FewFirsts(firsts[..|firsts| - 1], firsts[|firsts| - 1]);
    }
  }

  lemma {:induction false} EngineEdgesAreFirsts(edges: seq<Edge>, firsts: seq<nat>)
    requires ListsFirsts(edges, firsts)
    ensures EngineEdges(edges) == EndsAt(edges, firsts)
  {
    if edges == [] {
      FewFirsts(firsts, 0);
    } else {
      var n := |edges| - 1;
      var earlier := FirstsInFront(edges, firsts);
      EngineEdgesAreFirsts(edges[..n], earlier);
      IsFirstIff(edges, n);
      EndsInFront(edges, firsts, earlier);
    }
  }

  lemma EndsInFront(edges: seq<Edge>, firsts: seq<nat>, earlier: seq<nat>)
    requires edges != [] && forall j :: 0 <= j < |earlier| ==> earlier[j] < |edges| - 1
    requires firsts == earlier || firsts == earlier + [|edges| - 1]
    ensures EndsAt(edges, firsts)
            == EndsAt(edges[..|edges| - 1], earlier)
               + if firsts == earlier then [] else [(edges[|edges| - 1].source, edges[|edges| - 1].target)]
  {
  }

  // ----- one component -----

  lemma ClassOfMember(c: set<string>, ids: set<string>, edges: seq<Edge>, u: string)
    requires IsClass(c, ids, edges) && c <= ids && u in c
    ensures c == ClassOf(u, ids, edges)
  {
    forall w | w in ids ensures w in c <==> Connected(edges, u, w) {
      ClassIsConnected(c, ids, edges, u, w);
    }
  }

  /** The part of a node is its component. */
  lemma PartOfNode(order: seq<string>, edges: seq<Edge>, pos: Positions, o: Orientation, u: string) returns (i: nat)
    requires u in order
    ensures var sorted := SortedParts(Components(order, Elements(order), edges), pos, o);
            i < |sorted| && sorted[i] == ClassOf(u, Elements(order), edges) && u in sorted[i]
  {
    var ids, sorted := Elements(order), SortedParts(Components(order, Elements(order), edges), pos, o);
    SortedPartsFacts(order, edges, pos, o);
    ComponentsAreClasses(order, ids, edges);
    i := PartOf(order, edges, sorted, u);
    assert sorted[i] in sorted;
    ClassOfMember(sorted[i], ids, edges, u);
  }

  /** A component is moved as a whole from where it was placed. */
  lemma PlacedAndMoved(order: seq<string>, edges: seq<Edge>, pos: Positions, o: Orientation, engine: Engine, u: string)
    returns (dx: int, dy: int)
    requires pos.Keys == Elements(order) && PlacesOnlyEndpoints(engine) && u in order
    ensures var c := ClassOf(u, Elements(order), edges);
            var next := LayoutMap(order, edges, pos, o, engine);
            var placed := ComponentPositions(c, Within(Forward(edges), c), pos, o, engine);
            u in c && c <= next.Keys && Restrict(next, c) == Shift(placed, dx, dy) && placed.Keys == c
  {
    var parts := PlacedParts(order, edges, pos, o, engine);
    PlacedPartsFacts(order, edges, pos, o, engine);
    SortedPartsFacts(order, edges, pos, o);
    var i := PartOfNode(order, edges, pos, o, u);
    dx, dy := PartIsMoved(parts, o, Corner(pos), i);
    CornerStays(order, edges, pos, o, engine);
    ComponentPositionsCover(parts[i].Keys, Within(Forward(edges), parts[i].Keys), pos, o, engine);
  }

  /** What the engine is asked for a component: its forward edges, each written once. */
  ghost predicate AskedFor(es: seq<(string, string)>, c: set<string>, edges: seq<Edge>) {
    exists firsts :: ListsFirsts(Within(Forward(edges), c), firsts) && es == EndsAt(Within(Forward(edges), c), firsts)
  }

  lemma PlacedByEngine(c: set<string>, edges: seq<Edge>, o: Orientation, engine: Engine, es: seq<(string, string)>)
    requires PlacesOnlyEndpoints(engine) && AskedFor(es, c, edges)
    ensures Placed(Within(Forward(edges), c), o, engine) == engine(es, o)
  {
    var inner := Within(Forward(edges), c);
    var firsts :| ListsFirsts(inner, firsts) && es == EndsAt(inner, firsts);
    EngineEdgesAreFirsts(inner, firsts);
    if inner == [] {
      assert engine(es, o).Keys == {};
    }
  }

  /** Nodes of one component that the engine places stand as far apart as it places them. */
  lemma EngineDistances(order: seq<string>, edges: seq<Edge>, pos: Positions, o: Orientation, engine: Engine,
                        u: string, v: string, es: seq<(string, string)>)
    requires pos.Keys == Elements(order) && PlacesOnlyEndpoints(engine)
    requires u in order && v in order && Connected(edges, u, v) && AskedFor(es, ClassOf(u, Elements(order), edges), edges)
    requires u in engine(es, o) && v in engine(es, o)
    ensures var next := LayoutMap(order, edges, pos, o, engine);
            && u in next && v in next
            && next[u].x - next[v].x == engine(es, o)[u].x - engine(es, o)[v].x
            && next[u].y - next[v].y == engine(es, o)[u].y - engine(es, o)[v].y
  {
    var c := ClassOf(u, Elements(order), edges);
    var placed := ComponentPositions(c, Within(Forward(edges), c), pos, o, engine);
    var dx, dy := PlacedAndMoved(order, edges, pos, o, engine, u);
    PlacedByEngine(c, edges, o, engine, es);
    assert v in c;
    forall w | w in c && w in engine(es, o) ensures placed[w] == engine(es, o)[w] {
    }
    assert Restrict(LayoutMap(order, edges, pos, o, engine), c)[u] == Shift(placed, dx, dy)[u];
    assert Restrict(LayoutMap(order, edges, pos, o, engine), c)[v] == Shift(placed, dx, dy)[v];
  }

  /** A node stands above another: further up, or as high and further left, or at the same place and with a smaller name. */
  predicate StandsBefore(pos: Positions, u: string, v: string)
    requires u in pos && v in pos
  {
    || pos[u].y < pos[v].y
    || (pos[u].y == pos[v].y && pos[u].x < pos[v].x)
    || (pos[u] == pos[v] && NameLess(u, v))
  }

  /** The nodes that the engine leaves out, and that stand above v. */
  ghost function LeftOutAbove(c: set<string>, answer: Positions, pos: Positions, v: string): set<string>
    requires c <= pos.Keys && v in pos
  {
    set u | u in c && u !in answer && StandsBefore(pos, u, v)
  }

  /** v stands in a column with what else the engine leaves out, one below the other and 360 apart, in the order in which
      they stood; with an X that the engine would call 0, and 360 below the lowest node that it places. */
  ghost predicate InColumn(next: Positions, pos: Positions, c: set<string>, answer: Positions, u: string, v: string)
    requires c <= pos.Keys && u in next && v in next && u in pos && v in pos
  {
    var above := |LeftOutAbove(c, answer, pos, v)|;
    && (u !in answer ==>
          next[v] == Position(next[u].x, next[u].y + 360 * (above - |LeftOutAbove(c, answer, pos, u)|)))
    && (u in answer ==> next[v].x - next[u].x == -answer[u].x)
    && (u in answer && (forall k :: k in answer ==> answer[k].y <= answer[u].y) ==>
          next[v].y - next[u].y == 360 * (1 + above))
  }

  /** Nodes that the engine leaves out come to stand one below the other in their present order, below all that it places,
      360 apart, and at its X of 0. */
  lemma LeftOutColumn(order: seq<string>, edges: seq<Edge>, pos: Positions, o: Orientation, engine: Engine,
                      u: string, v: string, es: seq<(string, string)>)
    requires pos.Keys == Elements(order) && PlacesOnlyEndpoints(engine)
    requires u in order && v in order && Connected(edges, u, v) && AskedFor(es, ClassOf(u, Elements(order), edges), edges)
    requires v !in engine(es, o)
    ensures var next := LayoutMap(order, edges, pos, o, engine);
            u in next && v in next && InColumn(next, pos, ClassOf(u, Elements(order), edges), engine(es, o), u, v)
  {
    var c := ClassOf(u, Elements(order), edges);
    var placed := ComponentPositions(c, Within(Forward(edges), c), pos, o, engine);
    var dx, dy := PlacedAndMoved(order, edges, pos, o, engine, u);
    var answer := engine(es, o);
    LeftOutPlaced(c, edges, pos, o, engine, es, v);
    if u in answer {
      if forall k :: k in answer ==> answer[k].y <= answer[u].y {
        LowestStart(answer, u);
      }
    } else {
      LeftOutPlaced(c, edges, pos, o, engine, es, u);
    }
    EnginePlaced(c, edges, pos, o, engine, es);
    assert Restrict(LayoutMap(order, edges, pos, o, engine), c)[u] == Shift(placed, dx, dy)[u];
    assert Restrict(LayoutMap(order, edges, pos, o, engine), c)[v] == Shift(placed, dx, dy)[v];
  }

  lemma EnginePlaced(c: set<string>, edges: seq<Edge>, pos: Positions, o: Orientation, engine: Engine,
                     es: seq<(string, string)>)
    requires c <= pos.Keys && PlacesOnlyEndpoints(engine) && AskedFor(es, c, edges)
    ensures var placed := ComponentPositions(c, Within(Forward(edges), c), pos, o, engine);
            forall w :: w in engine(es, o) ==> w in placed && placed[w] == engine(es, o)[w]
  {
    PlacedByEngine(c, edges, o, engine, es);
  }

  lemma LeftOutPlaced(c: set<string>, edges: seq<Edge>, pos: Positions, o: Orientation, engine: Engine,
                      es: seq<(string, string)>, v: string)
    requires c <= pos.Keys && PlacesOnlyEndpoints(engine) && AskedFor(es, c, edges)
    requires v in c && v !in engine(es, o)
    ensures var placed := ComponentPositions(c, Within(Forward(edges), c), pos, o, engine);
            && v in placed
            && placed[v] == Position(0, ColumnStart(engine(es, o)) + 360 * |LeftOutAbove(c, engine(es, o), pos, v)|)
  {
    var answer := engine(es, o);
    PlacedByEngine(c, edges, o, engine, es);
    var missing := c - answer.Keys;
    assert Earlier(v, missing, pos) == LeftOutAbove(c, answer, pos, v);
    assert Ranks(missing, pos)[v] == |LeftOutAbove(c, answer, pos, v)|;
    assert v in Column(Ranks(missing, pos), ColumnStart(answer));
  }

  lemma LowestStart(answer: Positions, u: string)
    requires u in answer && forall k :: k in answer ==> answer[k].y <= answer[u].y
    ensures ColumnStart(answer) == answer[u].y + 360
  {
    assert answer.Keys != {};
    assert answer[u].y in Ys(answer);
    MaxOfUnique(Ys(answer), answer[u].y);
  }

  /** There is such a list for every component. */
  lemma {:induction false} SomeFirsts(edges: seq<Edge>) returns (firsts: seq<nat>)
    ensures ListsFirsts(edges, firsts)
  {
    if edges == [] {
      firsts := [];
    } else {
      var n := |edges| - 1;
      var earlier := SomeFirsts(edges[..n]);
      forall i | 0 <= i < n ensures IsFirst(edges[..n], i) <==> IsFirst(edges, i) {
        FirstInFront(edges, n, i);
      }
      firsts := if IsFirst(edges, n) then earlier + [n] else earlier;
      forall i | 0 <= i < |edges| && IsFirst(edges, i) ensures i in firsts {
        assert i < n ==> i in earlier;
      }
    }
  }

  lemma SomethingIsAsked(c: set<string>, edges: seq<Edge>) returns (es: seq<(string, string)>)
    ensures AskedFor(es, c, edges)
  {
    var firsts := SomeFirsts(Within(Forward(edges), c));
    es := EndsAt(Within(Forward(edges), c), firsts);
  }

  // ----- several components -----

  ghost predicate FullParts(parts: seq<Positions>) {
    DisjointParts(parts) && forall i :: 0 <= i < |parts| ==> parts[i] != map[]
  }

  lemma PackedAtLeastZero(parts: seq<Positions>, o: Orientation, k: string)
    requires FullParts(parts) && k in Packed(parts, o)
    ensures Packed(parts, o)[k].x >= 0 && Packed(parts, o)[k].y >= 0
  {
    PackedKeys(parts, o, k);
    var i :| 0 <= i < |parts| && k in parts[i];
    PackedAt(parts, o, i, k);
    BoundsFacts(parts[i], k);
    PackOffsetGrows(parts, o, 0, i);
    assert parts[..0] == [];
  }

  lemma PackedFromZero(parts: seq<Positions>, o: Orientation)
    requires FullParts(parts) && parts != []
    ensures Packed(parts, o) != map[] && Corner(Packed(parts, o)) == Position(0, 0)
  {
    var kx, ky := CornerAttained(parts[0]);
    PackedAt(parts, o, 0, kx);
    PackedAt(parts, o, 0, ky);
    BoundsFacts(parts[0], kx);
    assert parts[..0] == [];
    forall k | k in Packed(parts, o) ensures 0 <= Packed(parts, o)[k].x && 0 <= Packed(parts, o)[k].y {
      PackedAtLeastZero(parts, o, k);
    }
    CornerCharacterized(Packed(parts, o), Position(0, 0), kx, ky);
  }

  /** Where the corner of a component comes to lie: on a line with the others, behind what is packed before it. */
  lemma PackedCorner(parts: seq<Positions>, o: Orientation, corner: Position, i: nat)
    requires FullParts(parts) && |parts| > 1 && i < |parts|
    ensures var c := Corner(Restrict(Anchored(Arranged(parts, o), corner), parts[i].Keys));
            if o == Vertical then c == Position(corner.x + PackOffset(parts[..i], o), corner.y)
            else c == Position(corner.x, corner.y + PackOffset(parts[..i], o))
  {
    PackedFromZero(parts, o);
    var dx, dy := PartIsMoved(parts, o, corner, i);
    ShiftMoves(parts[i], dx, dy);
  }

  lemma Reach(part: Positions, o: Orientation) returns (x: string)
    requires part != map[]
    ensures x in part && part[x].x in Xs(part) && part[x].y in Ys(part)
    ensures Extent(part, o) == if o == Vertical then part[x].x + 420 - Corner(part).x else part[x].y + 180 - Corner(part).y
  {
    XsNotEmpty(part);
    if o == Vertical {
      x :| x in part && part[x].x == MaxOf(Xs(part));
    } else {
      x :| x in part && part[x].y == MaxOf(Ys(part));
    }
  }

  /** A component that is not the first stands just behind a node of the one before. */
  lemma PackedJustBehind(parts: seq<Positions>, o: Orientation, corner: Position, i: nat) returns (x: string)
    requires FullParts(parts) && 0 < i < |parts|
    ensures x in parts[i - 1]
    ensures var next := Anchored(Arranged(parts, o), corner);
            var c := Corner(Restrict(next, parts[i].Keys));
            && x in next
            && if o == Vertical then c.x == next[x].x + 420 + 100 else c.y == next[x].y + 180 + 280
  {
    var next := Anchored(Arranged(parts, o), corner);
    x := Reach(parts[i - 1], o);
    PackedCorner(parts, o, corner, i - 1);
    PackedCorner(parts, o, corner, i);
    var dx, dy := PartIsMoved(parts, o, corner, i - 1);
    ShiftMoves(parts[i - 1], dx, dy);
    assert parts[..i][..i - 1] == parts[..i - 1] && parts[..i][i - 1] == parts[i - 1];
    assert x in Shift(parts[i - 1], dx, dy);
    assert Restrict(next, parts[i - 1].Keys)[x] == next[x];
  }

  lemma OnlyPart(order: seq<string>, edges: seq<Edge>, pos: Positions, o: Orientation, engine: Engine)
    requires pos.Keys == Elements(order) && PlacesOnlyEndpoints(engine)
    requires |PlacedParts(order, edges, pos, o, engine)| == 1
    ensures PlacedParts(order, edges, pos, o, engine)[0].Keys == Elements(order)
  {
    ArrangedIsEverything(order, edges, pos, o, engine);
  }

  /** A place just behind a node that no path joins with v. */
  ghost predicate JustBehind(next: Positions, edges: seq<Edge>, v: string, c: Position, o: Orientation) {
    exists x :: && x in next && !Connected(edges, v, x)
                && if o == Vertical then c.x == next[x].x + 420 + 100 else c.y == next[x].y + 180 + 280
  }

  /** The corner of a component is on a line with the corner of the layout, and there or just behind another component. */
  ghost predicate InLine(next: Positions, edges: seq<Edge>, v: string, c: Position, corner: Position, o: Orientation) {
    && (if o == Vertical then c.y == corner.y else c.x == corner.x)
    && (c == corner || JustBehind(next, edges, v, c, o))
  }

  lemma PartInLine(parts: seq<Positions>, o: Orientation, corner: Position, i: nat) returns (x: string)
    requires FullParts(parts) && 1 < |parts| && i < |parts|
    ensures var next := Anchored(Arranged(parts, o), corner);
            var c := Corner(Restrict(next, parts[i].Keys));
            && (if o == Vertical then c.y == corner.y else c.x == corner.x)
            && (c != corner ==>
                  && x in next && x !in parts[i]
                  && if o == Vertical then c.x == next[x].x + 420 + 100 else c.y == next[x].y + 180 + 280)
  {
    PackedCorner(parts, o, corner, i);
    if i == 0 {
      assert parts[..0] == [];
      x := "";
    } else {
      x := PackedJustBehind(parts, o, corner, i);
    }
  }

  lemma SeveralInLine(parts: seq<Positions>, ids: set<string>, edges: seq<Edge>, o: Orientation, corner: Position,
                      v: string, i: nat)
    requires FullParts(parts) && 1 < |parts| && i < |parts| && parts[i].Keys == ClassOf(v, ids, edges)
    requires Anchored(Arranged(parts, o), corner).Keys == ids
    ensures var next := Anchored(Arranged(parts, o), corner);
            InLine(next, edges, v, Corner(Restrict(next, ClassOf(v, ids, edges))), corner, o)
  {
    var x := PartInLine(parts, o, corner, i);
    var next := Anchored(Arranged(parts, o), corner);
    var c := Corner(Restrict(next, parts[i].Keys));
    if c != corner {
      assert x in ids && x !in ClassOf(v, ids, edges);
      assert JustBehind(next, edges, v, c, o);
    }
  }

  lemma OneInLine(part: Positions, ids: set<string>, edges: seq<Edge>, o: Orientation, corner: Position, v: string)
    requires part != map[] && part.Keys == ids == ClassOf(v, ids, edges)
    ensures var next := Anchored(part, corner);
            InLine(next, edges, v, Corner(Restrict(next, ClassOf(v, ids, edges))), corner, o)
  {
    AnchoredCorner(part, corner);
    assert Restrict(Anchored(part, corner), ids) == Anchored(part, corner);
  }

  /** The components stand in a line, from the corner of the layout on, each just behind a node of another one. */
  lemma ComponentsInLine(order: seq<string>, edges: seq<Edge>, pos: Positions, o: Orientation, engine: Engine, v: string)
    requires pos.Keys == Elements(order) && PlacesOnlyEndpoints(engine) && v in order
    ensures var next := LayoutMap(order, edges, pos, o, engine);
            InLine(next, edges, v, Corner(Restrict(next, ClassOf(v, Elements(order), edges))), Corner(pos), o)
  {
    var parts := PlacedParts(order, edges, pos, o, engine);
    PlacedPartsFacts(order, edges, pos, o, engine);
    CornerStays(order, edges, pos, o, engine);
    assert FullParts(parts) && LayoutMap(order, edges, pos, o, engine) == Anchored(Arranged(parts, o), Corner(pos));
    var i := PartOfNode(order, edges, pos, o, v);
    if |parts| == 1 {
      OnlyPart(order, edges, pos, o, engine);
      OneInLine(parts[0], Elements(order), edges, o, Corner(pos), v);
    } else {
      SeveralInLine(parts, Elements(order), edges, o, Corner(pos), v, i);
    }
  }

  // ----- their order -----

  /** The components are listed by the first of their nodes. */
  lemma {:induction false} ComponentsByFirstNode(order: seq<string>, ids: set<string>, edges: seq<Edge>, k: nat,
                                                c: set<string>, d: set<string>)
    requires Elements(order) <= ids && k < |order| && order[k] in c
    requires c in Components(order, ids, edges) && d in Components(order, ids, edges)
    requires forall m :: 0 <= m <= k ==> order[m] !in d
    ensures Precedes(Components(order, ids, edges), c, d)
  {
    var n := |order| - 1;
    var front, v := order[..n], order[n];
    var earlier := Components(front, ids, edges);
    assert Elements(front) <= ids && v in Elements(order);
    ComponentsAreClasses(front, ids, edges);
    ComponentsAreClasses(order, ids, edges);
    ClassContains(v, ids, edges);
    PrecedesLast(earlier, c, ClassOf(v, ids, edges));
    if d in earlier {
      MemberInOrder(front, ids, edges, d);
      assert k < n && order[k] == front[k];
      OwnClassListed(front, ids, edges, k, c);
      ComponentsByFirstNode(front, ids, edges, k, c, d);
    }
  }

  lemma {:induction false} MemberInOrder(order: seq<string>, ids: set<string>, edges: seq<Edge>, d: set<string>)
    requires Elements(order) <= ids && d in Components(order, ids, edges)
    ensures exists m :: 0 <= m < |order| && order[m] in d
  {
    var n := |order| - 1;
    var earlier := Components(order[..n], ids, edges);
    assert Elements(order[..n]) <= ids && order[n] in Elements(order);
    if d in earlier {
      MemberInOrder(order[..n], ids, edges, d);
      var m :| 0 <= m < n && order[..n][m] in d;
      assert order[m] in d;
    } else {
      ClassContains(order[n], ids, edges);
    }
  }

  lemma OwnClassListed(order: seq<string>, ids: set<string>, edges: seq<Edge>, k: nat, c: set<string>)
    requires Elements(order) <= ids && k < |order| && order[k] in c && IsClass(c, ids, edges) && c <= ids
    ensures c in Components(order, ids, edges)
  {
    ComponentsAreClasses(order, ids, edges);
    assert order[k] in Elements(order);
    var e :| e in Components(order, ids, edges) && order[k] in e;
    ClassOfMember(c, ids, edges, order[k]);
    ClassOfMember(e, ids, edges, order[k]);
  }

  /** Where its corner is now, a component goes before another: along the packing axis, then across it. */
  ghost predicate GoesFirst(pos: Positions, c: set<string>, d: set<string>, o: Orientation) {
    var p, q := Corner(Restrict(pos, c)), Corner(Restrict(pos, d));
    if o == Vertical then p.x < q.x || (p.x == q.x && p.y < q.y) else p.y < q.y || (p.y == q.y && p.x < q.x)
  }

  /** A member of c is listed before every member of d. */
  ghost predicate MentionedFirst(order: seq<string>, c: set<string>, d: set<string>) {
    exists k :: 0 <= k < |order| && order[k] in c && forall m :: 0 <= m <= k ==> order[m] !in d
  }

  /** Both corners are at the same place, and the first node of c is listed before every node of d. */
  ghost predicate ListedFirst(order: seq<string>, pos: Positions, c: set<string>, d: set<string>) {
    Corner(Restrict(pos, c)) == Corner(Restrict(pos, d)) && MentionedFirst(order, c, d)
  }

  lemma MentionedInFront(order: seq<string>, front: seq<string>, c: set<string>, d: set<string>)
    requires front <= order && MentionedFirst(front, c, d)
    ensures MentionedFirst(order, c, d)
  {
    var k :| 0 <= k < |front| && front[k] in c && forall m :: 0 <= m <= k ==> front[m] !in d;
    assert order[k] == front[k];
  }

  lemma LastMentioned(front: seq<string>, x: string, c: set<string>, d: set<string>)
    requires x in c && forall y :: y in front + [x] ==> y !in d
    ensures MentionedFirst(front + [x], c, d)
  {
    assert (front + [x])[|front|] == x;
  }

  /** What is mentioned first among all is so among those selected. */
  lemma {:induction false} SelectedMentionedFirst(ids: seq<string>, selected: set<string>, c: set<string>, d: set<string>)
    requires c <= selected && MentionedFirst(ids, c, d)
    ensures MentionedFirst(Select(ids, selected), c, d)
    decreases |ids|
  {
    var n := |ids| - 1;
    var front, x := ids[..n], ids[n];
    var k :| 0 <= k < |ids| && ids[k] in c && forall m :: 0 <= m <= k ==> ids[m] !in d;
    if k < n {
      assert front[k] == ids[k];
      SelectedMentionedFirst(front, selected, c, d);
      MentionedInFront(Select(ids, selected), Select(front, selected), c, d);
    } else {
      LastMentioned(Select(front, selected), x, c, d);
    }
  }

  lemma IdsInFront(nodes: seq<Node>)
    requires nodes != []
    ensures IdSeq(nodes)[..|nodes| - 1] == IdSeq(nodes[..|nodes| - 1])
    ensures forall n :: n in nodes[..|nodes| - 1] ==> n in nodes
  {
  }

  /** The IDs of the canvas are those of its nodes, in their order, without blank ones. */
  lemma {:induction false} FlowIsSelected(nodes: seq<Node>, ids: set<string>)
    requires "" !in ids && forall n :: n in nodes && n.id != "" ==> n.id in ids
    ensures FlowIds(nodes) == Select(IdSeq(nodes), ids)
    decreases |nodes|
  {
    if nodes != [] {
      IdsInFront(nodes);
      assert nodes[|nodes| - 1] in nodes;
      FlowIsSelected(nodes[..|nodes| - 1], ids);
    }
  }

  lemma FlowMentionedFirst(nodes: seq<Node>, c: set<string>, d: set<string>)
    requires c <= Elements(FlowIds(nodes)) && MentionedFirst(IdSeq(nodes), c, d)
    ensures MentionedFirst(FlowIds(nodes), c, d)
  {
    var ids := Elements(FlowIds(nodes));
    FlowIsSelected(nodes, ids);
    SelectedMentionedFirst(IdSeq(nodes), ids, c, d);
  }

  lemma ScopeIsSelected(nodes: seq<Node>, edges: seq<Edge>, config: Config)
    ensures var scoped, flow := ScopedIds(nodes, edges, config).0, FlowIds(nodes);
            scoped == [] || scoped == flow || scoped == Select(flow, ConnectedToSeeds(config.nodeIds, flow, edges))
  {
  }

  lemma ScopeMentionedFirst(nodes: seq<Node>, edges: seq<Edge>, config: Config, c: set<string>, d: set<string>)
    requires c != {} && c <= ScopeOf(nodes, edges, config) && MentionedFirst(IdSeq(nodes), c, d)
    ensures MentionedFirst(ScopedIds(nodes, edges, config).0, c, d)
  {
    var scoped, flow := ScopedIds(nodes, edges, config).0, FlowIds(nodes);
    ScopeIsSelected(nodes, edges, config);
    assert c <= Elements(scoped) && Elements(scoped) <= Elements(flow);
    FlowMentionedFirst(nodes, c, d);
    if scoped != flow {
      SelectedMentionedFirst(flow, ConnectedToSeeds(config.nodeIds, flow, edges), c, d);
    }
  }

  lemma StrictInOrder(comps: seq<set<string>>, pos: Positions, o: Orientation, i: nat, j: nat)
    requires i < |SortedParts(comps, pos, o)| && j < |SortedParts(comps, pos, o)|
    requires PartBefore(SortedParts(comps, pos, o)[i], SortedParts(comps, pos, o)[j], pos, o)
    ensures i < j
  {
    var before := (a, b) => PartBefore(a, b, pos, o);
    var all := set x | x in comps;
    PartOrder(all, pos, o);
    StableSortOrders(all, comps, before);
    assert Ordered(SortedParts(comps, pos, o), before);
  }

  lemma TiesInOrder(comps: seq<set<string>>, pos: Positions, o: Orientation, i: nat, j: nat)
    requires i < |SortedParts(comps, pos, o)| && j < |SortedParts(comps, pos, o)|
    requires Distinct(SortedParts(comps, pos, o))
    requires var c, d := SortedParts(comps, pos, o)[i], SortedParts(comps, pos, o)[j];
             Precedes(comps, c, d) && !PartBefore(d, c, pos, o)
    ensures i < j
  {
    var sorted := SortedParts(comps, pos, o);
    StableSortIsStable(comps, (a, b) => PartBefore(a, b, pos, o), sorted[i], sorted[j]);
    var i', j' :| 0 <= i' < j' < |sorted| && sorted[i'] == sorted[i] && sorted[j'] == sorted[j];
  }

  lemma PartsInOrder(order: seq<string>, edges: seq<Edge>, pos: Positions, o: Orientation, i: nat, j: nat)
    requires var sorted := SortedParts(Components(order, Elements(order), edges), pos, o);
             && i < |sorted| && j < |sorted|
             && (GoesFirst(pos, sorted[i], sorted[j], o) || ListedFirst(order, pos, sorted[i], sorted[j]))
    ensures i < j
  {
    var comps := Components(order, Elements(order), edges);
    var sorted := SortedParts(comps, pos, o);
    var c, d := sorted[i], sorted[j];
    SortedPartsFacts(order, edges, pos, o);
    assert c in sorted && d in sorted;
    if GoesFirst(pos, c, d, o) {
      StrictInOrder(comps, pos, o, i, j);
    } else {
      var k :| 0 <= k < |order| && order[k] in c && forall m :: 0 <= m <= k ==> order[m] !in d;
      ComponentsByFirstNode(order, Elements(order), edges, k, c, d);
      DisjointAreDistinct(sorted);
      TiesInOrder(comps, pos, o, i, j);
    }
  }

  lemma DisjointAreDistinct(sets: seq<set<string>>)
    requires forall c :: c in sets ==> c != {}
    requires forall i, j :: 0 <= i < j < |sets| ==> sets[i] !! sets[j]
    ensures Distinct(sets)
  {
    forall i, j | 0 <= i < j < |sets| ensures sets[i] != sets[j] {
      assert sets[i] in sets && sets[i] != {};
      var x :| x in sets[i];
      assert x !in sets[j];
    }
  }

  /** Components keep the order in which they stand, and their boxes stay at least the gap apart. */
  lemma ComponentsKeepOrder(order: seq<string>, edges: seq<Edge>, pos: Positions, o: Orientation, engine: Engine,
                            u: string, v: string)
    requires pos.Keys == Elements(order) && PlacesOnlyEndpoints(engine)
    requires u in order && v in order && !Connected(edges, u, v)
    requires var c, d := ClassOf(u, Elements(order), edges), ClassOf(v, Elements(order), edges);
             GoesFirst(pos, c, d, o) || ListedFirst(order, pos, c, d)
    ensures var next := LayoutMap(order, edges, pos, o, engine);
            && u in next && v in next
            && if o == Vertical then next[v].x >= next[u].x + 420 + 100 else next[v].y >= next[u].y + 180 + 280
  {
    var parts := PlacedParts(order, edges, pos, o, engine);
    PlacedPartsFacts(order, edges, pos, o, engine);
    var i := PartOfNode(order, edges, pos, o, u);
    var j := PartOfNode(order, edges, pos, o, v);
    assert v !in ClassOf(u, Elements(order), edges);
    PartsInOrder(order, edges, pos, o, i, j);
    PackedApart(parts, o, i, j, u, v);
  }

  // ----- on the nodes of a canvas -----

  /** Where the nodes with these IDs stand after a layout. */
  ghost function NewPositions(nodes: seq<Node>, edges: seq<Edge>, config: Config, o: Orientation, engine: Engine)
    : (next: Positions)
    requires PlacesOnlyEndpoints(engine) && LayeredLayout(nodes, edges, config, o, engine).Done?
    ensures next.Keys == ScopeOf(nodes, edges, config)
  {
    LaidOut(nodes, edges, config, o, engine);
    CurrentPositions(LayeredLayout(nodes, edges, config, o, engine).nodes, ScopeOf(nodes, edges, config))
  }

  ghost function ScopeOf(nodes: seq<Node>, edges: seq<Edge>, config: Config): (ids: set<string>)
    ensures ids <= NodeIds(nodes)
  {
    ScopedFacts(nodes, edges, config);
    Elements(ScopedIds(nodes, edges, config).0)
  }

  lemma LaidOut(nodes: seq<Node>, edges: seq<Edge>, config: Config, o: Orientation, engine: Engine)
    requires PlacesOnlyEndpoints(engine) && LayeredLayout(nodes, edges, config, o, engine).Done?
    ensures var after := LayeredLayout(nodes, edges, config, o, engine).nodes;
            var scoped, ids := ScopedIds(nodes, edges, config).0, ScopeOf(nodes, edges, config);
            && NodeIds(after) == NodeIds(nodes)
            && (scoped != [] ==>
                  CurrentPositions(after, ids) == LayoutMap(scoped, Within(edges, ids), CurrentPositions(nodes, ids), o, engine))
  {
    var (scoped, outcome) := ScopedIds(nodes, edges, config);
    ScopedFacts(nodes, edges, config);
    if scoped != [] {
      var ids := Elements(scoped);
      CornerStays(scoped, Within(edges, ids), CurrentPositions(nodes, ids), o, engine);
      AppliedPositionsAreCurrent(nodes, LayoutMap(scoped, Within(edges, ids), CurrentPositions(nodes, ids), o, engine));
    }
  }

  /** Laid-out nodes of one component that the engine places stand as far apart as it places them. */
  lemma LayoutKeepsEngineDistances(nodes: seq<Node>, edges: seq<Edge>, config: Config, o: Orientation, engine: Engine,
                                   u: string, v: string, es: seq<(string, string)>)
    requires PlacesOnlyEndpoints(engine) && LayeredLayout(nodes, edges, config, o, engine).Done?
    requires var ids := ScopeOf(nodes, edges, config);
             && u in ids && v in ids && Connected(Within(edges, ids), u, v)
             && AskedFor(es, ClassOf(u, ids, Within(edges, ids)), Within(edges, ids))
    requires u in engine(es, o) && v in engine(es, o)
    ensures var next := NewPositions(nodes, edges, config, o, engine);
            && next[u].x - next[v].x == engine(es, o)[u].x - engine(es, o)[v].x
            && next[u].y - next[v].y == engine(es, o)[u].y - engine(es, o)[v].y
  {
    var ids := ScopeOf(nodes, edges, config);
    LaidOut(nodes, edges, config, o, engine);
    EngineDistances(ScopedIds(nodes, edges, config).0, Within(edges, ids), CurrentPositions(nodes, ids), o, engine, u, v, es);
  }

  /** The nodes of a component that the engine leaves out stand in a column below all that it places: 360 apart, in the
      order of where they stood, and where the engine's X is 0. */
  lemma LayoutPutsRestInColumn(nodes: seq<Node>, edges: seq<Edge>, config: Config, o: Orientation, engine: Engine,
                               u: string, v: string, es: seq<(string, string)>)
    requires PlacesOnlyEndpoints(engine) && LayeredLayout(nodes, edges, config, o, engine).Done?
    requires var ids := ScopeOf(nodes, edges, config);
             && u in ids && v in ids && Connected(Within(edges, ids), u, v)
             && AskedFor(es, ClassOf(u, ids, Within(edges, ids)), Within(edges, ids))
    requires v !in engine(es, o)
    ensures var ids := ScopeOf(nodes, edges, config);
            var pos, next := CurrentPositions(nodes, ids), NewPositions(nodes, edges, config, o, engine);
            InColumn(next, pos, ClassOf(u, ids, Within(edges, ids)), engine(es, o), u, v)
  {
    var ids := ScopeOf(nodes, edges, config);
    LaidOut(nodes, edges, config, o, engine);
    LeftOutColumn(ScopedIds(nodes, edges, config).0, Within(edges, ids), CurrentPositions(nodes, ids), o, engine, u, v, es);
  }

  /** The components stand in a line from the corner on, with gaps of 100 or 280 between them and without any more room. */
  lemma LayoutPacksComponents(nodes: seq<Node>, edges: seq<Edge>, config: Config, o: Orientation, engine: Engine, v: string)
    requires PlacesOnlyEndpoints(engine) && LayeredLayout(nodes, edges, config, o, engine).Done?
    requires v in ScopeOf(nodes, edges, config)
    ensures var ids := ScopeOf(nodes, edges, config);
            var pos, next := CurrentPositions(nodes, ids), NewPositions(nodes, edges, config, o, engine);
            InLine(next, Within(edges, ids), v, Corner(Restrict(next, ClassOf(v, ids, Within(edges, ids)))), Corner(pos), o)
  {
    var ids := ScopeOf(nodes, edges, config);
    LaidOut(nodes, edges, config, o, engine);
    ComponentsInLine(ScopedIds(nodes, edges, config).0, Within(edges, ids), CurrentPositions(nodes, ids), o, engine, v);
  }

  /** The components keep the order in which they stood. */
  lemma LayoutKeepsOrder(nodes: seq<Node>, edges: seq<Edge>, config: Config, o: Orientation, engine: Engine,
                         u: string, v: string)
    requires PlacesOnlyEndpoints(engine) && LayeredLayout(nodes, edges, config, o, engine).Done?
    requires var ids := ScopeOf(nodes, edges, config);
             var c, d := ClassOf(u, ids, Within(edges, ids)), ClassOf(v, ids, Within(edges, ids));
             var pos := CurrentPositions(nodes, ids);
             && u in ids && v in ids && !Connected(Within(edges, ids), u, v)
             && (GoesFirst(pos, c, d, o) || ListedFirst(IdSeq(nodes), pos, c, d))
    ensures var next := NewPositions(nodes, edges, config, o, engine);
            if o == Vertical then next[v].x >= next[u].x + 420 + 100 else next[v].y >= next[u].y + 180 + 280
  {
    var ids := ScopeOf(nodes, edges, config);
    var c, d := ClassOf(u, ids, Within(edges, ids)), ClassOf(v, ids, Within(edges, ids));
    LaidOut(nodes, edges, config, o, engine);
    if MentionedFirst(IdSeq(nodes), c, d) {
      ScopeMentionedFirst(nodes, edges, config, c, d);
    }
    ComponentsKeepOrder(ScopedIds(nodes, edges, config).0, Within(edges, ids), CurrentPositions(nodes, ids), o, engine, u, v);
  }

  // ----- what is laid out, and the errors -----

  /** A seed that is not the ID of a node, and before which all are. */
  predicate IsFirstUnknown(config: Config, known: set<string>, id: string) {
    exists k :: && 0 <= k < |config.nodeIds| && config.nodeIds[k] == id && id !in known
                && forall m :: 0 <= m < k ==> config.nodeIds[m] in known
  }

  lemma {:induction false} FirstUnknownIs(ids: seq<string>, known: set<string>)
    ensures FirstUnknown(ids, known).Done? || IsFirstUnknown(Config(Unspecified, ids), known, FirstUnknown(ids, known).id)
  {
    if ids != [] {
      if ids[0] in known {
        FirstUnknownIs(ids[1..], known);
        if !FirstUnknown(ids[1..], known).Done? {
          var id := FirstUnknown(ids[1..], known).id;
          var k :| && 0 <= k < |ids[1..]| && ids[1..][k] == id && id !in known
                   && forall m :: 0 <= m < k ==> ids[1..][m] in known;
          assert ids[k + 1] == id && forall m :: 0 < m <= k ==> ids[m] == ids[1..][m - 1];
        }
      } else {
        assert ids[0] == ids[0];
      }
    }
  }

  lemma FlowIsKnown(nodes: seq<Node>)
    ensures Elements(FlowIds(nodes)) == NodeIds(nodes) - {""}
    ensures FlowIds(nodes) == [] <==> NodeIds(nodes) - {""} == {}
  {
    var flow := FlowIds(nodes);
    assert flow != [] ==> flow[0] in Elements(flow);
  }

  /** Without nodes that have an ID nothing happens. Otherwise the first unknown seed is the error, and then the scope. */
  lemma LayoutFailsIff(nodes: seq<Node>, edges: seq<Edge>, config: Config, o: Orientation, engine: Engine)
    requires PlacesOnlyEndpoints(engine)
    ensures var known := NodeIds(nodes) - {""};
            var outcome := LayeredLayout(nodes, edges, config, o, engine);
            && (known == {} ==> outcome == Done(nodes))
            && (known != {} ==>
                  && (outcome.UnknownNode? <==> exists id :: id in config.nodeIds && id !in known)
                  && (outcome.UnknownNode? ==> IsFirstUnknown(config, known, outcome.id))
                  && (outcome.UnsupportedScope? <==> !outcome.UnknownNode? && config.scope.OtherScope?)
                  && (outcome.UnsupportedScope? ==> outcome.name == config.scope.name))
  {
    var outcome := LayeredLayout(nodes, edges, config, o, engine);
    FlowIsKnown(nodes);
    FirstUnknownIs(config.nodeIds, NodeIds(nodes) - {""});
    if ScopedIds(nodes, edges, config).0 == [] {
      assert outcome == ScopedIds(nodes, edges, config).1;
    }
  }

  lemma ScopeIfDone(nodes: seq<Node>, edges: seq<Edge>, config: Config, o: Orientation, engine: Engine)
    requires PlacesOnlyEndpoints(engine) && LayeredLayout(nodes, edges, config, o, engine).Done?
    ensures ScopedIds(nodes, edges, config).0
            == if FlowIds(nodes) == [] then []
               else if config.scope == FullCanvas || config.nodeIds == [] then FlowIds(nodes)
               else ScopeOfSeeds(config.nodeIds, FlowIds(nodes), edges)
  {
    LayoutFailsIff(nodes, edges, config, o, engine);
    FlowIsKnown(nodes);
  }

  /** Nodes without an ID are never laid out. All others are for the whole canvas or without seeds, and otherwise those that
      are connected to a seed. */
  lemma ScopeIs(nodes: seq<Node>, edges: seq<Edge>, config: Config, o: Orientation, engine: Engine, id: string)
    requires PlacesOnlyEndpoints(engine) && LayeredLayout(nodes, edges, config, o, engine).Done?
    ensures var known := NodeIds(nodes) - {""};
            id in ScopeOf(nodes, edges, config)
            <==> && id in known
                 && (|| config.scope == FullCanvas || config.nodeIds == []
                     || exists s :: s in config.nodeIds && Connected(Within(edges, known), s, id))
  {
    var flow := FlowIds(nodes);
    ScopeIfDone(nodes, edges, config, o, engine);
    FlowIsKnown(nodes);
    assert id in flow <==> id in NodeIds(nodes) - {""};
    if config.nodeIds != [] {
      SeedsReach(config.nodeIds, flow, edges, id);
    }
  }

  lemma SeedsReach(seeds: seq<string>, flow: seq<string>, edges: seq<Edge>, id: string)
    requires seeds != []
    ensures id in ScopeOfSeeds(seeds, flow, edges)
            <==> id in flow && exists s :: s in seeds && Connected(Within(edges, Elements(flow)), s, id)
  {
    if id in ConnectedToSeeds(seeds, flow, edges) {
      var s :| s in Elements(seeds) && Reaches(Links(Within(edges, Elements(flow))), s, id);
      assert s in seeds && Connected(Within(edges, Elements(flow)), s, id);
    }
    if s :| s in seeds && Connected(Within(edges, Elements(flow)), s, id) {
      assert s in Elements(seeds);
    }
  }
}
