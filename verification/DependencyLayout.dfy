/**
 The automatic layout of the dependency page: resolved services stand in the layer of their depth, all others share
 one last layer, each layer is laid out on a line, and the selected service is moved to the origin.
 */
module DependencyLayout {
  import opened Common
  import opened DependencyGraph
  import opened DependencyWorklist
  import opened LayerGrid

  /** One more than the greatest number of edges that a walk through open services can have. */
  ghost predicate LastLayer(g: Graph, last: int) {
    && (exists v :: v in g && LongestThrough(g, Open(g), v, last - 1))
    && (forall v, d :: v in g && LongestThrough(g, Open(g), v, d) ==> d < last)
  }

  /** Resolved services stand in the layer of their longest dependency path, all others in one last layer. */
  ghost predicate Layered(g: Graph, layer: map<Id, int>) {
    && layer.Keys == g.Keys
    && (forall v :: v in g && !Blocked(g, v) ==> LongestPath(g, v, layer[v]))
    && (forall v :: v in g && Blocked(g, v) ==> LastLayer(g, layer[v]))
  }

  lemma LongestUnique(g: Graph, through: set<Id>, v: Id, d: int, e: int)
    requires LongestThrough(g, through, v, d) && LongestThrough(g, through, v, e)
    ensures d == e
  {
  }

  lemma LastLayerUnique(g: Graph, l: int, m: int)
    requires LastLayer(g, l) && LastLayer(g, m)
    ensures l == m
  {
    hide LongestThrough;
  }

  /** The layering is determined by the graph alone. */
  lemma LayeredUnique(g: Graph, a: map<Id, int>, b: map<Id, int>)
    requires Layered(g, a) && Layered(g, b)
    ensures a == b
  {
    hide LongestThrough, LastLayer, Blocked;
    forall v | v in g
      ensures a[v] == b[v]
    {
      if Blocked(g, v) {
        LastLayerUnique(g, a[v], b[v]);
      } else {
        LongestUnique(g, g.Keys, v, a[v], b[v]);
      }
    }
  }

  method MaxDepth(services: seq<Service>, depth: map<Id, int>) returns (m: int)
    requires services != [] && forall i :: 0 <= i < |services| ==> services[i].id in depth
    ensures exists i :: 0 <= i < |services| && depth[services[i].id] == m
    ensures forall i :: 0 <= i < |services| ==> depth[services[i].id] <= m
  {
    m := depth[services[0].id];
    for k := 1 to |services|
      invariant exists i :: 0 <= i < k && depth[services[i].id] == m
      invariant forall i :: 0 <= i < k ==> depth[services[i].id] <= m
    {
      m := Max(m, depth[services[k].id]);
    }
  }

  /** Moves every service that still waits for an entry into the layer after `maxDepth`. */
  method PushUnresolved(services: seq<Service>, incoming: map<Id, int>, depth: map<Id, int>, maxDepth: int)
    returns (layer: map<Id, int>)
    requires forall i :: 0 <= i < |services| ==> services[i].id in depth && services[i].id in incoming
    requires forall v :: v in depth ==> exists i :: 0 <= i < |services| && services[i].id == v
    ensures layer.Keys == depth.Keys <= incoming.Keys
    ensures forall v :: v in depth ==> layer[v] == if incoming[v] > 0 then maxDepth + 1 else depth[v]
  {
    layer := depth;
    for k := 0 to |services|
      invariant layer.Keys == depth.Keys
      invariant forall i :: 0 <= i < k ==>
        layer[services[i].id] == if incoming[services[i].id] > 0 then maxDepth + 1 else depth[services[i].id]
      invariant forall v :: v in depth ==> layer[v] == depth[v] || (incoming[v] > 0 && layer[v] == maxDepth + 1)
    {
      if incoming[services[k].id] > 0 {
        layer := layer[services[k].id := maxDepth + 1];
      }
    }
  }

  lemma LayersCorrect(g: Graph, incoming: map<Id, int>, depth: map<Id, int>, dequeued: set<Id>, maxDepth: int,
                      layer: map<Id, int>)
    requires Worklist(g, [], incoming, depth, dequeued, dequeued)
    requires layer.Keys == depth.Keys <= incoming.Keys
    requires exists v :: v in depth && depth[v] == maxDepth
    requires forall v :: v in depth ==> depth[v] <= maxDepth
    requires forall v :: v in depth ==> layer[v] == if incoming[v] > 0 then maxDepth + 1 else depth[v]
    ensures Layered(g, layer)
    ensures forall v :: v in layer ==> 0 <= layer[v] <= maxDepth + 1
  {
    hide Blocked, Worklist, LongestThrough, Ranked, HeldBack, DepthWitnessed, DepthGrows, Open;
    OpenIsProcessed(g, incoming, depth, dequeued);
    DepthDomain(g, incoming, depth, dequeued);
    SettledRanked(g, incoming, depth, dequeued);
    forall v | v in g
      ensures LongestThrough(g, Open(g), v, depth[v])
    {
      DepthIsLongest(g, depth, dequeued - {EMPTY_ID}, v);
    }
    forall v, d | v in g && LongestThrough(g, Open(g), v, d)
      ensures d == depth[v]
    {
      LongestUnique(g, Open(g), v, d, depth[v]);
    }
    forall v | v in g && !Blocked(g, v)
      ensures LongestPath(g, v, layer[v])
    {
      ResolvedLongest(g, depth, dequeued, v);
    }
    assert LastLayer(g, maxDepth + 1);
  }

  /**
   Reading the layout: an edge out of a resolved service leads to a strictly later layer; an edge out of an
   unresolved one leads to an unresolved one, in the same layer; every resolved service comes before that layer.
   */
  lemma EdgesAcrossLayers(g: Graph, layer: map<Id, int>, u: Id, v: Id)
    requires Layered(g, layer) && u in g && v in g
    ensures Edge(g, u, v) && !Blocked(g, u) ==> layer[u] < layer[v]
    ensures Edge(g, u, v) && Blocked(g, u) ==> Blocked(g, v)
    ensures Blocked(g, u) && Blocked(g, v) ==> layer[u] == layer[v]
    ensures !Blocked(g, u) && Blocked(g, v) ==> layer[u] < layer[v]
  {
    hide LastLayer;
    if Blocked(g, u) {
      if Edge(g, u, v) {
        BlockedSpreads(g, u, v);
      }
      if Blocked(g, v) {
        LastLayerUnique(g, layer[u], layer[v]);
      }
    } else if Blocked(g, v) {
      ResolvedBeforeLast(g, u, layer[u], layer[v]);
    } else if Edge(g, u, v) {
      PathExtends(g, u, v, layer[u], layer[v]);
    }
  }

  lemma BlockedSpreads(g: Graph, u: Id, v: Id)
    requires Blocked(g, u) && Edge(g, u, v)
    ensures Blocked(g, v)
  {
    hide Walk, Obstacle;
    var p :| Walk(g, p) && |p| > 1 && p[|p| - 1] == u && Obstacle(g, p[0]);
    WalkExtend(g, p, v);
    assert (p + [v])[0] == p[0];
  }

  lemma ResolvedBeforeLast(g: Graph, u: Id, d: int, last: int)
    requires u in g && !Blocked(g, u) && LongestPath(g, u, d) && LastLayer(g, last)
    ensures d < last
  {
    hide Blocked;
    var p :| WalkTo(g, g.Keys, u, p) && |p| - 1 == d;
    forall i | 0 <= i < |p| - 1
      ensures p[i] in Open(g)
    {
      BlockedAlong(g, p, i);
    }
    forall q | WalkTo(g, Open(g), u, q)
      ensures WalkTo(g, g.Keys, u, q)
    {
    }
    assert WalkTo(g, Open(g), u, p);
    assert LongestThrough(g, Open(g), u, d);
  }

  /** A service on a walk to an unblocked service is open. */
  lemma {:induction false} BlockedAlong(g: Graph, p: seq<Id>, i: nat)
    requires Walk(g, p) && i < |p| - 1 && !Blocked(g, p[|p| - 1])
    ensures p[i] in Open(g)
    decreases |p| - i
  {
    hide Blocked;
    assert Edge(g, p[i], p[i + 1]);
    if i + 1 < |p| - 1 {
      BlockedAlong(g, p, i + 1);
    }
    if Blocked(g, p[i]) {
      BlockedSpreads(g, p[i], p[i + 1]);
    }
    if p[i] == EMPTY_ID {
      EmptyIdBlocks(g, p[i], p[i + 1]);
    }
  }

  lemma EmptyIdBlocks(g: Graph, u: Id, v: Id)
    requires u == EMPTY_ID && Edge(g, u, v)
    ensures Blocked(g, v)
  {
    assert Walk(g, [u, v]);
  }

  lemma PathExtends(g: Graph, u: Id, v: Id, d: int, e: int)
    requires Edge(g, u, v) && LongestPath(g, u, d) && LongestPath(g, v, e)
    ensures d < e
  {
    var p :| WalkTo(g, g.Keys, u, p) && |p| - 1 == d;
    WalkExtend(g, p, v);
    WalkInside(g, p + [v]);
    assert WalkTo(g, g.Keys, v, p + [v]);
  }

  /** The layout moved so that the selected service, if it is placed, stands at the origin. */
  ghost predicate Moved(before: map<Id, Position>, selected: Option<Id>, after: map<Id, Position>) {
    && after.Keys == before.Keys
    && (if selected.Some? && selected.value in before then
          forall v :: v in before ==>
            after[v] == Position(before[v].x - before[selected.value].x, before[v].y - before[selected.value].y)
        else after == before)
  }

  method MoveToOrigin(before: map<Id, Position>, selected: Id) returns (after: map<Id, Position>)
    requires selected in before
    ensures Moved(before, Some(selected), after)
  {
    var shiftX, shiftY := before[selected].x, before[selected].y;
    after := before;
    var ids := before.Keys;
    while ids != {}
      invariant ids <= before.Keys == after.Keys
      invariant forall v :: v in before ==>
        after[v] == if v in ids then before[v] else Position(before[v].x - shiftX, before[v].y - shiftY)
    {
      var id :| id in ids;
      after := after[id := Position(after[id].x - shiftX, after[id].y - shiftY)];
      ids := ids - {id};
    }
  }

  lemma MovedOrNot(before: map<Id, Position>, selected: Option<Id>, after: map<Id, Position>)
    requires if selected.Some? && selected.value in before then Moved(before, Some(selected.value), after)
             else after == before
    ensures Moved(before, selected, after)
  {
  }

  lemma EmptyLayout(services: seq<Service>, le: Collation, orientation: Orientation)
    requires services == []
    ensures Layered(GraphOf(services), map[]) && Placed(services, map[], le, orientation, map[])
  {
  }

  lemma ServicesInGraph(services: seq<Service>, incoming: map<Id, int>, depth: map<Id, int>, dequeued: set<Id>)
    requires UniqueIds(services) && Worklist(GraphOf(services), [], incoming, depth, dequeued, dequeued)
    ensures depth.Keys == GraphOf(services).Keys == incoming.Keys && forall v :: v in depth ==> depth[v] >= 0
    ensures forall i :: 0 <= i < |services| ==> services[i].id in depth && services[i].id in incoming
    ensures forall v :: v in depth ==> exists i :: 0 <= i < |services| && services[i].id == v
  {
    hide Worklist, GraphOf;
    GraphOfUnique(services);
    DepthDomain(GraphOf(services), incoming, depth, dequeued);
  }

  /** The services, layered by the dependency graph, stand on their lines, moved to the selected service. */
  ghost predicate LaidOut(services: seq<Service>, orientation: Orientation, selected: Option<Id>, le: Collation,
                          positions: map<Id, Position>)
  {
    exists layer, grid ::
      && Layered(GraphOf(services), layer)
      && Placed(services, layer, le, orientation, grid)
      && Moved(grid, selected, positions)
  }

  lemma LaidOutBy(services: seq<Service>, orientation: Orientation, selected: Option<Id>, le: Collation,
                  positions: map<Id, Position>, layer: map<Id, int>, grid: map<Id, Position>)
    requires Layered(GraphOf(services), layer) && Placed(services, layer, le, orientation, grid)
    requires Moved(grid, selected, positions)
    ensures LaidOut(services, orientation, selected, le, positions)
  {
  }

  /** The whole layout. */
  method AutoLayout(services: seq<Service>, orientation: Orientation, selected: Option<Id>, le: Collation)
    returns (positions: map<Id, Position>)
    requires UniqueIds(services)
    ensures LaidOut(services, orientation, selected, le, positions)
  {
    hide *;
    ghost var g := GraphOf(services);
    if services == [] {
      EmptyLayout(services, le, orientation);
      positions := map[];
      MovedOrNot(positions, selected, positions);
      LaidOutBy(services, orientation, selected, le, positions, map[], positions);
      return;
    }
    var incoming, depth;
    ghost var order, dequeued;
    incoming, depth, order, dequeued := ResolveLayers(services);
    ServicesInGraph(services, incoming, depth, dequeued);
    var maxDepth := MaxDepth(services, depth);
    var layer := PushUnresolved(services, incoming, depth, maxDepth);
    forall v | v in depth
      ensures depth[v] <= maxDepth
    {
      var i :| 0 <= i < |services| && services[i].id == v;
    }
    LayersCorrect(g, incoming, depth, dequeued, maxDepth, layer);
    positions := PlaceLayers(services, layer, maxDepth + 2, le, orientation);
    ghost var grid := positions;
    if selected.Some? && selected.value in positions {
      positions := MoveToOrigin(positions, selected.value);
    }
    MovedOrNot(grid, selected, positions);
    LaidOutBy(services, orientation, selected, le, positions, layer, grid);
  }

  /** There is only one such layout, in whatever order the worklist took the services. */
  lemma LayoutUnique(services: seq<Service>, orientation: Orientation, selected: Option<Id>, le: Collation,
                     a: map<Id, Position>, b: map<Id, Position>)
    requires UniqueIds(services)
    requires LaidOut(services, orientation, selected, le, a) && LaidOut(services, orientation, selected, le, b)
    ensures a == b
  {
    hide GraphOf, UniqueIds, Placed, Moved;
    var layer, grid :| Layered(GraphOf(services), layer) && Placed(services, layer, le, orientation, grid)
      && Moved(grid, selected, a);
    var layer', grid' :| Layered(GraphOf(services), layer') && Placed(services, layer', le, orientation, grid')
      && Moved(grid', selected, b);
    LayeredUnique(GraphOf(services), layer, layer');
    PlacedUnique(services, layer, le, orientation, grid, grid');
    hide Layered;
    MovedUnique(grid, selected, a, b);
  }

  lemma MovedUnique(before: map<Id, Position>, selected: Option<Id>, a: map<Id, Position>, b: map<Id, Position>)
    requires Moved(before, selected, a) && Moved(before, selected, b)
    ensures a == b
  {
  }

  /** Moving a layout keeps the distance between any two services. */
  lemma MoveKeepsShape(before: map<Id, Position>, selected: Option<Id>, after: map<Id, Position>)
    requires Moved(before, selected, after)
    ensures after.Keys == before.Keys
    ensures forall u, v :: u in before && v in before ==>
      && after[u].x - after[v].x == before[u].x - before[v].x
      && after[u].y - after[v].y == before[u].y - before[v].y
    ensures selected.Some? && selected.value in after ==> after[selected.value] == Position(0.0, 0.0)
  {
  }

  /** What two services' places say about them. */
  ghost predicate Readable(g: Graph, orientation: Orientation, positions: map<Id, Position>, u: Id, v: Id)
    requires u in positions && v in positions
  {
    var before := Along(orientation, positions[u]) < Along(orientation, positions[v]);
    && (u != v ==> positions[u] != positions[v])
    && (Edge(g, u, v) && !Blocked(g, u) ==> before)
    && (Edge(g, u, v) && Blocked(g, u) ==> Blocked(g, v))
    && (!Blocked(g, u) && Blocked(g, v) ==> before)
    && (Blocked(g, u) && Blocked(g, v) ==> !before)
  }

  lemma GridReadable(services: seq<Service>, layer: map<Id, int>, le: Collation, orientation: Orientation,
                     grid: map<Id, Position>, u: Id, v: Id)
    requires UniqueIds(services) && Layered(GraphOf(services), layer)
    requires Placed(services, layer, le, orientation, grid) && u in grid && v in grid
    ensures Readable(GraphOf(services), orientation, grid, u, v)
  {
    var g := GraphOf(services);
    assert layer.Keys == g.Keys == grid.Keys;
    hide UniqueIds, GraphOf, Placed, Layered, Edge, Blocked, Along;
    if u != v {
      PositionsDistinct(services, layer, le, orientation, grid, u, v);
    }
    LayersApart(services, layer, le, orientation, grid, u, v);
    EdgesAcrossLayers(g, layer, u, v);
  }

  lemma MovedReadable(g: Graph, orientation: Orientation, before: map<Id, Position>, selected: Option<Id>,
                      after: map<Id, Position>, u: Id, v: Id)
    requires Moved(before, selected, after) && u in before && v in before && Readable(g, orientation, before, u, v)
    ensures u in after && v in after && Readable(g, orientation, after, u, v)
  {
    hide Edge, Blocked;
    MoveKeepsShape(before, selected, after);
    hide Moved;
    assert Along(orientation, after[u]) < Along(orientation, after[v])
           <==> Along(orientation, before[u]) < Along(orientation, before[v]);
    assert after[u] == after[v] ==> before[u].x - before[v].x == 0.0 && before[u].y - before[v].y == 0.0;
  }

  /**
   What the page shows: every service once, no two on one point, the selected one at the origin; each dependency before
   its dependents, except that the services on or behind a cycle share one last line.
   */
  lemma LayoutReadable(services: seq<Service>, orientation: Orientation, selected: Option<Id>, le: Collation,
                       positions: map<Id, Position>)
    requires UniqueIds(services) && LaidOut(services, orientation, selected, le, positions)
    ensures positions.Keys == GraphOf(services).Keys
    ensures forall u, v :: u in positions && v in positions ==>
      Readable(GraphOf(services), orientation, positions, u, v)
    ensures selected.Some? && selected.value in positions ==> positions[selected.value] == Position(0.0, 0.0)
  {
    var g := GraphOf(services);
    hide UniqueIds, GraphOf, PlacedLine, Readable, Moved;
    var layer, grid :| Layered(g, layer) && Placed(services, layer, le, orientation, grid)
      && Moved(grid, selected, positions);
    MoveKeepsShape(grid, selected, positions);
    assert layer.Keys == g.Keys == grid.Keys;
    hide Layered, Placed;
    forall u, v | u in positions && v in positions
      ensures Readable(g, orientation, positions, u, v)
    {
      GridReadable(services, layer, le, orientation, grid, u, v);
      MovedReadable(g, orientation, grid, selected, positions, u, v);
    }
  }

  lemma {:induction false} SumMoved(orientation: Orientation, before: map<Id, Position>, selected: Option<Id>,
                                    after: map<Id, Position>, ids: seq<Id>)
    requires Moved(before, selected, after) && selected.Some? && selected.value in before
    requires forall i :: 0 <= i < |ids| ==> ids[i] in before
    ensures forall i :: 0 <= i < |ids| ==> ids[i] in after
    ensures SumAcross(orientation, after, ids) ==
            SumAcross(orientation, before, ids) - |ids| as real * Across(orientation, before[selected.value])
  {
    if ids != [] {
      SumMoved(orientation, before, selected, after, ids[..|ids| - 1]);
    }
  }

  /**
   Symmetry: the services of every layer are centred on one common axis, which is zero unless the layout was moved to
   a selected service.
   */
  lemma LayoutCentred(services: seq<Service>, orientation: Orientation, selected: Option<Id>, le: Collation,
                      positions: map<Id, Position>)
    returns (layer: map<Id, int>, axis: real)
    requires UniqueIds(services) && LaidOut(services, orientation, selected, le, positions)
    ensures Layered(GraphOf(services), layer)
    ensures forall l :: CentredOn(services, layer, le, orientation, positions, l, axis)
    ensures !(selected.Some? && selected.value in GraphOf(services)) ==> axis == 0.0
  {
    hide UniqueIds, GraphOf, PlacedLine, CentredOn;
    var layer', grid :| Layered(GraphOf(services), layer') && Placed(services, layer', le, orientation, grid)
      && Moved(grid, selected, positions);
    layer := layer';
    var moved := selected.Some? && selected.value in grid;
    assert grid.Keys == GraphOf(services).Keys;
    axis := if moved then -Across(orientation, grid[selected.value]) else 0.0;
    hide Layered, Moved, Placed;
    forall l
      ensures CentredOn(services, layer, le, orientation, positions, l, axis)
    {
      LineMoved(services, layer, le, orientation, grid, selected, positions, l);
    }
  }

  /** The services of layer `l` stand centred on `axis`. */
  ghost predicate CentredOn(services: seq<Service>, layer: map<Id, int>, le: Collation, orientation: Orientation,
                            positions: map<Id, Position>, l: int, axis: real)
  {
    var line := SortedLayer(services, layer, le, l);
    && (forall i :: 0 <= i < |line| ==> line[i] in positions)
    && SumAcross(orientation, positions, line) == |line| as real * axis
  }

  lemma LineMoved(services: seq<Service>, layer: map<Id, int>, le: Collation, orientation: Orientation,
                  grid: map<Id, Position>, selected: Option<Id>, positions: map<Id, Position>, l: int)
    requires Placed(services, layer, le, orientation, grid) && Moved(grid, selected, positions)
    ensures CentredOn(services, layer, le, orientation, positions, l,
                      if selected.Some? && selected.value in grid then -Across(orientation, grid[selected.value])
                      else 0.0)
  {
    hide Placed, SortedLayer, SumAcross, Across, Moved;
    LayerCentred(services, layer, le, orientation, grid, l);
    var line := SortedLayer(services, layer, le, l);
    if selected.Some? && selected.value in grid {
      SumMoved(orientation, grid, selected, positions, line);
      NegatedProduct(|line| as real, Across(orientation, grid[selected.value]));
    } else {
      NotMoved(grid, selected, positions);
    }
  }

  lemma NegatedProduct(a: real, b: real)
    ensures 0.0 - a * b == a * -b
  {
  }

  lemma NotMoved(before: map<Id, Position>, selected: Option<Id>, after: map<Id, Position>)
    requires Moved(before, selected, after) && !(selected.Some? && selected.value in before)
    ensures after == before
  {
  }

  /**
   Distances in the finished layout: services of layers l and m stand (m - l) * 310 apart from left to right, or
   (m - l) * 190 from top to bottom; the services of a layer follow each other, in collation order, 130 or 250 apart;
   and layer 0 stands at 0 unless the layout was moved to a selected service.
   */
  lemma LayoutMeasured(services: seq<Service>, orientation: Orientation, selected: Option<Id>, le: Collation,
                       positions: map<Id, Position>)
    returns (layer: map<Id, int>)
    requires UniqueIds(services) && LaidOut(services, orientation, selected, le, positions)
    ensures Layered(GraphOf(services), layer) && positions.Keys == layer.Keys
    ensures forall u, v :: u in positions && v in positions ==>
      LayersMeasured(orientation, positions, u, layer[u], v, layer[v])
    ensures forall l :: LineMeasured(orientation, positions, SortedLayer(services, layer, le, l))
    ensures forall v :: v in positions && layer[v] == 0 && !(selected.Some? && selected.value in positions) ==>
      (if orientation.Horizontal? then positions[v].x == 0.0 else positions[v].y == 0.0)
  {
    hide UniqueIds, GraphOf, PlacedLine, Moved, LayersMeasured, LineMeasured, SortedLayer;
    var layer', grid :| Layered(GraphOf(services), layer') && Placed(services, layer', le, orientation, grid)
      && Moved(grid, selected, positions);
    layer := layer';
    assert layer.Keys == GraphOf(services).Keys == grid.Keys;
    MovedKeys(grid, selected, positions);
    hide Layered, Placed;
    forall u, v | u in positions && v in positions
      ensures LayersMeasured(orientation, positions, u, layer[u], v, layer[v])
    {
      PlacedMeasured(services, layer, le, orientation, grid, u, v);
      MovedLayersMeasured(orientation, grid, selected, positions, u, layer[u], v, layer[v]);
    }
    forall l
      ensures LineMeasured(orientation, positions, SortedLayer(services, layer, le, l))
    {
      PlacedLineMeasured(services, layer, le, orientation, grid, l);
      MovedLineMeasured(orientation, grid, selected, positions, SortedLayer(services, layer, le, l));
    }
    if !(selected.Some? && selected.value in positions) {
      NotMoved(grid, selected, positions);
      forall v | v in positions && layer[v] == 0
        ensures if orientation.Horizontal? then positions[v].x == 0.0 else positions[v].y == 0.0
      {
        PlacedMeasured(services, layer, le, orientation, grid, v, v);
      }
    }
  }

  lemma MovedKeys(before: map<Id, Position>, selected: Option<Id>, after: map<Id, Position>)
    requires Moved(before, selected, after)
    ensures after.Keys == before.Keys
  {
  }

  lemma MovedLayersMeasured(orientation: Orientation, before: map<Id, Position>, selected: Option<Id>,
                            after: map<Id, Position>, u: Id, l: int, v: Id, m: int)
    requires Moved(before, selected, after) && u in before && v in before
    requires LayersMeasured(orientation, before, u, l, v, m)
    ensures u in after && v in after && LayersMeasured(orientation, after, u, l, v, m)
  {
    MoveKeepsShape(before, selected, after);
    hide Moved;
  }

  lemma MovedLineMeasured(orientation: Orientation, before: map<Id, Position>, selected: Option<Id>,
                          after: map<Id, Position>, line: seq<Id>)
    requires Moved(before, selected, after) && LineMeasured(orientation, before, line)
    ensures LineMeasured(orientation, after, line)
  {
    MoveKeepsShape(before, selected, after);
    hide Moved;
  }
}
