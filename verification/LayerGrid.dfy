/**
 The grid of the dependency page: the services of one layer stand on one line, in collation order and centred
 on zero; the line's distance from the origin depends on the layer.
 */
module LayerGrid {
  import opened DependencyGraph

  datatype Orientation = Horizontal | Vertical
  datatype Position = Position(x: real, y: real)

  const LAYER_SPACING_X := 310.0
  const LAYER_SPACING_Y := 190.0
  const NODE_SPACING_X := 250.0
  const NODE_SPACING_Y := 130.0

  /** Does the first id come before the second, or tie with it, in the collation in use? */
  type Collation = (Id, Id) -> bool

  ghost predicate TotalPreorder(le: Collation) {
    && (forall a, b :: le(a, b) || le(b, a))
    && (forall a, b, c :: le(a, b) && le(b, c) ==> le(a, c))
  }

  ghost predicate SortedBy(ids: seq<Id>, le: Collation) {
    forall i, j :: 0 <= i < j < |ids| ==> le(ids[i], ids[j])
  }

  function InsertId(id: Id, ids: seq<Id>, le: Collation): (r: seq<Id>)
    ensures multiset(r) == multiset(ids) + multiset{id}
  {
    if ids == [] || le(ids[|ids| - 1], id) then ids + [id]
    else
      assert ids == ids[..|ids| - 1] + [ids[|ids| - 1]];
      InsertId(id, ids[..|ids| - 1], le) + [ids[|ids| - 1]]
  }

  /** A stable sort. */
  function SortIds(ids: seq<Id>, le: Collation): (r: seq<Id>)
    ensures multiset(r) == multiset(ids)
  {
    if ids == [] then []
    else
      assert ids == ids[..|ids| - 1] + [ids[|ids| - 1]];
      InsertId(ids[|ids| - 1], SortIds(ids[..|ids| - 1], le), le)
  }

  lemma {:induction false} InsertKeepsSorted(id: Id, ids: seq<Id>, le: Collation)
    requires TotalPreorder(le) && SortedBy(ids, le)
    ensures SortedBy(InsertId(id, ids, le), le)
  {
    if ids != [] && !le(ids[|ids| - 1], id) {
      var init, last := ids[..|ids| - 1], ids[|ids| - 1];
      InsertKeepsSorted(id, init, le);
      var r := InsertId(id, init, le);
      forall i | 0 <= i < |r|
        ensures le(r[i], last)
      {
        assert r[i] in multiset(r);
        assert r[i] == id || r[i] in init;
      }
    }
  }

  /** Sorting a layer arranges the same ids, repetitions included, in collation order. */
  lemma {:induction false} SortIdsSorts(ids: seq<Id>, le: Collation)
    requires TotalPreorder(le)
    ensures SortedBy(SortIds(ids, le), le) && multiset(SortIds(ids, le)) == multiset(ids)
  {
    if ids != [] {
      SortIdsSorts(ids[..|ids| - 1], le);
      InsertKeepsSorted(ids[|ids| - 1], SortIds(ids[..|ids| - 1], le), le);
    }
  }

  /** Where service number `index` of the `count` services of a layer stands. */
  function GridPoint(orientation: Orientation, layer: int, index: int, count: int): Position {
    var offset := index as real - (count - 1) as real / 2.0;
    match orientation
    case Horizontal => Position(layer as real * LAYER_SPACING_X, offset * NODE_SPACING_Y)
    case Vertical => Position(offset * NODE_SPACING_X, layer as real * LAYER_SPACING_Y)
  }

  /** The services of layer `l`, in the order in which they are listed. */
  function LayerIds(services: seq<Service>, layer: map<Id, int>, l: int): seq<Id> {
    if services == [] then []
    else
      var last := services[|services| - 1].id;
      LayerIds(services[..|services| - 1], layer, l) + (if last in layer && layer[last] == l then [last] else [])
  }

  function SortedLayer(services: seq<Service>, layer: map<Id, int>, le: Collation, l: int): seq<Id> {
    SortIds(LayerIds(services, layer, l), le)
  }

  ghost predicate Distinct(ids: seq<Id>) {
    forall v :: multiset(ids)[v] <= 1
  }

  lemma {:induction false} LayerIdsMembers(services: seq<Service>, layer: map<Id, int>, l: int, v: Id)
    ensures v in LayerIds(services, layer, l)
            <==> v in layer && layer[v] == l && exists i :: 0 <= i < |services| && services[i].id == v
  {
    if services != [] {
      var init := services[..|services| - 1];
      LayerIdsMembers(init, layer, l, v);
      if i :| 0 <= i < |services| && services[i].id == v {
        if i < |init| {
          assert init[i].id == v;
        }
      }
    }
  }

  lemma {:induction false} LayerIdsDistinct(services: seq<Service>, layer: map<Id, int>, l: int)
    requires UniqueIds(services)
    ensures Distinct(LayerIds(services, layer, l))
  {
    if services != [] {
      var init := services[..|services| - 1];
      LayerIdsDistinct(init, layer, l);
      LayerIdsMembers(init, layer, l, services[|services| - 1].id);
    }
  }

  lemma {:induction false} DistinctIndices(ids: seq<Id>, i: nat, j: nat)
    requires Distinct(ids) && i < j < |ids|
    ensures ids[i] != ids[j]
  {
    var init, last := ids[..|ids| - 1], ids[|ids| - 1];
    assert ids == init + [last];
    assert multiset(ids) == multiset(init) + multiset{last};
    if j < |init| {
      assert forall v :: multiset(init)[v] <= multiset(ids)[v];
      DistinctIndices(init, i, j);
    } else {
      assert init[i] in multiset(init);
      assert multiset(ids)[last] <= 1;
    }
  }

  /** What a sorted layer holds: exactly the listed services of that layer, each once. */
  lemma SortedLayerMembers(services: seq<Service>, layer: map<Id, int>, le: Collation, l: int)
    requires UniqueIds(services) && layer.Keys == GraphOf(services).Keys
    ensures forall v :: v in SortedLayer(services, layer, le, l) <==> v in layer && layer[v] == l
    ensures forall i, j :: 0 <= i < j < |SortedLayer(services, layer, le, l)| ==>
      SortedLayer(services, layer, le, l)[i] != SortedLayer(services, layer, le, l)[j]
  {
    var raw, sorted := LayerIds(services, layer, l), SortedLayer(services, layer, le, l);
    GraphOfUnique(services);
    forall v
      ensures v in sorted <==> v in layer && layer[v] == l
    {
      LayerIdsMembers(services, layer, l, v);
      assert v in multiset(sorted) <==> v in multiset(raw);
    }
    LayerIdsDistinct(services, layer, l);
    forall i, j | 0 <= i < j < |sorted|
      ensures sorted[i] != sorted[j]
    {
      DistinctIndices(sorted, i, j);
    }
  }

  /** The services of layer `l` stand where the grid puts them. */
  ghost predicate PlacedLine(services: seq<Service>, layer: map<Id, int>, le: Collation, orientation: Orientation,
                             pos: map<Id, Position>, l: int, n: nat)
  {
    var ids := SortedLayer(services, layer, le, l);
    forall i :: 0 <= i < |ids| && i < n ==>
      ids[i] in pos && pos[ids[i]] == GridPoint(orientation, l, i, |ids|)
  }

  ghost predicate Placed(services: seq<Service>, layer: map<Id, int>, le: Collation, orientation: Orientation,
                         pos: map<Id, Position>)
  {
    && pos.Keys == layer.Keys
    && (forall l :: PlacedLine(services, layer, le, orientation, pos, l, |SortedLayer(services, layer, le, l)|))
  }

  /** Lines below `top` are complete, of line `top` the first `n` services stand, and nothing else does. */
  ghost predicate PlacedBelow(services: seq<Service>, layer: map<Id, int>, le: Collation, orientation: Orientation,
                              pos: map<Id, Position>, top: int, n: nat)
  {
    && UniqueIds(services) && layer.Keys == GraphOf(services).Keys
    && (forall v :: v in layer ==> layer[v] >= 0)
    && (forall v :: v in pos ==> v in layer && layer[v] <= top)
    && (forall l :: l < top ==>
          PlacedLine(services, layer, le, orientation, pos, l, |SortedLayer(services, layer, le, l)|))
    && PlacedLine(services, layer, le, orientation, pos, top, n)
  }

  lemma PlaceOne(services: seq<Service>, layer: map<Id, int>, le: Collation, orientation: Orientation,
                 pos: map<Id, Position>, top: int, n: nat)
    requires PlacedBelow(services, layer, le, orientation, pos, top, n) && n < |SortedLayer(services, layer, le, top)|
    ensures var ids := SortedLayer(services, layer, le, top);
            PlacedBelow(services, layer, le, orientation, pos[ids[n] := GridPoint(orientation, top, n, |ids|)],
                        top, n + 1)
  {
    hide SortedLayer, GridPoint, UniqueIds, GraphOf;
    var ids := SortedLayer(services, layer, le, top);
    var pos' := pos[ids[n] := GridPoint(orientation, top, n, |ids|)];
    SortedLayerMembers(services, layer, le, top);
    assert ids[n] in ids;
    forall l | l < top
      ensures PlacedLine(services, layer, le, orientation, pos', l, |SortedLayer(services, layer, le, l)|)
    {
      var line := SortedLayer(services, layer, le, l);
      SortedLayerMembers(services, layer, le, l);
      assert PlacedLine(services, layer, le, orientation, pos, l, |line|);
      forall i | 0 <= i < |line|
        ensures line[i] != ids[n]
      {
        assert line[i] in line;
      }
    }
  }

  lemma PlaceNextLine(services: seq<Service>, layer: map<Id, int>, le: Collation, orientation: Orientation,
                      pos: map<Id, Position>, top: int)
    requires PlacedBelow(services, layer, le, orientation, pos, top, |SortedLayer(services, layer, le, top)|)
    ensures PlacedBelow(services, layer, le, orientation, pos, top + 1, 0)
  {
    hide SortedLayer, GridPoint, UniqueIds, GraphOf;
  }

  lemma HeadIsMember(line: seq<Id>)
    ensures line == [] || line[0] in line
  {
  }

  lemma PlacedAll(services: seq<Service>, layer: map<Id, int>, le: Collation, orientation: Orientation,
                  pos: map<Id, Position>, top: int)
    requires PlacedBelow(services, layer, le, orientation, pos, top, 0)
    requires forall v :: v in layer ==> layer[v] < top
    ensures Placed(services, layer, le, orientation, pos)
  {
    hide SortedLayer, GridPoint, UniqueIds, GraphOf;
    forall v | v in layer
      ensures v in pos
    {
      var line := SortedLayer(services, layer, le, layer[v]);
      SortedLayerMembers(services, layer, le, layer[v]);
      assert PlacedLine(services, layer, le, orientation, pos, layer[v], |line|);
      var i :| 0 <= i < |line| && line[i] == v;
    }
    forall l | l >= top
      ensures SortedLayer(services, layer, le, l) == []
    {
      var line := SortedLayer(services, layer, le, l);
      SortedLayerMembers(services, layer, le, l);
      HeadIsMember(line);
    }
  }

  lemma LayerIdsStep(services: seq<Service>, layer: map<Id, int>, i: nat)
    requires i < |services| && services[i].id in layer
    ensures forall l :: LayerIds(services[..i + 1], layer, l)
                        == LayerIds(services[..i], layer, l)
                           + (if layer[services[i].id] == l then [services[i].id] else [])
  {
    assert services[..i + 1][..i] == services[..i];
  }

  /** The services of every layer, in listing order. */
  method GroupLayers(services: seq<Service>, layer: map<Id, int>) returns (layers: map<int, seq<Id>>)
    requires forall i :: 0 <= i < |services| ==> services[i].id in layer
    ensures forall l :: (if l in layers then layers[l] else []) == LayerIds(services, layer, l)
  {
    layers := map[];
    for i := 0 to |services|
      invariant forall l :: (if l in layers then layers[l] else []) == LayerIds(services[..i], layer, l)
    {
      hide LayerIds;
      var id := services[i].id;
      var l := layer[id];
      LayerIdsStep(services, layer, i);
      layers := layers[l := (if l in layers then layers[l] else []) + [id]];
    }
    assert services[..|services|] == services;
  }

  /** Lays out all lines, in the order of their layers; no layer is `top` or beyond. */
  method PlaceLayers(services: seq<Service>, layer: map<Id, int>, top: int, le: Collation, orientation: Orientation)
    returns (pos: map<Id, Position>)
    requires UniqueIds(services) && layer.Keys == GraphOf(services).Keys
    requires top >= 0 && forall v :: v in layer ==> 0 <= layer[v] < top
    ensures Placed(services, layer, le, orientation, pos)
  {
    hide GridPoint, GraphOf;
    GraphOfUnique(services);
    var layers := GroupLayers(services, layer);
    pos := map[];
    PlaceNothing(services, layer, le, orientation);
    for l := 0 to top
      invariant PlacedBelow(services, layer, le, orientation, pos, l, 0)
    {
      hide PlacedBelow, LayerIds;
      if l in layers {
        var sortedIds := SortIds(layers[l], le);
        for index := 0 to |sortedIds|
          invariant PlacedBelow(services, layer, le, orientation, pos, l, index)
        {
          PlaceOne(services, layer, le, orientation, pos, l, index);
          pos := pos[sortedIds[index] := GridPoint(orientation, l, index, |sortedIds|)];
        }
      }
      PlaceNextLine(services, layer, le, orientation, pos, l);
    }
    PlacedAll(services, layer, le, orientation, pos, top);
  }

  lemma PlaceNothing(services: seq<Service>, layer: map<Id, int>, le: Collation, orientation: Orientation)
    requires UniqueIds(services) && layer.Keys == GraphOf(services).Keys && forall v :: v in layer ==> layer[v] >= 0
    ensures PlacedBelow(services, layer, le, orientation, map[], 0, 0)
  {
    hide SortedLayer, GridPoint;
    forall l | l < 0
      ensures |SortedLayer(services, layer, le, l)| == 0
    {
      SortedLayerMembers(services, layer, le, l);
      var line := SortedLayer(services, layer, le, l);
      HeadIsMember(line);
    }
  }

  lemma GridPointsDistinct(orientation: Orientation, l: int, i: int, n: int, l': int, i': int, n': int)
    requires l != l' || (n == n' && i != i')
    ensures GridPoint(orientation, l, i, n) != GridPoint(orientation, l', i', n')
  {
  }

  /** The coordinate that tells the layers apart. */
  function Along(orientation: Orientation, p: Position): real {
    match orientation
    case Horizontal => p.x
    case Vertical => p.y
  }

  /** Where a placed service stands: on the line of its layer, at the rank it has there. */
  lemma PlacedAt(services: seq<Service>, layer: map<Id, int>, le: Collation, orientation: Orientation,
                 pos: map<Id, Position>, v: Id) returns (i: nat)
    requires UniqueIds(services) && layer.Keys == GraphOf(services).Keys
    requires Placed(services, layer, le, orientation, pos) && v in layer
    ensures var line := SortedLayer(services, layer, le, layer[v]);
            i < |line| && line[i] == v && v in pos && pos[v] == GridPoint(orientation, layer[v], i, |line|)
  {
    hide GraphOf, UniqueIds, GridPoint;
    var line := SortedLayer(services, layer, le, layer[v]);
    hide SortedLayer;
    SortedLayerMembers(services, layer, le, layer[v]);
    i :| 0 <= i < |line| && line[i] == v;
    assert PlacedLine(services, layer, le, orientation, pos, layer[v], |line|);
  }

  /** Later layers stand strictly further along. */
  lemma LayersApart(services: seq<Service>, layer: map<Id, int>, le: Collation, orientation: Orientation,
                    pos: map<Id, Position>, u: Id, v: Id)
    requires UniqueIds(services) && layer.Keys == GraphOf(services).Keys
    requires Placed(services, layer, le, orientation, pos) && u in layer && v in layer
    ensures u in pos && v in pos
    ensures layer[u] < layer[v] <==> Along(orientation, pos[u]) < Along(orientation, pos[v])
  {
    var i := PlacedAt(services, layer, le, orientation, pos, u);
    var j := PlacedAt(services, layer, le, orientation, pos, v);
    hide Placed, GraphOf, UniqueIds, SortedLayer;
  }

  /** Two services never stand on the same point. */
  lemma PositionsDistinct(services: seq<Service>, layer: map<Id, int>, le: Collation, orientation: Orientation,
                          pos: map<Id, Position>, u: Id, v: Id)
    requires UniqueIds(services) && layer.Keys == GraphOf(services).Keys
    requires Placed(services, layer, le, orientation, pos) && u in layer && v in layer && u != v
    ensures u in pos && v in pos && pos[u] != pos[v]
  {
    var i := PlacedAt(services, layer, le, orientation, pos, u);
    var j := PlacedAt(services, layer, le, orientation, pos, v);
    GridPointsDistinct(orientation, layer[u], i, |SortedLayer(services, layer, le, layer[u])|,
                       layer[v], j, |SortedLayer(services, layer, le, layer[v])|);
  }

  /** The collation and the layers determine where everything stands. */
  lemma PlacedUnique(services: seq<Service>, layer: map<Id, int>, le: Collation, orientation: Orientation,
                     a: map<Id, Position>, b: map<Id, Position>)
    requires UniqueIds(services) && layer.Keys == GraphOf(services).Keys
    requires Placed(services, layer, le, orientation, a) && Placed(services, layer, le, orientation, b)
    ensures a == b
  {
    forall v | v in layer
      ensures v in a && v in b && a[v] == b[v]
    {
      var i := PlacedAt(services, layer, le, orientation, a, v);
      var j := PlacedAt(services, layer, le, orientation, b, v);
      SortedLayerMembers(services, layer, le, layer[v]);
    }
  }

  /** The coordinate along the line. */
  function Across(orientation: Orientation, p: Position): real {
    match orientation
    case Horizontal => p.y
    case Vertical => p.x
  }

  function AcrossSum(orientation: Orientation, layer: int, n: nat, count: nat): real {
    if n == 0 then 0.0
    else AcrossSum(orientation, layer, n - 1, count) + Across(orientation, GridPoint(orientation, layer, n - 1, count))
  }

  lemma {:induction false} PartialAcrossSum(orientation: Orientation, layer: int, n: nat, count: nat)
    ensures var spacing := if orientation.Horizontal? then NODE_SPACING_Y else NODE_SPACING_X;
            AcrossSum(orientation, layer, n, count) == (n * (n - count)) as real / 2.0 * spacing
  {
    if n > 0 {
      PartialAcrossSum(orientation, layer, n - 1, count);
      assert n * (n - count) == (n - 1) * (n - 1 - count) + (2 * n - 1 - count);
    }
  }

  /** Before the layout is moved, every line is centred on zero. */
  lemma LineCentred(orientation: Orientation, layer: int, count: nat)
    ensures AcrossSum(orientation, layer, count, count) == 0.0
  {
    PartialAcrossSum(orientation, layer, count, count);
  }

  /** The sum of where `ids` stand across their line. */
  function SumAcross(orientation: Orientation, pos: map<Id, Position>, ids: seq<Id>): real
    requires forall i :: 0 <= i < |ids| ==> ids[i] in pos
  {
    if ids == [] then 0.0
    else SumAcross(orientation, pos, ids[..|ids| - 1]) + Across(orientation, pos[ids[|ids| - 1]])
  }

  lemma {:induction false} SumOfLine(orientation: Orientation, pos: map<Id, Position>, l: int, ids: seq<Id>, n: nat)
    requires n <= |ids|
    requires forall i :: 0 <= i < |ids| ==> ids[i] in pos && pos[ids[i]] == GridPoint(orientation, l, i, |ids|)
    ensures SumAcross(orientation, pos, ids[..n]) == AcrossSum(orientation, l, n, |ids|)
  {
    hide GridPoint, Across;
    if n > 0 {
      SumOfLine(orientation, pos, l, ids, n - 1);
      assert ids[..n][..n - 1] == ids[..n - 1];
    }
  }

  /** The services of every layer stand centred on zero. */
  lemma LayerCentred(services: seq<Service>, layer: map<Id, int>, le: Collation, orientation: Orientation,
                     pos: map<Id, Position>, l: int)
    requires Placed(services, layer, le, orientation, pos)
    ensures var line := SortedLayer(services, layer, le, l);
            && (forall i :: 0 <= i < |line| ==> line[i] in pos)
            && SumAcross(orientation, pos, line) == 0.0
  {
    var line := SortedLayer(services, layer, le, l);
    hide SortedLayer, GridPoint;
    assert PlacedLine(services, layer, le, orientation, pos, l, |line|);
    SumOfLine(orientation, pos, l, line, |line|);
    assert line[..|line|] == line;
    LineCentred(orientation, l, |line|);
  }

  // The distances on the grid, in points.

  /** A service of layer `m` stands `m - l` layer distances further along than one of layer `l`. */
  ghost predicate LayersMeasured(orientation: Orientation, pos: map<Id, Position>, u: Id, l: int, v: Id, m: int)
    requires u in pos && v in pos
  {
    match orientation
    case Horizontal => pos[v].x - pos[u].x == ((m - l) * 310) as real
    case Vertical => pos[v].y - pos[u].y == ((m - l) * 190) as real
  }

  /** On a line each service stands one distance after the one before it. */
  ghost predicate LineMeasured(orientation: Orientation, pos: map<Id, Position>, line: seq<Id>) {
    forall i, j :: 0 <= i <= j < |line| ==>
      && line[i] in pos && line[j] in pos
      && match orientation
         case Horizontal => pos[line[j]].y - pos[line[i]].y == ((j - i) * 130) as real
         case Vertical => pos[line[j]].x - pos[line[i]].x == ((j - i) * 250) as real
  }

  lemma GridMeasured(orientation: Orientation, l: int, i: int, n: int, m: int, j: int, k: int)
    ensures var p, q := GridPoint(orientation, l, i, n), GridPoint(orientation, m, j, k);
            match orientation
            case Horizontal =>
              && q.x - p.x == ((m - l) * 310) as real
              && (n == k ==> q.y - p.y == ((j - i) * 130) as real) && (l == 0 ==> p.x == 0.0)
            case Vertical =>
              && q.y - p.y == ((m - l) * 190) as real
              && (n == k ==> q.x - p.x == ((j - i) * 250) as real) && (l == 0 ==> p.y == 0.0)
  {
  }

  lemma PlacedMeasured(services: seq<Service>, layer: map<Id, int>, le: Collation, orientation: Orientation,
                       pos: map<Id, Position>, u: Id, v: Id)
    requires UniqueIds(services) && layer.Keys == GraphOf(services).Keys
    requires Placed(services, layer, le, orientation, pos) && u in layer && v in layer
    ensures u in pos && v in pos && LayersMeasured(orientation, pos, u, layer[u], v, layer[v])
    ensures layer[u] == 0 ==> (if orientation.Horizontal? then pos[u].x == 0.0 else pos[u].y == 0.0)
  {
    var i := PlacedAt(services, layer, le, orientation, pos, u);
    var j := PlacedAt(services, layer, le, orientation, pos, v);
    hide Placed, GraphOf, UniqueIds, SortedLayer, GridPoint;
    GridMeasured(orientation, layer[u], i, |SortedLayer(services, layer, le, layer[u])|,
                 layer[v], j, |SortedLayer(services, layer, le, layer[v])|);
  }

  lemma PlacedLineMeasured(services: seq<Service>, layer: map<Id, int>, le: Collation, orientation: Orientation,
                           pos: map<Id, Position>, l: int)
    requires Placed(services, layer, le, orientation, pos)
    ensures LineMeasured(orientation, pos, SortedLayer(services, layer, le, l))
  {
    var line := SortedLayer(services, layer, le, l);
    hide SortedLayer, GridPoint;
    assert PlacedLine(services, layer, le, orientation, pos, l, |line|);
    forall i, j | 0 <= i <= j < |line|
      ensures line[i] in pos && line[j] in pos
      ensures match orientation
              case Horizontal => pos[line[j]].y - pos[line[i]].y == ((j - i) * 130) as real
              case Vertical => pos[line[j]].x - pos[line[i]].x == ((j - i) * 250) as real
    {
      GridMeasured(orientation, l, i, |line|, l, j, |line|);
    }
  }
}
