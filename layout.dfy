/** `getLayoutedElements` (src/utils/layout.ts) as the loops it is, each
    proved to compute the matching function of `LayoutSpec`. */
module Layout {
  import opened GraphTypes
  import opened Collections
  import opened LayoutSpec

  lemma EdgeSnoc(edges: seq<ImportEdge>, i: nat, k: string)
    requires i < |edges|
    ensures Outgoing(edges[..i + 1], k) == Outgoing(edges[..i], k) + (if edges[i].source == k then [edges[i].target] else [])
    ensures InCount(edges[..i + 1], k) == InCount(edges[..i], k) + (if edges[i].target == k then 1 else 0)
    ensures EdgeTargets(edges[..i + 1]) == EdgeTargets(edges[..i]) + {edges[i].target}
  {
    assert edges[..i + 1][..i] == edges[..i] && edges[..i + 1][i] == edges[i];
    assert edges[..i + 1] == edges[..i] + [edges[i]];
  }

  /** The tables after the first `i` edges. */
  ghost predicate TablesUpTo(nodes: seq<ModuleNode>, edges: seq<ImportEdge>, i: nat,
                             children: map<string, seq<string>>, inDegree: map<string, nat>)
    requires i <= |edges|
  {
    && children.Keys == IdSet(nodes)
    && (forall k :: k in children ==> children[k] == Outgoing(edges[..i], k))
    && inDegree.Keys == IdSet(nodes) + EdgeTargets(edges[..i])
    && (forall k :: k in inDegree ==> inDegree[k] == InCount(edges[..i], k))
  }

  /** Line 26 applied to edge `i`. */
  lemma ChildrenStep(nodes: seq<ModuleNode>, edges: seq<ImportEdge>, i: nat, children: map<string, seq<string>>)
    requires i < |edges|
    requires children.Keys == IdSet(nodes)
    requires forall k :: k in children ==> children[k] == Outgoing(edges[..i], k)
    ensures var e := edges[i];
            var children' := if e.source in children then children[e.source := children[e.source] + [e.target]] else children;
            && children'.Keys == IdSet(nodes)
            && forall k :: k in children' ==> children'[k] == Outgoing(edges[..i + 1], k)
  {
    var e := edges[i];
    var children' := if e.source in children then children[e.source := children[e.source] + [e.target]] else children;
    forall k | k in children'
      ensures children'[k] == Outgoing(edges[..i + 1], k)
    {
      EdgeSnoc(edges, i, k);
    }
  }

  /** Line 27 applied to edge `i`. */
  lemma InDegreeStep(nodes: seq<ModuleNode>, edges: seq<ImportEdge>, i: nat, inDegree: map<string, nat>)
    requires i < |edges|
    requires inDegree.Keys == IdSet(nodes) + EdgeTargets(edges[..i])
    requires forall k :: k in inDegree ==> inDegree[k] == InCount(edges[..i], k)
    ensures var e := edges[i];
            var inDegree' := inDegree[e.target := RankOf(inDegree, e.target) + 1];
            && inDegree'.Keys == IdSet(nodes) + EdgeTargets(edges[..i + 1])
            && forall k :: k in inDegree' ==> inDegree'[k] == InCount(edges[..i + 1], k)
  {
    var e := edges[i];
    var inDegree' := inDegree[e.target := RankOf(inDegree, e.target) + 1];
    EdgeSnoc(edges, i, e.target);
    InCountZero(edges[..i], e.target);
    forall k | k in inDegree'
      ensures inDegree'[k] == InCount(edges[..i + 1], k)
    {
      EdgeSnoc(edges, i, k);
    }
  }

  /** Line 26 and line 27 applied to edge `i`. */
  lemma TablesStep(nodes: seq<ModuleNode>, edges: seq<ImportEdge>, i: nat,
                   children: map<string, seq<string>>, inDegree: map<string, nat>)
    requires i < |edges| && TablesUpTo(nodes, edges, i, children, inDegree)
    ensures var e := edges[i];
            TablesUpTo(nodes, edges, i + 1,
                       if e.source in children then children[e.source := children[e.source] + [e.target]] else children,
                       inDegree[e.target := RankOf(inDegree, e.target) + 1])
  {
    ChildrenStep(nodes, edges, i, children);
    InDegreeStep(nodes, edges, i, inDegree);
  }

  /** Lines 19-28: the children and in-degree tables. */
  method BuildTables(nodes: seq<ModuleNode>, edges: seq<ImportEdge>)
    returns (children: map<string, seq<string>>, inDegree: map<string, nat>)
    ensures children == Children(nodes, edges)
    ensures inDegree == InDegree(nodes, edges)
  {
    children, inDegree := EmptyTables(nodes);
    assert edges[..0] == [];
    children, inDegree := CountEdges(nodes, edges, children, inDegree);
    TablesDone(nodes, edges, children, inDegree);
  }

  /** Lines 19-22: an empty child list and in-degree 0 for every node. */
  method EmptyTables(nodes: seq<ModuleNode>) returns (children: map<string, seq<string>>, inDegree: map<string, nat>)
    ensures children.Keys == IdSet(nodes) && forall k :: k in children ==> children[k] == []
    ensures inDegree.Keys == IdSet(nodes) && forall k :: k in inDegree ==> inDegree[k] == 0
  {
    children, inDegree := map[], map[];
    for i := 0 to |nodes|
      invariant children.Keys == IdSet(nodes[..i]) && forall k :: k in children ==> children[k] == []
      invariant inDegree.Keys == IdSet(nodes[..i]) && forall k :: k in inDegree ==> inDegree[k] == 0
    {
      IdSetSnoc(nodes, i);
      children := children[nodes[i].id := []];
      inDegree := inDegree[nodes[i].id := 0];
    }
    assert nodes[..|nodes|] == nodes;
  }

  /** Lines 23-28: every edge extends its source's child list (when the
      source is a node) and counts towards its target's in-degree. */
  method CountEdges(nodes: seq<ModuleNode>, edges: seq<ImportEdge>,
                    children0: map<string, seq<string>>, inDegree0: map<string, nat>)
    returns (children: map<string, seq<string>>, inDegree: map<string, nat>)
    requires TablesUpTo(nodes, edges, 0, children0, inDegree0)
    ensures TablesUpTo(nodes, edges, |edges|, children, inDegree)
  {
    children, inDegree := children0, inDegree0;
    for i := 0 to |edges|
      invariant TablesUpTo(nodes, edges, i, children, inDegree)
    {
      var e := edges[i];
      TablesStep(nodes, edges, i, children, inDegree);
      if e.source in children {
        children := children[e.source := children[e.source] + [e.target]];
      }
      inDegree := inDegree[e.target := RankOf(inDegree, e.target) + 1];
    }
  }

  /** After the last edge the tables are those of `LayoutSpec`. */
  lemma TablesDone(nodes: seq<ModuleNode>, edges: seq<ImportEdge>,
                   children: map<string, seq<string>>, inDegree: map<string, nat>)
    requires TablesUpTo(nodes, edges, |edges|, children, inDegree)
    ensures children == Children(nodes, edges) && inDegree == InDegree(nodes, edges)
  {
    assert edges[..|edges|] == edges;
  }

  /** Lines 31-44: queue the roots at rank 0, or `nodes[0]` when there is none. */
  method SeedQueue(nodes: seq<ModuleNode>, edges: seq<ImportEdge>, inDegree: map<string, nat>)
    returns (queue: seq<string>, rank: map<string, nat>)
    requires nodes != [] && inDegree == InDegree(nodes, edges)
    ensures Frontier(queue, rank) == Seed(nodes, edges)
  {
    queue, rank := [], map[];
    for i := 0 to |nodes|
      invariant queue == Roots(nodes[..i], edges) && rank == AllZero(queue)
    {
      var n := nodes[i];
      RootsSnoc(nodes, edges, i);
      InDegreeOf(nodes, edges, i);
      if RankOf(inDegree, n.id) == 0 {
        AllZeroSnoc(queue, n.id);
        queue := queue + [n.id];
        rank := rank[n.id := 0];
      }
    }
    assert nodes[..|nodes|] == nodes;
    if |queue| == 0 {
      queue := queue + [nodes[0].id];
      rank := rank[nodes[0].id := 0];
    }
  }

  /** Lines 50-59: visit the children of one dequeued node. */
  method VisitChildren(kids: seq<string>, currentRank: nat, queue0: seq<string>, rank0: map<string, nat>)
    returns (queue: seq<string>, rank: map<string, nat>)
    ensures queue == queue0 + Visit(kids, currentRank, rank0).pushed
    ensures rank == Visit(kids, currentRank, rank0).rank
  {
    queue, rank := queue0, rank0;
    for j := 0 to |kids|
      invariant queue == queue0 + Visit(kids[..j], currentRank, rank0).pushed
      invariant rank == Visit(kids[..j], currentRank, rank0).rank
    {
      var child := kids[j];
      assert kids[..j + 1][..j] == kids[..j] && kids[..j + 1][j] == child;
      if child !in rank {
        rank := rank[child := currentRank + 1];
        queue := queue + [child];
      } else {
        rank := rank[child := Max(rank[child], currentRank + 1)];
      }
    }
    assert kids[..|kids|] == kids;
  }

  /** One turn of the walk, as `Bfs` takes it. */
  lemma BfsTurn(children: map<string, seq<string>>, f: Frontier, head: nat)
    requires head < |f.queue|
    ensures var current := f.queue[head];
            var d := Visit(ChildrenOf(children, current), RankOf(f.rank, current), f.rank);
            && Bfs(children, f, head) == Bfs(children, Frontier(f.queue + d.pushed, d.rank), head + 1)
            && ((d.pushed == [] && d.rank.Keys == f.rank.Keys)
                || |AllChildren(children) - d.rank.Keys| < |AllChildren(children) - f.rank.Keys|)
  {
    var current := f.queue[head];
    ChildrenInAll(children, current);
    VisitShrinks(AllChildren(children), ChildrenOf(children, current), RankOf(f.rank, current), f.rank);
  }

  /** Lines 46-60: walk the queue with a moving head. */
  method RankBreadthFirst(children: map<string, seq<string>>, queue0: seq<string>, rank0: map<string, nat>)
    returns (queue: seq<string>, rank: map<string, nat>)
    ensures Frontier(queue, rank) == Bfs(children, Frontier(queue0, rank0), 0)
  {
    queue, rank := queue0, rank0;
    var head := 0;
    while head < |queue|
      invariant Bfs(children, Frontier(queue, rank), head) == Bfs(children, Frontier(queue0, rank0), 0)
      decreases |AllChildren(children) - rank.Keys|, |queue| - head
    {
      BfsTurn(children, Frontier(queue, rank), head);
      var current := queue[head];
      head := head + 1;
      var currentRank := RankOf(rank, current);
      queue, rank := VisitChildren(ChildrenOf(children, current), currentRank, queue, rank);
    }
  }

  /** Lines 63-65: rank 0 for every node the walk missed. */
  method RankTheRest(nodes: seq<ModuleNode>, rank0: map<string, nat>) returns (rank: map<string, nat>)
    ensures rank == FullRank(nodes, rank0)
  {
    rank := rank0;
    for i := 0 to |nodes|
      invariant rank.Keys == rank0.Keys + IdSet(nodes[..i])
      invariant forall k :: k in rank ==> rank[k] == RankOf(rank0, k)
    {
      IdSetSnoc(nodes, i);
      if nodes[i].id !in rank {
        rank := rank[nodes[i].id := 0];
      }
    }
    assert nodes[..|nodes|] == nodes;
    ghost var full := FullRank(nodes, rank0);
    assert rank.Keys == full.Keys;
  }

  /** The layers after the first `i` nodes. */
  ghost predicate LayersUpTo(nodes: seq<ModuleNode>, rank: map<string, nat>, i: nat,
                             layers: map<nat, seq<string>>, order: seq<nat>)
    requires i <= |nodes|
  {
    && order == LayerOrder(nodes[..i], rank)
    && layers.Keys == Elems(order)
    && forall r :: r in layers ==> layers[r] == Layer(nodes[..i], rank, r)
  }

  /** A rank not yet in the layer order has an empty layer. */
  lemma FreshLayerEmpty(nodes: seq<ModuleNode>, rank: map<string, nat>, r: nat)
    requires r !in LayerOrder(nodes, rank)
    ensures Layer(nodes, rank, r) == []
  {
    LayerMembers(nodes, rank, r);
    LayerOrderMembers(nodes, rank);
    forall id | id in IdSet(nodes)
      ensures RankOf(rank, id) != r
    {
      var m :| m in nodes && m.id == id;
    }
    EmptyIfNoMembers(Layer(nodes, rank, r));
  }

  /** Grouping one more node by rank. */
  lemma LayersSnoc(nodes: seq<ModuleNode>, rank: map<string, nat>, i: nat)
    requires i < |nodes|
    ensures var r := RankOf(rank, nodes[i].id);
            && (forall r' :: Layer(nodes[..i + 1], rank, r') == Layer(nodes[..i], rank, r') + (if r == r' then [nodes[i].id] else []))
            && LayerOrder(nodes[..i + 1], rank) == if r in LayerOrder(nodes[..i], rank) then LayerOrder(nodes[..i], rank) else LayerOrder(nodes[..i], rank) + [r]
  {
    var post := nodes[..i + 1];
    assert post[..|post| - 1] == nodes[..i] && post[|post| - 1] == nodes[i];
  }

  /** Lines 70-71 applied to node `i`: a new rank becomes the last key. */
  lemma LayerKeysStep(nodes: seq<ModuleNode>, rank: map<string, nat>, i: nat,
                      layers: map<nat, seq<string>>, order: seq<nat>)
    requires i < |nodes| && LayersUpTo(nodes, rank, i, layers, order)
    ensures var r := RankOf(rank, nodes[i].id);
            var order' := if r in layers then order else order + [r];
            && order' == LayerOrder(nodes[..i + 1], rank)
            && layers.Keys + {r} == Elems(order')
  {
    LayersSnoc(nodes, rank, i);
    var r := RankOf(rank, nodes[i].id);
    assert Elems(order + [r]) == Elems(order) + {r};
  }

  /** Line 72 applied to node `i`: its id joins the layer of its rank. */
  lemma LayerValuesStep(nodes: seq<ModuleNode>, rank: map<string, nat>, i: nat,
                        layers: map<nat, seq<string>>, order: seq<nat>)
    requires i < |nodes| && LayersUpTo(nodes, rank, i, layers, order)
    ensures var r := RankOf(rank, nodes[i].id);
            var base := if r in layers then layers else layers[r := []];
            var layers' := base[r := base[r] + [nodes[i].id]];
            forall r' :: r' in layers' ==> layers'[r'] == Layer(nodes[..i + 1], rank, r')
  {
    LayersSnoc(nodes, rank, i);
    var r := RankOf(rank, nodes[i].id);
    var base := if r in layers then layers else layers[r := []];
    var layers' := base[r := base[r] + [nodes[i].id]];
    if r !in layers {
      FreshLayerEmpty(nodes[..i], rank, r);
    }
    assert base[r] == Layer(nodes[..i], rank, r);
    forall r' | r' in layers'
      ensures layers'[r'] == Layer(nodes[..i + 1], rank, r')
    {
      if r' != r {
        assert layers'[r'] == layers[r'];
      }
    }
  }

  /** Lines 70-72 applied to node `i`, which turn `layers` and `order` into
      `layers'` and `order'`. */
  lemma LayersStep(nodes: seq<ModuleNode>, rank: map<string, nat>, i: nat,
                   layers: map<nat, seq<string>>, order: seq<nat>,
                   layers': map<nat, seq<string>>, order': seq<nat>)
    requires i < |nodes| && LayersUpTo(nodes, rank, i, layers, order)
    requires var r := RankOf(rank, nodes[i].id);
             var base := if r in layers then layers else layers[r := []];
             && order' == (if r in layers then order else order + [r])
             && layers' == base[r := base[r] + [nodes[i].id]]
    ensures LayersUpTo(nodes, rank, i + 1, layers', order')
  {
    LayerKeysStep(nodes, rank, i, layers, order);
    LayerValuesStep(nodes, rank, i, layers, order);
  }

  /** Lines 68-73: the nodes' ids grouped by rank; `order` is the key order
      of the `layers` map. */
  method GroupLayers(nodes: seq<ModuleNode>, rank: map<string, nat>)
    returns (layers: map<nat, seq<string>>, order: seq<nat>)
    ensures order == LayerOrder(nodes, rank)
    ensures layers.Keys == Elems(order)
    ensures forall r :: r in layers ==> layers[r] == Layer(nodes, rank, r)
  {
    layers, order := map[], [];
    assert nodes[..0] == [];
    for i := 0 to |nodes|
      invariant LayersUpTo(nodes, rank, i, layers, order)
    {
      var n := nodes[i];
      var r := RankOf(rank, n.id);
      ghost var layers0, order0 := layers, order;
      if r !in layers {
        layers := layers[r := []];
        order := order + [r];
      }
      layers := layers[r := layers[r] + [n.id]];
      LayersStep(nodes, rank, i, layers0, order0, layers, order);
    }
    assert nodes[..|nodes|] == nodes;
  }

  /** Line 77: the length of the longest layer. */
  method WidestLayer(ghost nodes: seq<ModuleNode>, ghost rank: map<string, nat>,
                     layers: map<nat, seq<string>>, order: seq<nat>) returns (widest: nat)
    requires layers.Keys == Elems(order)
    requires forall r :: r in layers ==> layers[r] == Layer(nodes, rank, r)
    ensures widest == Widest(nodes, rank, order)
  {
    widest := 0;
    for j := 0 to |order|
      invariant widest == Widest(nodes, rank, order[..j])
    {
      assert order[..j + 1][..j] == order[..j] && order[..j + 1][j] == order[j];
      assert order[j] in Elems(order);
      widest := Max(widest, |layers[order[j]]|);
    }
    assert order[..|order|] == order;
  }

  /** Lines 84-87: the ids of one row, `ColumnStep` apart from `offsetX`;
      a later write for the same id replaces an earlier one. */
  method PlaceRow(ids: seq<string>, offsetX: int, y: int, positions0: map<string, Position>)
    returns (positions: map<string, Position>)
    ensures forall id :: id in positions <==> id in positions0 || id in ids
    ensures forall id :: id in ids ==> positions[id] == Position(offsetX + ColumnStep * LastIndex(ids, id), y)
    ensures forall id :: id in positions0 && id !in ids ==> positions[id] == positions0[id]
  {
    positions := positions0;
    for i := 0 to |ids|
      invariant forall id :: id in positions <==> id in positions0 || id in ids[..i]
      invariant forall id :: id in positions0 && id !in ids[..i] ==> positions[id] == positions0[id]
      invariant forall id :: id in ids[..i] ==>
                  positions[id] == Position(offsetX + ColumnStep * LastIndex(ids[..i], id), y)
    {
      var id := ids[i];
      assert ids[..i + 1] == ids[..i] + [id];
      positions := positions[id := Position(offsetX + i * ColumnStep, y)];
    }
    assert ids[..|ids|] == ids;
  }

  /** `Place` for the members of one layer. */
  lemma PlaceInLayer(nodes: seq<ModuleNode>, rank: map<string, nat>, r: nat, widest: int)
    ensures var ids := Layer(nodes, rank, r);
            forall id :: id in ids ==>
              id in IdSet(nodes) &&
              Place(nodes, rank, widest, id) ==
                Position((widest - |ids|) * (ColumnStep / 2) + ColumnStep * LastIndex(ids, id), r * RowStep)
  {
    var ids := Layer(nodes, rank, r);
    LayerMembers(nodes, rank, r);
    forall id | id in ids
      ensures Place(nodes, rank, widest, id) ==
                Position((widest - |ids|) * (ColumnStep / 2) + ColumnStep * LastIndex(ids, id), r * RowStep)
    {
      assert RankOf(rank, id) == r;
    }
  }

  /** Lines 80-88 for one layer: each id of the layer gets its column and
      row. */
  method PlaceLayer(ghost nodes: seq<ModuleNode>, ghost rank: map<string, nat>, r: nat, ids: seq<string>,
                    widest: nat, totalWidth: int, positions0: map<string, Position>)
    returns (positions: map<string, Position>)
    requires ids == Layer(nodes, rank, r) && totalWidth == widest * ColumnStep - HGap
    ensures forall id :: id in positions <==> id in positions0 || id in ids
    ensures forall id :: id in ids ==> id in IdSet(nodes) && positions[id] == Place(nodes, rank, widest, id)
    ensures forall id :: id in positions0 && id !in ids ==> positions[id] == positions0[id]
  {
    var layerWidth := |ids| * ColumnStep - HGap;
    var offsetX := (totalWidth - layerWidth) / 2;
    assert offsetX == (widest - |ids|) * (ColumnStep / 2);
    positions := PlaceRow(ids, offsetX, r * RowStep, positions0);
    PlaceInLayer(nodes, rank, r, widest);
  }

  /** Lines 76-89: every id in the listed layers gets its position. */
  method PlaceLayers(ghost nodes: seq<ModuleNode>, ghost rank: map<string, nat>,
                     layers: map<nat, seq<string>>, order: seq<nat>, widest: nat)
    returns (positions: map<string, Position>)
    requires layers.Keys == Elems(order)
    requires forall r :: r in layers ==> layers[r] == Layer(nodes, rank, r)
    ensures forall id :: id in positions <==> id in IdSet(nodes) && RankOf(rank, id) in order
    ensures forall id :: id in positions ==> id in IdSet(nodes) && positions[id] == Place(nodes, rank, widest, id)
  {
    var totalWidth := widest * ColumnStep - HGap;
    positions := map[];
    for j := 0 to |order|
      invariant forall id :: id in positions <==> id in IdSet(nodes) && RankOf(rank, id) in order[..j]
      invariant forall id :: id in positions ==> id in IdSet(nodes) && positions[id] == Place(nodes, rank, widest, id)
    {
      var r := order[j];
      assert r in Elems(order);
      assert order[..j + 1] == order[..j] + [r];
      LayerMembers(nodes, rank, r);
      positions := PlaceLayer(nodes, rank, r, layers[r], widest, totalWidth, positions);
    }
    assert order[..|order|] == order;
  }

  /** Lines 19-65: the rank of every node. */
  method RankAll(nodes: seq<ModuleNode>, edges: seq<ImportEdge>) returns (rank: map<string, nat>)
    requires nodes != []
    ensures rank == Ranks(nodes, edges)
  {
    var children, inDegree := BuildTables(nodes, edges);
    var queue, rank0 := SeedQueue(nodes, edges, inDegree);
    queue, rank0 := RankBreadthFirst(children, queue, rank0);
    rank := RankTheRest(nodes, rank0);
  }

  /** Lines 68-89: the position of every node. */
  method PlaceAll(nodes: seq<ModuleNode>, rank: map<string, nat>) returns (positions: map<string, Position>)
    ensures forall id :: id in IdSet(nodes) ==>
              id in positions && positions[id] == Place(nodes, rank, Widest(nodes, rank, LayerOrder(nodes, rank)), id)
  {
    var layers, order := GroupLayers(nodes, rank);
    var widest := WidestLayer(nodes, rank, layers, order);
    positions := PlaceLayers(nodes, rank, layers, order, widest);
    forall id | id in IdSet(nodes) ensures id in positions {
      var n :| n in nodes && n.id == id;
      LayerOrderMembers(nodes, rank);
      assert RankOf(rank, n.id) in order;
    }
  }

  /** `getLayoutedElements`: the nodes with their positions; the edges as
      they came. */
  method GetLayoutedElements(nodes: seq<ModuleNode>, edges: seq<ImportEdge>)
    returns (layoutedNodes: seq<ModuleNode>, layoutedEdges: seq<ImportEdge>)
    ensures layoutedNodes == Layout(nodes, edges)
    ensures layoutedEdges == edges
  {
    if |nodes| == 0 {
      return nodes, edges;
    }
    var rank := RankAll(nodes, edges);
    var positions := PlaceAll(nodes, rank);
    layoutedNodes := seq(|nodes|, i requires 0 <= i < |nodes| =>
      nodes[i].(position := if nodes[i].id in positions then positions[nodes[i].id] else Position(0, 0)));
    layoutedEdges := edges;
    var widest := Widest(nodes, rank, LayerOrder(nodes, rank));
    forall i | 0 <= i < |nodes|
      ensures nodes[i].id in IdSet(nodes)
      ensures layoutedNodes[i] == nodes[i].(position := Place(nodes, rank, widest, nodes[i].id))
    {
      assert nodes[i] in nodes;
    }
    PlacedOf(nodes, rank, widest, layoutedNodes);
  }
}
