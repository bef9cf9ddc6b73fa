/** The layered layout of src/utils/layout.ts as functions: the children and
    in-degree tables, the seeded queue, the breadth-first ranking with its
    max-update rule, the layers and the node positions. */
module LayoutSpec {
  import opened GraphTypes
  import opened Collections

  const NodeWidth := 180
  const NodeHeight := 60
  const HGap := 60
  const VGap := 80

  /** Horizontal distance between neighbours in a layer. */
  const ColumnStep := NodeWidth + HGap
  /** Vertical distance between layers. */
  const RowStep := NodeHeight + VGap

  function Max(a: nat, b: nat): (m: nat)
    ensures m >= a && m >= b && (m == a || m == b)
  {
    if a >= b then a else b
  }

  // ---------------------------------------------------------------------------
  // The tables (lines 19-28)

  /** The targets of the edges leaving `source`, in edge order. */
  function Outgoing(edges: seq<ImportEdge>, source: string): seq<string>
  {
    if edges == [] then []
    else
      var e := edges[|edges| - 1];
      Outgoing(edges[..|edges| - 1], source) + (if e.source == source then [e.target] else [])
  }

  /** `children`: every node id maps to the targets of its outgoing edges;
      edges from an unknown source are dropped. */
  function Children(nodes: seq<ModuleNode>, edges: seq<ImportEdge>): map<string, seq<string>>
  {
    map k | k in IdSet(nodes) :: Outgoing(edges, k)
  }

  /** The number of edges into `target`. */
  function InCount(edges: seq<ImportEdge>, target: string): nat
  {
    if edges == [] then 0
    else
      var e := edges[|edges| - 1];
      InCount(edges[..|edges| - 1], target) + (if e.target == target then 1 else 0)
  }

  /** A listed child is the target of an edge from its parent. */
  lemma {:induction false} OutgoingMembers(edges: seq<ImportEdge>, source: string)
    ensures forall t :: t in Outgoing(edges, source) <==> exists e :: e in edges && e.source == source && e.target == t
  {
    if edges != [] {
      OutgoingMembers(edges[..|edges| - 1], source);
      assert edges == edges[..|edges| - 1] + [edges[|edges| - 1]];
    }
  }

  /** No incoming edge is a count of zero. */
  lemma {:induction false} InCountZero(edges: seq<ImportEdge>, target: string)
    ensures InCount(edges, target) == 0 <==> forall e :: e in edges ==> e.target != target
  {
    if edges != [] {
      InCountZero(edges[..|edges| - 1], target);
      assert edges == edges[..|edges| - 1] + [edges[|edges| - 1]];
    }
  }

  function EdgeTargets(edges: seq<ImportEdge>): set<string>
  {
    set e | e in edges :: e.target
  }

  /** `inDegree`: node ids and edge targets, each with its number of
      incoming edges (edges from unknown sources included). */
  function InDegree(nodes: seq<ModuleNode>, edges: seq<ImportEdge>): map<string, nat>
  {
    map k | k in IdSet(nodes) + EdgeTargets(edges) :: InCount(edges, k)
  }

  /** `m.get(k) ?? 0` */
  function RankOf(m: map<string, nat>, k: string): nat
  {
    if k in m then m[k] else 0
  }

  /** `children.get(k) ?? []` */
  function ChildrenOf(children: map<string, seq<string>>, k: string): seq<string>
  {
    if k in children then children[k] else []
  }

  /** Every id some list of `children` holds. */
  function AllChildren(children: map<string, seq<string>>): set<string>
  {
    set k, c | k in children && c in children[k] :: c
  }

  // ---------------------------------------------------------------------------
  // Seeding (lines 31-44)

  /** The ids of the nodes without incoming edges, in node order. */
  function Roots(nodes: seq<ModuleNode>, edges: seq<ImportEdge>): (roots: seq<string>)
    ensures forall id :: id in roots <==> exists n :: n in nodes && n.id == id && InCount(edges, id) == 0
  {
    if nodes == [] then []
    else
      var n := nodes[|nodes| - 1];
      Roots(nodes[..|nodes| - 1], edges) + (if InCount(edges, n.id) == 0 then [n.id] else [])
  }

  /** Every id of `ids` at rank 0. */
  function AllZero(ids: seq<string>): (m: map<string, nat>)
    ensures m.Keys == Elems(ids) && forall k :: k in m ==> m[k] == 0
  {
    map k | k in Elems(ids) :: 0
  }

  /** One more node of the list: its id joins the roots when nothing
      imports it. */
  lemma RootsSnoc(nodes: seq<ModuleNode>, edges: seq<ImportEdge>, i: nat)
    requires i < |nodes|
    ensures Roots(nodes[..i + 1], edges)
         == Roots(nodes[..i], edges) + (if InCount(edges, nodes[i].id) == 0 then [nodes[i].id] else [])
  {
    assert nodes[..i + 1][..i] == nodes[..i];
  }

  /** One more id at rank 0. */
  lemma AllZeroSnoc(ids: seq<string>, id: string)
    ensures AllZero(ids + [id]) == AllZero(ids)[id := 0]
  {
    assert Elems(ids + [id]) == Elems(ids) + {id};
  }

  /** The in-degree table answers `InCount` for every node. */
  lemma InDegreeOf(nodes: seq<ModuleNode>, edges: seq<ImportEdge>, i: nat)
    requires i < |nodes|
    ensures RankOf(InDegree(nodes, edges), nodes[i].id) == InCount(edges, nodes[i].id)
  {
    assert nodes[i] in nodes;
  }

  /** The BFS state: the queue (never shortened; a head index walks it) and
      the rank table. */
  datatype Frontier = Frontier(queue: seq<string>, rank: map<string, nat>)

  /** The roots at rank 0, or `nodes[0]` alone when there is no root. */
  function Seed(nodes: seq<ModuleNode>, edges: seq<ImportEdge>): Frontier
    requires nodes != []
  {
    var roots := Roots(nodes, edges);
    if roots == [] then Frontier([nodes[0].id], map[nodes[0].id := 0])
    else Frontier(roots, AllZero(roots))
  }

  // ---------------------------------------------------------------------------
  // Ranking (lines 46-60)

  /** What visiting a list of children adds: the children seen for the first
      time, in order, and the updated rank table. */
  datatype Discovery = Discovery(pushed: seq<string>, rank: map<string, nat>)

  /** Lines 50-59, one dequeued node whose rank was `currentRank`: a child
      seen for the first time gets `currentRank + 1` and is queued; a child
      already ranked gets the larger of its rank and `currentRank + 1`. */
  function Visit(kids: seq<string>, currentRank: nat, rank: map<string, nat>): (d: Discovery)
    ensures d.rank.Keys == rank.Keys + Elems(kids)
    ensures Elems(d.pushed) == Elems(kids) - rank.Keys
  {
    if kids == [] then Discovery([], rank)
    else
      var d := Visit(kids[..|kids| - 1], currentRank, rank);
      var child := kids[|kids| - 1];
      assert Elems(kids) == Elems(kids[..|kids| - 1]) + {child} by {
        assert kids == kids[..|kids| - 1] + [child];
      }
      if child in d.rank then Discovery(d.pushed, d.rank[child := Max(d.rank[child], currentRank + 1)])
      else
        assert Elems(d.pushed + [child]) == Elems(d.pushed) + {child};
        Discovery(d.pushed + [child], d.rank[child := currentRank + 1])
  }

  /** A visit either discovers nothing or leaves fewer ids of `universe`
      unranked. */
  lemma VisitShrinks(universe: set<string>, kids: seq<string>, currentRank: nat, rank: map<string, nat>)
    requires Elems(kids) <= universe
    ensures var d := Visit(kids, currentRank, rank);
            (d.pushed == [] && d.rank.Keys == rank.Keys) || |universe - d.rank.Keys| < |universe - rank.Keys|
  {
    var d := Visit(kids, currentRank, rank);
    if d.pushed != [] {
      var x := d.pushed[0];
      assert x in Elems(d.pushed);
      Shrink(universe, rank.Keys, x);
      SubsetCard(universe - d.rank.Keys, universe - (rank.Keys + {x}));
    } else {
      assert Elems(d.pushed) == {};
      forall x | x in Elems(kids) ensures x in rank.Keys {
        assert x !in Elems(kids) - rank.Keys;
      }
      assert d.rank.Keys == rank.Keys;
    }
  }

  lemma ChildrenInAll(children: map<string, seq<string>>, k: string)
    ensures Elems(ChildrenOf(children, k)) <= AllChildren(children)
  {
  }

  /** The loop of lines 47-60 from queue position `head` on. */
  function Bfs(children: map<string, seq<string>>, f: Frontier, head: nat): Frontier
    decreases |AllChildren(children) - f.rank.Keys|, |f.queue| - head
  {
    if head >= |f.queue| then f
    else
      var current := f.queue[head];
      var kids := ChildrenOf(children, current);
      var d := Visit(kids, RankOf(f.rank, current), f.rank);
      ChildrenInAll(children, current);
      VisitShrinks(AllChildren(children), kids, RankOf(f.rank, current), f.rank);
      Bfs(children, Frontier(f.queue + d.pushed, d.rank), head + 1)
  }

  /** Lines 63-65: the BFS ranks, with rank 0 for every node it missed. */
  function FullRank(nodes: seq<ModuleNode>, rank: map<string, nat>): (r: map<string, nat>)
    ensures r.Keys == rank.Keys + IdSet(nodes)
    ensures forall k :: k in r ==> r[k] == RankOf(rank, k)
  {
    map k | k in rank.Keys + IdSet(nodes) :: RankOf(rank, k)
  }

  /** The final rank table of lines 31-65. */
  function Ranks(nodes: seq<ModuleNode>, edges: seq<ImportEdge>): (r: map<string, nat>)
    requires nodes != []
    ensures IdSet(nodes) <= r.Keys
  {
    FullRank(nodes, Bfs(Children(nodes, edges), Seed(nodes, edges), 0).rank)
  }

  // ---------------------------------------------------------------------------
  // Layers and positions (lines 68-89)

  /** The ids of the nodes of rank `r`, in node order (repeated ids kept).
      Every node has a rank by now, so `RankOf` stands for `rank.get(id)!`. */
  function Layer(nodes: seq<ModuleNode>, rank: map<string, nat>, r: nat): seq<string>
  {
    if nodes == [] then []
    else
      var n := nodes[|nodes| - 1];
      Layer(nodes[..|nodes| - 1], rank, r) + (if RankOf(rank, n.id) == r then [n.id] else [])
  }

  lemma {:induction false} LayerMembers(nodes: seq<ModuleNode>, rank: map<string, nat>, r: nat)
    ensures forall id :: id in Layer(nodes, rank, r) <==> id in IdSet(nodes) && RankOf(rank, id) == r
  {
    if nodes != [] {
      var n := nodes[|nodes| - 1];
      var init := nodes[..|nodes| - 1];
      LayerMembers(init, rank, r);
      assert Layer(nodes, rank, r) == Layer(init, rank, r) + (if RankOf(rank, n.id) == r then [n.id] else []);
      assert IdSet(nodes) == IdSet(init) + {n.id} by {
        assert nodes == init + [n];
      }
    }
  }

  /** The keys of `layers` in insertion order: each rank once, in order of
      its first node. */
  function LayerOrder(nodes: seq<ModuleNode>, rank: map<string, nat>): seq<nat>
  {
    if nodes == [] then []
    else
      var n := nodes[|nodes| - 1];
      var order := LayerOrder(nodes[..|nodes| - 1], rank);
      if RankOf(rank, n.id) in order then order else order + [RankOf(rank, n.id)]
  }

  lemma {:induction false} LayerOrderMembers(nodes: seq<ModuleNode>, rank: map<string, nat>)
    ensures forall r :: r in LayerOrder(nodes, rank) <==> exists n :: n in nodes && RankOf(rank, n.id) == r
  {
    if nodes != [] {
      var n := nodes[|nodes| - 1];
      var init := nodes[..|nodes| - 1];
      LayerOrderMembers(init, rank);
      assert nodes == init + [n];
      forall r ensures r in LayerOrder(nodes, rank) <==> exists m :: m in nodes && RankOf(rank, m.id) == r {
        if r in LayerOrder(init, rank) {
          var m :| m in init && RankOf(rank, m.id) == r;
          assert m in nodes;
        }
        if r == RankOf(rank, n.id) {
          assert n in nodes;
        }
        if exists m :: m in nodes && RankOf(rank, m.id) == r {
          var m :| m in nodes && RankOf(rank, m.id) == r;
          if m != n {
            assert m in init;
          }
        }
      }
    }
  }

  /** The longest of the listed layers (`maxLayerWidth`). */
  function Widest(nodes: seq<ModuleNode>, rank: map<string, nat>, order: seq<nat>): nat
  {
    if order == [] then 0
    else Max(Widest(nodes, rank, order[..|order| - 1]), |Layer(nodes, rank, order[|order| - 1])|)
  }

  /** The last position of `x` in `s`: where the last write for `x` lands. */
  function LastIndex<T(==)>(s: seq<T>, x: T): (i: nat)
    requires x in s
    ensures i < |s| && s[i] == x && forall j :: i < j < |s| ==> s[j] != x
  {
    if s[|s| - 1] == x then |s| - 1 else LastIndex(s[..|s| - 1], x)
  }

  /** Where the node `id` is drawn: its layer's row, and its column in the
      layer, the layer centred under the widest one. */
  function Place(nodes: seq<ModuleNode>, rank: map<string, nat>, widest: int, id: string): Position
    requires id in IdSet(nodes)
  {
    var layer := Layer(nodes, rank, RankOf(rank, id));
    LayerMembers(nodes, rank, RankOf(rank, id));
    Position((widest - |layer|) * (ColumnStep / 2) + ColumnStep * LastIndex(layer, id), RankOf(rank, id) * RowStep)
  }

  /** Every node at its place (line 93). */
  function Placed(nodes: seq<ModuleNode>, rank: map<string, nat>, widest: int): seq<ModuleNode>
  {
    seq(|nodes|, i requires 0 <= i < |nodes| =>
      assert nodes[i] in nodes;
      nodes[i].(position := Place(nodes, rank, widest, nodes[i].id)))
  }

  /** `getLayoutedElements(nodes, edges).nodes`. */
  function Layout(nodes: seq<ModuleNode>, edges: seq<ImportEdge>): seq<ModuleNode>
  {
    if nodes == [] then nodes
    else
      var rank := Ranks(nodes, edges);
      Placed(nodes, rank, Widest(nodes, rank, LayerOrder(nodes, rank)))
  }

  /** A node list that puts every input node at its place is `Placed`. */
  lemma PlacedOf(nodes: seq<ModuleNode>, rank: map<string, nat>, widest: int, placed: seq<ModuleNode>)
    requires |placed| == |nodes|
    requires forall i :: 0 <= i < |nodes| ==> nodes[i].id in IdSet(nodes) && placed[i] == nodes[i].(position := Place(nodes, rank, widest, nodes[i].id))
    ensures placed == Placed(nodes, rank, widest)
  {
  }

  /** Node `i` of the layout: node `i` of the input at its place. */
  lemma LayoutAt(nodes: seq<ModuleNode>, edges: seq<ImportEdge>, i: nat)
    requires i < |nodes|
    ensures var rank := Ranks(nodes, edges);
            && nodes[i].id in IdSet(nodes)
            && Layout(nodes, edges)[i]
               == nodes[i].(position := Place(nodes, rank, Widest(nodes, rank, LayerOrder(nodes, rank)), nodes[i].id))
  {
    assert nodes[i] in nodes;
  }
}
