/** What the layered layout guarantees, proved about the functions of
    `LayoutSpec`. */
module LayoutProps {
  import opened GraphTypes
  import opened Collections
  import opened LayoutSpec

  // ---------------------------------------------------------------------------
  // Ranking (lines 46-65)

  /** Lines 51-58: after a visit, a child seen for the first time has its
      parent's rank + 1, a child already ranked has the larger of its rank
      and the parent's rank + 1, and every other rank is unchanged; the
      newly queued children are distinct. */
  lemma {:induction false} VisitRanks(kids: seq<string>, currentRank: nat, rank: map<string, nat>)
    ensures var d := Visit(kids, currentRank, rank);
            && NoDup(d.pushed)
            && forall k :: k in d.rank ==>
                 d.rank[k] == (if k !in kids then rank[k]
                               else if k in rank then Max(rank[k], currentRank + 1)
                               else currentRank + 1)
  {
    if kids != [] {
      var init, child := kids[..|kids| - 1], kids[|kids| - 1];
      VisitRanks(init, currentRank, rank);
      var d := Visit(init, currentRank, rank);
      assert kids == init + [child];
      if child !in d.rank {
        assert child !in Elems(d.pushed);
        NoDupSnoc(d.pushed, child);
      }
    }
  }

  /** What the BFS turn at queue position `head` discovers. */
  function TurnVisit(children: map<string, seq<string>>, f: Frontier, head: nat): Discovery
    requires head < |f.queue|
  {
    var current := f.queue[head];
    Visit(ChildrenOf(children, current), RankOf(f.rank, current), f.rank)
  }

  /** One turn of the loop of lines 47-60: the run goes on from the grown
      queue and table; the discovered ids are new, distinct and ranked. */
  lemma TurnFacts(children: map<string, seq<string>>, f: Frontier, head: nat)
    requires head < |f.queue|
    ensures var d := TurnVisit(children, f, head);
            && Bfs(children, f, head) == Bfs(children, Frontier(f.queue + d.pushed, d.rank), head + 1)
            && ((d.pushed == [] && d.rank.Keys == f.rank.Keys)
                || |AllChildren(children) - d.rank.Keys| < |AllChildren(children) - f.rank.Keys|)
            && NoDup(d.pushed)
            && (forall x :: x in d.pushed ==> x !in f.rank && x in d.rank)
            && f.rank.Keys <= d.rank.Keys
            && Elems(d.pushed) <= d.rank.Keys
  {
    var current := f.queue[head];
    var kids := ChildrenOf(children, current);
    var d := TurnVisit(children, f, head);
    ChildrenInAll(children, current);
    VisitShrinks(AllChildren(children), kids, RankOf(f.rank, current), f.rank);
    VisitRanks(kids, RankOf(f.rank, current), f.rank);
    forall x | x in d.pushed ensures x !in f.rank && x in d.rank {
      assert x in Elems(d.pushed);
    }
  }

  /** The queue a BFS run ends with extends the one it started from with
      distinct ids that had no rank at the start: an id is queued by
      discovery at most once, and never after it was seeded. */
  lemma {:induction false} BfsQueue(children: map<string, seq<string>>, f: Frontier, head: nat)
    ensures var r := Bfs(children, f, head);
            && |f.queue| <= |r.queue|
            && (forall i :: 0 <= i < |f.queue| ==> r.queue[i] == f.queue[i])
            && (forall i, j :: |f.queue| <= i < j < |r.queue| ==> r.queue[i] != r.queue[j])
            && (forall i :: |f.queue| <= i < |r.queue| ==> r.queue[i] !in f.rank)
    decreases |AllChildren(children) - f.rank.Keys|, |f.queue| - head
  {
    if head < |f.queue| {
      var d := TurnVisit(children, f, head);
      var g := Frontier(f.queue + d.pushed, d.rank);
      TurnFacts(children, f, head);
      BfsQueue(children, g, head + 1);
      QueueStep(f.queue, f.rank, d.pushed, d.rank, Bfs(children, g, head + 1).queue);
    }
  }

  /** One BFS turn of `BfsQueue`: the queue `fq + pushed` grows to `rq`. */
  lemma QueueStep(fq: seq<string>, frank: map<string, nat>, pushed: seq<string>, grank: map<string, nat>,
                  rq: seq<string>)
    requires NoDup(pushed) && (forall x :: x in pushed ==> x !in frank && x in grank) && frank.Keys <= grank.Keys
    requires |fq + pushed| <= |rq|
    requires forall i :: 0 <= i < |fq + pushed| ==> rq[i] == (fq + pushed)[i]
    requires forall i, j :: |fq + pushed| <= i < j < |rq| ==> rq[i] != rq[j]
    requires forall i :: |fq + pushed| <= i < |rq| ==> rq[i] !in grank
    ensures && |fq| <= |rq|
            && (forall i :: 0 <= i < |fq| ==> rq[i] == fq[i])
            && (forall i, j :: |fq| <= i < j < |rq| ==> rq[i] != rq[j])
            && (forall i :: |fq| <= i < |rq| ==> rq[i] !in frank)
  {
    var n := |fq + pushed|;
    forall i | 0 <= i < |fq| ensures rq[i] == fq[i] {
      assert (fq + pushed)[i] == fq[i];
    }
    forall i, j | |fq| <= i < j < |rq| ensures rq[i] != rq[j] {
      if j < n {
        assert rq[i] == pushed[i - |fq|] && rq[j] == pushed[j - |fq|];
      } else if i < n {
        assert rq[i] == pushed[i - |fq|];
        assert rq[i] in pushed;
      }
    }
    forall i | |fq| <= i < |rq| ensures rq[i] !in frank {
      if i < n {
        assert rq[i] == pushed[i - |fq|];
        assert rq[i] in pushed;
      }
    }
  }

  /** Lines 51-58 over a whole run: ranks are only ever raised, no rank is
      dropped, and an id no edge leads to keeps its rank. */
  lemma {:induction false} BfsRanks(children: map<string, seq<string>>, f: Frontier, head: nat)
    ensures var r := Bfs(children, f, head);
            && (forall k :: k in f.rank ==> k in r.rank && r.rank[k] >= f.rank[k])
            && (forall k :: k in f.rank && k !in AllChildren(children) ==> r.rank[k] == f.rank[k])
    decreases |AllChildren(children) - f.rank.Keys|, |f.queue| - head
  {
    if head < |f.queue| {
      var current := f.queue[head];
      var d := TurnVisit(children, f, head);
      var g := Frontier(f.queue + d.pushed, d.rank);
      TurnFacts(children, f, head);
      BfsRanks(children, g, head + 1);
      RanksStep(AllChildren(children), ChildrenOf(children, current), RankOf(f.rank, current), f.rank,
                Bfs(children, g, head + 1).rank);
    }
  }

  /** Lines 47-59: every queued id has a rank, so the `?? 0` of line 49 is
      never taken. */
  lemma {:induction false} BfsQueueRanked(children: map<string, seq<string>>, f: Frontier, head: nat)
    requires Elems(f.queue) <= f.rank.Keys
    ensures var r := Bfs(children, f, head);
            Elems(r.queue) <= r.rank.Keys
    decreases |AllChildren(children) - f.rank.Keys|, |f.queue| - head
  {
    if head < |f.queue| {
      var d := TurnVisit(children, f, head);
      TurnFacts(children, f, head);
      ElemsAppend(f.queue, d.pushed);
      BfsQueueRanked(children, Frontier(f.queue + d.pushed, d.rank), head + 1);
    }
  }

  /** One BFS turn of `BfsRanks`: the visit's table grows to `rrank`. */
  lemma RanksStep(universe: set<string>, kids: seq<string>, currentRank: nat, frank: map<string, nat>,
                  rrank: map<string, nat>)
    requires Elems(kids) <= universe
    requires var grank := Visit(kids, currentRank, frank).rank;
             && (forall k :: k in grank ==> k in rrank && rrank[k] >= grank[k])
             && (forall k :: k in grank && k !in universe ==> rrank[k] == grank[k])
    ensures forall k :: k in frank ==> k in rrank && rrank[k] >= frank[k]
    ensures forall k :: k in frank && k !in universe ==> rrank[k] == frank[k]
  {
    VisitRanks(kids, currentRank, frank);
  }

  // ---------------------------------------------------------------------------
  // Seeding (lines 31-44)

  lemma {:induction false} RootsNoDup(nodes: seq<ModuleNode>, edges: seq<ImportEdge>)
    requires NoDup(Ids(nodes))
    ensures NoDup(Roots(nodes, edges))
  {
    if nodes != [] {
      var init, n := nodes[..|nodes| - 1], nodes[|nodes| - 1];
      assert Ids(init) == Ids(nodes)[..|nodes| - 1];
      NoDupInit(Ids(nodes));
      RootsNoDup(init, edges);
      if InCount(edges, n.id) == 0 {
        assert n.id !in Ids(init);
        assert n.id !in Roots(init, edges);
        NoDupSnoc(Roots(init, edges), n.id);
      }
    }
  }

  /** Lines 41-44: when every node has an incoming edge, the queue starts
      with `nodes[0]` alone, at rank 0. */
  lemma NoRootSeed(nodes: seq<ModuleNode>, edges: seq<ImportEdge>)
    requires nodes != [] && forall n :: n in nodes ==> InCount(edges, n.id) > 0
    ensures Seed(nodes, edges) == Frontier([nodes[0].id], map[nodes[0].id := 0])
  {
    assert Roots(nodes, edges) == [] by {
      if Roots(nodes, edges) != [] {
        assert Roots(nodes, edges)[0] in Roots(nodes, edges);
      }
    }
  }

  /** No edge leads to a node without incoming edges. */
  lemma RootNotChild(nodes: seq<ModuleNode>, edges: seq<ImportEdge>, id: string)
    requires InCount(edges, id) == 0
    ensures id !in AllChildren(Children(nodes, edges))
  {
    InCountZero(edges, id);
    forall k | k in IdSet(nodes)
      ensures id !in Outgoing(edges, k)
    {
      OutgoingMembers(edges, k);
    }
  }

  /** Lines 33-38 with lines 46-65: a node without incoming edges (of either
      kind, from any source) ends with rank 0. */
  lemma RootRankZero(nodes: seq<ModuleNode>, edges: seq<ImportEdge>, id: string)
    requires id in IdSet(nodes) && InCount(edges, id) == 0
    ensures Ranks(nodes, edges)[id] == 0
  {
    var seed := Seed(nodes, edges);
    assert id in Roots(nodes, edges);
    assert seed.rank == AllZero(Roots(nodes, edges));
    RootNotChild(nodes, edges, id);
    BfsRanks(Children(nodes, edges), seed, 0);
  }

  /** Lines 31-60: with distinct node ids, no id enters the queue twice. */
  lemma QueueOnce(nodes: seq<ModuleNode>, edges: seq<ImportEdge>)
    requires nodes != [] && NoDup(Ids(nodes))
    ensures NoDup(Bfs(Children(nodes, edges), Seed(nodes, edges), 0).queue)
  {
    var seed := Seed(nodes, edges);
    var q := Bfs(Children(nodes, edges), seed, 0).queue;
    RootsNoDup(nodes, edges);
    assert NoDup(seed.queue) && Elems(seed.queue) <= seed.rank.Keys;
    BfsQueue(Children(nodes, edges), seed, 0);
    forall i, j | 0 <= i < j < |q| ensures q[i] != q[j] {
      if j < |seed.queue| {
        assert q[i] == seed.queue[i] && q[j] == seed.queue[j];
      } else if i < |seed.queue| {
        assert q[i] == seed.queue[i] && q[i] in seed.rank;
      }
    }
  }

  /** Line 64: every node has a rank; the ones the BFS never reached have 0. */
  lemma UnreachedRankZero(nodes: seq<ModuleNode>, edges: seq<ImportEdge>, id: string)
    requires id in IdSet(nodes) && id !in Bfs(Children(nodes, edges), Seed(nodes, edges), 0).rank
    ensures Ranks(nodes, edges)[id] == 0
  {
  }

  // ---------------------------------------------------------------------------
  // Positions (lines 68-96)

  /** No listed layer is longer than the widest. */
  lemma {:induction false} WidestBound(nodes: seq<ModuleNode>, rank: map<string, nat>, order: seq<nat>, r: nat)
    requires r in order
    ensures |Layer(nodes, rank, r)| <= Widest(nodes, rank, order)
  {
    if order[|order| - 1] != r {
      assert order == order[..|order| - 1] + [order[|order| - 1]];
      WidestBound(nodes, rank, order[..|order| - 1], r);
    }
  }

  /** Line 16: an empty node list comes back as it is. */
  lemma LayoutEmpty(edges: seq<ImportEdge>)
    ensures Layout([], edges) == []
  {
  }

  /** Lines 91-94: the layout keeps the node list (length, order, ids and
      every field but the position). */
  lemma LayoutKeeps(nodes: seq<ModuleNode>, edges: seq<ImportEdge>)
    ensures var r := Layout(nodes, edges);
            |r| == |nodes| && forall i :: 0 <= i < |nodes| ==> r[i] == nodes[i].(position := r[i].position)
  {
  }

  /** The layout keeps the set of node ids. */
  lemma LayoutIdSet(nodes: seq<ModuleNode>, edges: seq<ImportEdge>)
    ensures IdSet(Layout(nodes, edges)) == IdSet(nodes)
  {
    LayoutKeeps(nodes, edges);
    SameIdSet(Layout(nodes, edges), nodes);
  }

  lemma ColumnArith(widest: int, len: int, column: int)
    requires 0 <= column < len <= widest
    ensures 0 <= (widest - len) * (ColumnStep / 2) + ColumnStep * column
    ensures (widest - len) * (ColumnStep / 2) + ColumnStep * column + NodeWidth <= widest * ColumnStep - HGap
  {
    assert ColumnStep == 240 && ColumnStep / 2 == 120;
  }

  lemma PlaceBounds(nodes: seq<ModuleNode>, rank: map<string, nat>, id: string)
    requires id in IdSet(nodes)
    ensures var widest := Widest(nodes, rank, LayerOrder(nodes, rank));
            var p := Place(nodes, rank, widest, id);
            && p.y == RankOf(rank, id) * RowStep
            && 0 <= p.x && p.x + NodeWidth <= widest * ColumnStep - HGap
  {
    var r := RankOf(rank, id);
    var layer := Layer(nodes, rank, r);
    var n :| n in nodes && n.id == id;
    LayerMembers(nodes, rank, r);
    LayerOrderMembers(nodes, rank);
    WidestBound(nodes, rank, LayerOrder(nodes, rank), r);
    ColumnArith(Widest(nodes, rank, LayerOrder(nodes, rank)), |layer|, LastIndex(layer, id));
  }

  lemma StepsDiffer(step: int, i: int, j: int)
    requires step > 0 && i != j
    ensures step * i != step * j && i * step != j * step
  {
    if i < j {
      assert step * i < step * j;
    } else {
      assert step * j < step * i;
    }
  }

  lemma PlaceDistinct(nodes: seq<ModuleNode>, rank: map<string, nat>, widest: int, a: string, b: string)
    requires a in IdSet(nodes) && b in IdSet(nodes) && a != b
    ensures Place(nodes, rank, widest, a) != Place(nodes, rank, widest, b)
  {
    var r := RankOf(rank, a);
    if r == RankOf(rank, b) {
      var layer := Layer(nodes, rank, r);
      LayerMembers(nodes, rank, r);
      var ia, ib := LastIndex(layer, a), LastIndex(layer, b);
      assert ia != ib by {
        assert layer[ia] != layer[ib];
      }
      var offset := (widest - |layer|) * (ColumnStep / 2);
      assert Place(nodes, rank, widest, a).x == offset + ColumnStep * ia;
      assert Place(nodes, rank, widest, b).x == offset + ColumnStep * ib;
      StepsDiffer(ColumnStep, ia, ib);
    } else {
      assert Place(nodes, rank, widest, a).y == r * RowStep;
      assert Place(nodes, rank, widest, b).y == RankOf(rank, b) * RowStep;
      StepsDiffer(RowStep, r, RankOf(rank, b));
    }
  }

  /** Lines 76-89: a node sits on the row of its rank, and within the width
      of the widest layer: `offsetX` is never negative and the last column
      ends at `totalWidth`. */
  lemma LayoutBounds(nodes: seq<ModuleNode>, edges: seq<ImportEdge>, i: nat)
    requires i < |nodes|
    ensures var p := Layout(nodes, edges)[i].position;
            var rank := Ranks(nodes, edges);
            var widest := Widest(nodes, rank, LayerOrder(nodes, rank));
            && p.y == rank[nodes[i].id] * RowStep
            && 0 <= p.x && p.x + NodeWidth <= widest * ColumnStep - HGap
  {
    LayoutAt(nodes, edges, i);
    PlaceBounds(nodes, Ranks(nodes, edges), nodes[i].id);
  }

  /** Lines 68-89: nodes with different ids get different positions. */
  lemma LayoutDistinct(nodes: seq<ModuleNode>, edges: seq<ImportEdge>, i: nat, j: nat)
    requires i < |nodes| && j < |nodes| && nodes[i].id != nodes[j].id
    ensures Layout(nodes, edges)[i].position != Layout(nodes, edges)[j].position
  {
    var rank := Ranks(nodes, edges);
    LayoutAt(nodes, edges, i);
    LayoutAt(nodes, edges, j);
    PlaceDistinct(nodes, rank, Widest(nodes, rank, LayerOrder(nodes, rank)), nodes[i].id, nodes[j].id);
  }
}
