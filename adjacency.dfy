/** The static and dynamic adjacency lists the bundler builds from the import
    edges (bundler.ts lines 10-26). */
module ImportGraph {
  import opened GraphTypes

  type Adj = map<string, seq<string>>

  /** `(edge.data?.importType ?? 'static') === 'static'`: only a missing tag
      defaults to static; every other tag but 'static' counts as dynamic. */
  predicate IsStatic(e: ImportEdge)
  {
    e.importType == None || e.importType == Some(Static)
  }

  /** Which edges a target list collects. The layout pass takes every edge. */
  datatype EdgeFilter = StaticOnly | DynamicOnly | AnyKind

  predicate Keeps(f: EdgeFilter, e: ImportEdge)
  {
    match f
    case StaticOnly => IsStatic(e)
    case DynamicOnly => !IsStatic(e)
    case AnyKind => true
  }

  /** The targets of the edges leaving `source` that `f` keeps, in edge order,
      one entry per edge (no deduplication). */
  function Targets(edges: seq<ImportEdge>, source: string, f: EdgeFilter): (ts: seq<string>)
    ensures |ts| <= |edges|
    ensures forall t :: t in ts <==> exists e :: e in edges && e.source == source && Keeps(f, e) && e.target == t
  {
    if edges == [] then []
    else
      var e := edges[|edges| - 1];
      var init := edges[..|edges| - 1];
      assert forall x :: x in edges <==> x in init || x == e;
      Targets(init, source, f) + (if e.source == source && Keeps(f, e) then [e.target] else [])
  }

  /** Every node id has a (possibly empty) list; edges whose source is not a
      node id contribute nothing, while their targets are kept as they are. */
  function Adjacency(nodes: seq<ModuleNode>, edges: seq<ImportEdge>, f: EdgeFilter): Adj
  {
    map id | id in IdSet(nodes) :: Targets(edges, id, f)
  }

  /** `adj.get(v) ?? []`. */
  function Succ(adj: Adj, v: string): seq<string>
  {
    if v in adj then adj[v] else []
  }

  /** Every id that occurs in some list of `adj`. */
  function AdjTargets(adj: Adj): set<string>
  {
    set v, t | v in adj && t in adj[v] :: t
  }

  lemma SuccInAdjTargets(adj: Adj, v: string)
    ensures forall t :: t in Succ(adj, v) ==> t in AdjTargets(adj)
  {
  }

  /** A source that is not a node id has empty lists; a node id's list holds
      exactly the targets of its matching edges. */
  lemma AdjacencyLookup(nodes: seq<ModuleNode>, edges: seq<ImportEdge>, f: EdgeFilter, v: string)
    ensures v !in IdSet(nodes) ==> Succ(Adjacency(nodes, edges, f), v) == []
    ensures v in IdSet(nodes) ==> Succ(Adjacency(nodes, edges, f), v) == Targets(edges, v, f)
  {
  }

  /** Each edge leaving a node lands in exactly one of the two lists: the two
      lists of a source together are as long as its edge list. */
  lemma {:induction false} EdgesSplitInTwo(edges: seq<ImportEdge>, source: string)
    ensures |Targets(edges, source, StaticOnly)| + |Targets(edges, source, DynamicOnly)|
         == |Targets(edges, source, AnyKind)|
  {
    if edges != [] {
      EdgesSplitInTwo(edges[..|edges| - 1], source);
    }
  }

  /** An edge from a node id puts its target, dangling or not, in the list its
      tag selects. */
  lemma EdgeTargetListed(nodes: seq<ModuleNode>, edges: seq<ImportEdge>, e: ImportEdge)
    requires e in edges && e.source in IdSet(nodes)
    ensures IsStatic(e) ==> e.target in Succ(Adjacency(nodes, edges, StaticOnly), e.source)
    ensures !IsStatic(e) ==> e.target in Succ(Adjacency(nodes, edges, DynamicOnly), e.source)
  {
  }

  /** Appending one edge extends one target list at most. */
  lemma TargetsSnoc(edges: seq<ImportEdge>, e: ImportEdge, source: string, f: EdgeFilter)
    ensures Targets(edges + [e], source, f)
         == Targets(edges, source, f) + (if e.source == source && Keeps(f, e) then [e.target] else [])
  {
    assert (edges + [e])[..|edges|] == edges;
  }

  /** An edge the lists keep extends its source's list. */
  lemma AdjacencyAppendKept(nodes: seq<ModuleNode>, edges: seq<ImportEdge>, e: ImportEdge, f: EdgeFilter)
    requires e.source in IdSet(nodes) && Keeps(f, e)
    ensures Adjacency(nodes, edges + [e], f)
         == Adjacency(nodes, edges, f)[e.source := Targets(edges, e.source, f) + [e.target]]
  {
    var after := Adjacency(nodes, edges + [e], f);
    var expected := Adjacency(nodes, edges, f)[e.source := Targets(edges, e.source, f) + [e.target]];
    forall id | id in after
      ensures after[id] == expected[id]
    {
      TargetsSnoc(edges, e, id, f);
    }
  }

  /** An edge from outside the node ids, or one the filter drops, changes
      nothing. */
  lemma AdjacencyAppendSkipped(nodes: seq<ModuleNode>, edges: seq<ImportEdge>, e: ImportEdge, f: EdgeFilter)
    requires !(e.source in IdSet(nodes) && Keeps(f, e))
    ensures Adjacency(nodes, edges + [e], f) == Adjacency(nodes, edges, f)
  {
    var after, before := Adjacency(nodes, edges + [e], f), Adjacency(nodes, edges, f);
    forall id | id in after
      ensures after[id] == before[id]
    {
      TargetsSnoc(edges, e, id, f);
    }
  }

  /** Appending one edge appends its target to its source's list, when the
      source is a node id and the filter keeps the edge. */
  lemma AdjacencyAppend(nodes: seq<ModuleNode>, edges: seq<ImportEdge>, e: ImportEdge, f: EdgeFilter)
    ensures Adjacency(nodes, edges + [e], f)
         == if e.source in IdSet(nodes) && Keeps(f, e)
            then Adjacency(nodes, edges, f)[e.source := Targets(edges, e.source, f) + [e.target]]
            else Adjacency(nodes, edges, f)
  {
    if e.source in IdSet(nodes) && Keeps(f, e) {
      AdjacencyAppendKept(nodes, edges, e, f);
    } else {
      AdjacencyAppendSkipped(nodes, edges, e, f);
    }
  }

  /** bundler.ts lines 11-26: one map entry per node id, then one append per
      edge whose source is a node id. */
  method BuildAdjacency(nodes: seq<ModuleNode>, edges: seq<ImportEdge>) returns (staticAdj: Adj, dynamicAdj: Adj)
    ensures staticAdj == Adjacency(nodes, edges, StaticOnly)
    ensures dynamicAdj == Adjacency(nodes, edges, DynamicOnly)
  {
    staticAdj, dynamicAdj := map[], map[];
    for i := 0 to |nodes|
      invariant staticAdj == map id | id in IdSet(nodes[..i]) :: []
      invariant dynamicAdj == map id | id in IdSet(nodes[..i]) :: []
    {
      IdSetSnoc(nodes, i);
      staticAdj := staticAdj[nodes[i].id := []];
      dynamicAdj := dynamicAdj[nodes[i].id := []];
    }
    assert nodes[..|nodes|] == nodes;
    for j := 0 to |edges|
      invariant staticAdj == Adjacency(nodes, edges[..j], StaticOnly)
      invariant dynamicAdj == Adjacency(nodes, edges[..j], DynamicOnly)
    {
      var edge := edges[j];
      assert edges[..j + 1] == edges[..j] + [edge];
      if IsStatic(edge) {
        AdjacencyAppendSkipped(nodes, edges[..j], edge, DynamicOnly);
        if edge.source in staticAdj {
          AdjacencyAppendKept(nodes, edges[..j], edge, StaticOnly);
          staticAdj := staticAdj[edge.source := staticAdj[edge.source] + [edge.target]];
        } else {
          AdjacencyAppendSkipped(nodes, edges[..j], edge, StaticOnly);
        }
      } else {
        AdjacencyAppendSkipped(nodes, edges[..j], edge, StaticOnly);
        if edge.source in dynamicAdj {
          AdjacencyAppendKept(nodes, edges[..j], edge, DynamicOnly);
          dynamicAdj := dynamicAdj[edge.source := dynamicAdj[edge.source] + [edge.target]];
        } else {
          AdjacencyAppendSkipped(nodes, edges[..j], edge, DynamicOnly);
        }
      }
    }
    assert edges[..|edges|] == edges;
  }
}
