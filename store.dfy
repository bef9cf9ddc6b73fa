/** The editor's graph store (useGraphStore.ts): the node and edge lists,
    the last bundle result, the highlighted chunk and the module counter,
    changed in place by the store's actions. */
module Store {
  import opened GraphTypes
  import opened BundlerSpec
  import opened LayoutSpec
  import opened LayoutProps
  import opened StoreSpec
  import Bundler
  import Layout

  /** `chunkMap.get(id)` on the map itself. */
  function Get(m: map<string, ChunkInfo>, id: string): Option<ChunkInfo>
  {
    if id in m then Some(m[id]) else None
  }

  /** Lines 124-129: every module of every chunk, mapped to its chunk's
      colour and id; a later chunk overwrites an earlier one. */
  method BuildChunkMap(chunks: seq<Chunk>) returns (chunkMap: map<string, ChunkInfo>)
    ensures forall id :: Get(chunkMap, id) == LastChunkWith(chunks, id)
  {
    chunkMap := map[];
    for i := 0 to |chunks|
      invariant forall id :: Get(chunkMap, id) == LastChunkWith(chunks[..i], id)
    {
      var chunk := chunks[i];
      var info := ChunkInfo(chunk.color, chunk.id);
      assert chunks[..i + 1][..i] == chunks[..i];
      for j := 0 to |chunk.modules|
        invariant forall id :: Get(chunkMap, id) == if id in chunk.modules[..j] then Some(info) else LastChunkWith(chunks[..i], id)
      {
        assert chunk.modules[..j + 1] == chunk.modules[..j] + [chunk.modules[j]];
        chunkMap := chunkMap[chunk.modules[j] := info];
      }
      assert chunk.modules[..|chunk.modules|] == chunk.modules;
    }
    assert chunks[..|chunks|] == chunks;
  }

  class GraphStore {
    var nodes: seq<ModuleNode>
    var edges: seq<ImportEdge>
    var bundleResult: Option<BundleResult>
    var highlightedChunkId: Option<int>
    /** The source keeps this counter at module level (line 14). */
    var nodeIdCounter: nat

    /** The counter is ahead of every generated id in the node list. */
    ghost predicate Valid()
      reads this
    {
      CounterAhead(nodes, nodeIdCounter)
    }

    /** Lines 14 and 38-42: an empty graph. */
    constructor()
      ensures nodes == [] && edges == [] && bundleResult == None && highlightedChunkId == None
      ensures nodeIdCounter == 0
      ensures Valid()
    {
      nodes, edges, bundleResult, highlightedChunkId := [], [], None, None;
      nodeIdCounter := 0;
    }

    /** Lines 62-71: append module `nodeIdCounter + 1`. `scatter` stands for
        the random point of line 67, used when no position is given. The
        new id is not yet taken. */
    method AddModule(position: Option<Position>, scatter: Position)
      modifies this
      requires Valid()
      ensures nodeIdCounter == old(nodeIdCounter) + 1
      ensures nodes == old(nodes) + [NewModule(nodeIdCounter, if position.Some? then position.value else scatter, old(nodes) == [])]
      ensures ModuleId(nodeIdCounter) !in IdSet(old(nodes))
      ensures edges == old(edges) && bundleResult == old(bundleResult) && highlightedChunkId == old(highlightedChunkId)
      ensures Valid()
    {
      var at := if position.Some? then position.value else scatter;
      AddKeepsCounterAhead(nodes, nodeIdCounter, at);
      nodeIdCounter := nodeIdCounter + 1;
      nodes := nodes + [NewModule(nodeIdCounter, at, nodes == [])];
    }

    /** Lines 73-79: drop the node, its edges and the bundle result. */
    method RemoveNode(nodeId: string)
      modifies this
      requires Valid()
      ensures nodes == WithoutNode(old(nodes), nodeId)
      ensures edges == WithoutIncident(old(edges), nodeId)
      ensures bundleResult == None
      ensures highlightedChunkId == old(highlightedChunkId) && nodeIdCounter == old(nodeIdCounter)
      ensures Valid()
    {
      RemoveNodeClosed(nodes, edges, nodeId);
      nodes := WithoutNode(nodes, nodeId);
      edges := WithoutIncident(edges, nodeId);
      bundleResult := None;
    }

    /** Lines 81-87. */
    method RenameNode(nodeId: string, filename: string)
      modifies this
      requires Valid()
      ensures nodes == Renamed(old(nodes), nodeId, filename)
      ensures edges == old(edges) && bundleResult == old(bundleResult)
      ensures highlightedChunkId == old(highlightedChunkId) && nodeIdCounter == old(nodeIdCounter)
      ensures Valid()
    {
      RenameOnlyFilename(nodes, nodeId, filename);
      assert IdSet(Renamed(nodes, nodeId, filename)) == IdSet(nodes) by {
        SameIdSet(Renamed(nodes, nodeId, filename), nodes);
      }
      nodes := Renamed(nodes, nodeId, filename);
    }

    /** Lines 89-96. */
    method SetEntryPoint(nodeId: string)
      modifies this
      requires Valid()
      ensures nodes == WithEntry(old(nodes), nodeId)
      ensures edges == old(edges) && bundleResult == old(bundleResult)
      ensures highlightedChunkId == old(highlightedChunkId) && nodeIdCounter == old(nodeIdCounter)
      ensures Valid()
    {
      assert IdSet(WithEntry(nodes, nodeId)) == IdSet(nodes) by {
        SameIdSet(WithEntry(nodes, nodeId), nodes);
      }
      nodes := WithEntry(nodes, nodeId);
    }

    /** Lines 98-110. */
    method ToggleEdgeType(edgeId: string)
      modifies this
      requires Valid()
      ensures edges == ToggledAll(old(edges), edgeId)
      ensures nodes == old(nodes) && bundleResult == old(bundleResult)
      ensures highlightedChunkId == old(highlightedChunkId) && nodeIdCounter == old(nodeIdCounter)
      ensures Valid()
    {
      edges := ToggledAll(edges, edgeId);
    }

    /** Lines 112-117. */
    method RemoveEdge(edgeId: string)
      modifies this
      requires Valid()
      ensures edges == WithoutEdge(old(edges), edgeId)
      ensures bundleResult == None
      ensures nodes == old(nodes) && highlightedChunkId == old(highlightedChunkId) && nodeIdCounter == old(nodeIdCounter)
      ensures Valid()
    {
      edges := WithoutEdge(edges, edgeId);
      bundleResult := None;
    }

    /** Lines 119-146: bundle the graph, annotate the nodes from the result
        and keep the result. */
    method RunBundler()
      modifies this
      requires Valid()
      ensures bundleResult == Some(Bundle(old(nodes), old(edges)))
      ensures nodes == Annotated(old(nodes), Bundle(old(nodes), old(edges)))
      ensures edges == old(edges) && highlightedChunkId == old(highlightedChunkId) && nodeIdCounter == old(nodeIdCounter)
      ensures Valid()
    {
      var result := Bundler.RunBundler(nodes, edges);
      var chunkMap := BuildChunkMap(result.chunks);
      var current := nodes;
      var updated := seq(|current|, i requires 0 <= i < |current| =>
        Annotate(current[i], Get(chunkMap, current[i].id), result.unreachableModules));
      assert updated == Annotated(current, result);
      assert IdSet(updated) == IdSet(current) by {
        SameIdSet(updated, current);
      }
      nodes, bundleResult := updated, Some(result);
    }

    /** Lines 148-151: an empty graph and a reset counter. */
    method ClearGraph()
      modifies this
      ensures nodes == [] && edges == [] && bundleResult == None && highlightedChunkId == None
      ensures nodeIdCounter == 0
      ensures Valid()
    {
      nodeIdCounter := 0;
      nodes, edges, bundleResult, highlightedChunkId := [], [], None, None;
    }

    /** Lines 153-166: show an example graph, laid out; the counter becomes
        the example's node count. */
    method LoadExample(exampleNodes: seq<ModuleNode>, exampleEdges: seq<ImportEdge>)
      modifies this
      ensures nodeIdCounter == |exampleNodes|
      ensures nodes == LayoutSpec.Layout(exampleNodes, exampleEdges) && edges == exampleEdges
      ensures bundleResult == None && highlightedChunkId == None
      ensures Valid() <==> CounterAhead(exampleNodes, |exampleNodes|)
    {
      var layoutedNodes, layoutedEdges := Layout.GetLayoutedElements(exampleNodes, exampleEdges);
      nodeIdCounter := |exampleNodes|;
      nodes, edges := layoutedNodes, layoutedEdges;
      bundleResult, highlightedChunkId := None, None;
      CounterAheadIds(nodes, exampleNodes, nodeIdCounter) by {
        LayoutIdSet(exampleNodes, exampleEdges);
      }
    }

    /** Lines 168-170. */
    method SetHighlightedChunkId(chunkId: Option<int>)
      requires Valid()
      modifies this
      ensures Valid()
      ensures highlightedChunkId == chunkId
      ensures nodes == old(nodes) && edges == old(edges) && bundleResult == old(bundleResult)
      ensures nodeIdCounter == old(nodeIdCounter)
    {
      highlightedChunkId := chunkId;
    }
  }
}
