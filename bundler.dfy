/** `runBundler` (bundler.ts lines 4-157) as an imperative method, proved
    equal to `BundlerSpec.Bundle`. The module-to-chunks Map is a map plus its
    key insertion order; `chunks` and the queue are sequences the method
    reassigns. */
module Bundler {
  import opened GraphTypes
  import opened Collections
  import opened ImportGraph
  import opened StaticClosure
  import opened Colors
  import opened BundlerSpec
  import opened BundlerProps

  /** Lines 73-78 and 107-112: mark every member visited and append
      `chunkId` to its chunk list. */
  method RecordModules(chunksOf: map<string, seq<nat>>, order: seq<string>, globalVisited: set<string>,
                       members: seq<string>, chunkId: nat)
    returns (chunksOf': map<string, seq<nat>>, order': seq<string>, globalVisited': set<string>)
    ensures ChunkIndex(chunksOf', order') == Record(ChunkIndex(chunksOf, order), members, chunkId)
    ensures globalVisited' == globalVisited + Elems(members)
  {
    chunksOf', order', globalVisited' := chunksOf, order, globalVisited;
    for k := 0 to |members|
      invariant ChunkIndex(chunksOf', order') == Record(ChunkIndex(chunksOf, order), members[..k], chunkId)
      invariant globalVisited' == globalVisited + Elems(members[..k])
    {
      assert members[..k + 1][..k] == members[..k];
      assert Elems(members[..k + 1]) == Elems(members[..k]) + {members[k]} by {
        assert members[..k + 1] == members[..k] + [members[k]];
      }
      var mod := members[k];
      globalVisited' := globalVisited' + {mod};
      var existing: seq<nat> := if mod in chunksOf' then chunksOf'[mod] else [];
      if mod !in chunksOf' {
        // A new key of a JS Map is iterated after every existing key.
        order' := order' + [mod];
        assert existing + [chunkId] == [chunkId];
      }
      chunksOf' := chunksOf'[mod := existing + [chunkId]];
    }
    assert members[..|members|] == members;
  }

  /** Lines 80-82 and 114-116. */
  method EnqueueTargets(pending: seq<PendingImport>, targets: seq<string>, sourceChunkId: nat)
    returns (pending': seq<PendingImport>)
    ensures pending' == pending + Enqueue(targets, sourceChunkId)
  {
    pending' := pending;
    for k := 0 to |targets|
      invariant pending' == pending + Enqueue(targets[..k], sourceChunkId)
    {
      assert targets[..k + 1][..k] == targets[..k];
      pending' := pending' + [PendingImport(targets[k], sourceChunkId)];
    }
    assert targets[..|targets|] == targets;
  }

  /** Lines 120-125: walk the Map in key order and keep the keys with two or
      more chunk ids. */
  method CollectShared(chunksOf: map<string, seq<nat>>, order: seq<string>) returns (shared: seq<string>)
    ensures shared == SharedOf(chunksOf, order)
  {
    shared := [];
    for k := 0 to |order|
      invariant shared == SharedOf(chunksOf, order[..k])
    {
      assert order[..k + 1][..k] == order[..k];
      var modId := order[k];
      if modId in chunksOf && |chunksOf[modId]| >= 2 {
        shared := shared + [modId];
      }
    }
    assert order[..|order|] == order;
  }

  /** Lines 144-148: strip the shared modules from every non-shared chunk. */
  method RemoveShared(chunks: seq<Chunk>, shared: seq<string>) returns (chunks': seq<Chunk>)
    ensures chunks' == StripShared(chunks, shared)
  {
    chunks' := chunks;
    for k := 0 to |chunks|
      invariant |chunks'| == |chunks|
      invariant forall i :: 0 <= i < k ==>
                  chunks'[i] == if chunks[i].kind != Shared then chunks[i].(modules := Without(chunks[i].modules, shared))
                                else chunks[i]
      invariant forall i :: k <= i < |chunks| ==> chunks'[i] == chunks[i]
    {
      var chunk := chunks'[k];
      if chunk.kind != Shared {
        chunks' := chunks'[k := chunk.(modules := Without(chunk.modules, shared))];
      }
    }
    ghost var stripped := StripShared(chunks, shared);
    assert forall i :: 0 <= i < |chunks| ==> chunks'[i] == stripped[i];
  }

  /** Lines 92-116: build the async chunk of `targetId`, record its modules
      and queue its dynamic boundary. */
  method AddAsyncChunk(nodes: seq<ModuleNode>, staticAdj: Adj, dynamicAdj: Adj, targetId: string, asyncChunkId: nat,
                       chunks0: seq<Chunk>, chunksOf0: map<string, seq<nat>>, order0: seq<string>,
                       globalVisited0: set<string>, pending0: seq<PendingImport>)
    returns (chunks: seq<Chunk>, chunksOf: map<string, seq<nat>>, order: seq<string>, globalVisited: set<string>,
             pending: seq<PendingImport>)
    requires ChunkIndex(chunksOf0, order0) == IndexOf(chunks0)
    requires globalVisited0 == AllModules(chunks0)
    ensures chunks == chunks0 + [AsyncChunk(nodes, staticAdj, dynamicAdj, targetId, asyncChunkId)]
    ensures pending == pending0 + Enqueue(Closure(staticAdj, dynamicAdj, targetId).dynamicTargets, asyncChunkId)
    ensures ChunkIndex(chunksOf, order) == IndexOf(chunks)
    ensures globalVisited == AllModules(chunks)
  {
    var asyncResult := CollectStaticReachable(staticAdj, dynamicAdj, targetId);
    var targetName := DisplayName(nodes, targetId);
    var asyncChunk := Chunk(asyncChunkId, Async, asyncResult.modules, ChunkColor(asyncChunkId),
                            LazyTarget(targetName));
    IndexOfAppend(chunks0, asyncChunk);
    chunks := chunks0 + [asyncChunk];
    chunksOf, order, globalVisited := RecordModules(chunksOf0, order0, globalVisited0, asyncResult.modules, asyncChunkId);
    pending := EnqueueTargets(pending0, asyncResult.dynamicTargets, asyncChunkId);
  }

  /** The queue's state between two turns of the loop of lines 87-117. */
  datatype QueueState = QueueState(pending: seq<PendingImport>, processed: set<string>, chunks: seq<Chunk>,
                                   chunksOf: map<string, seq<nat>>, order: seq<string>, globalVisited: set<string>)

  ghost predicate QueueInvariant(dynamicAdj: Adj, q: QueueState)
  {
    && (forall p :: p in q.pending ==> p.targetId in AdjTargets(dynamicAdj))
    && ChunkIndex(q.chunksOf, q.order) == IndexOf(q.chunks)
    && q.globalVisited == AllModules(q.chunks)
  }

  /** Lines 88-116: one turn of the queue loop. It keeps the invariant and
      the chunks `Expand` will end with, and makes progress. */
  method QueueTurn(nodes: seq<ModuleNode>, staticAdj: Adj, dynamicAdj: Adj, q: QueueState) returns (q': QueueState)
    requires QueueInvariant(dynamicAdj, q) && q.pending != []
    ensures QueueInvariant(dynamicAdj, q')
    ensures Expand(nodes, staticAdj, dynamicAdj, q'.pending, q'.processed, q'.chunks)
         == Expand(nodes, staticAdj, dynamicAdj, q.pending, q.processed, q.chunks)
    ensures |AdjTargets(dynamicAdj) - q'.processed| < |AdjTargets(dynamicAdj) - q.processed|
            || (q'.processed == q.processed && |q'.pending| < |q.pending|)
  {
    var targetId := q.pending[0].targetId;
    var pending := q.pending[1..];
    if targetId in q.processed {
      ExpandSkip(nodes, staticAdj, dynamicAdj, q.pending, q.processed, q.chunks);
      return q.(pending := pending);
    }
    var processed := q.processed + {targetId};
    var chunks, chunksOf, order, globalVisited;
    chunks, chunksOf, order, globalVisited, pending :=
      AddAsyncChunk(nodes, staticAdj, dynamicAdj, targetId, |q.chunks|, q.chunks, q.chunksOf, q.order,
                    q.globalVisited, pending);
    ExpandNew(nodes, staticAdj, dynamicAdj, q.pending, q.processed, q.chunks);
    q' := QueueState(pending, processed, chunks, chunksOf, order, globalVisited);
  }

  /** The queue loop of lines 85-117, from the queue the main chunk left. */
  method ProcessQueue(nodes: seq<ModuleNode>, staticAdj: Adj, dynamicAdj: Adj, pending0: seq<PendingImport>,
                      chunks0: seq<Chunk>, chunksOf0: map<string, seq<nat>>, order0: seq<string>,
                      globalVisited0: set<string>)
    returns (chunks: seq<Chunk>, chunksOf: map<string, seq<nat>>, order: seq<string>, globalVisited: set<string>)
    requires forall p :: p in pending0 ==> p.targetId in AdjTargets(dynamicAdj)
    requires ChunkIndex(chunksOf0, order0) == IndexOf(chunks0)
    requires globalVisited0 == AllModules(chunks0)
    ensures chunks == Expand(nodes, staticAdj, dynamicAdj, pending0, {}, chunks0)
    ensures ChunkIndex(chunksOf, order) == IndexOf(chunks)
    ensures globalVisited == AllModules(chunks)
  {
    var q := QueueState(pending0, {}, chunks0, chunksOf0, order0, globalVisited0);
    ghost var goal := Expand(nodes, staticAdj, dynamicAdj, pending0, {}, chunks0);
    while q.pending != []
      invariant QueueInvariant(dynamicAdj, q)
      invariant Expand(nodes, staticAdj, dynamicAdj, q.pending, q.processed, q.chunks) == goal
      decreases |AdjTargets(dynamicAdj) - q.processed|, |q.pending|
    {
      q := QueueTurn(nodes, staticAdj, dynamicAdj, q);
    }
    return q.chunks, q.chunksOf, q.order, q.globalVisited;
  }

  /** Lines 119-149: list the shared modules and, when there are any, add
      the shared chunk and strip its modules from the others. */
  method ExtractShared(nodes: seq<ModuleNode>, chunks0: seq<Chunk>, chunksOf: map<string, seq<nat>>,
                       order: seq<string>) returns (chunks: seq<Chunk>)
    requires ChunkIndex(chunksOf, order) == IndexOf(chunks0)
    ensures chunks == Extract(nodes, chunks0)
  {
    chunks := chunks0;
    var sharedModules := CollectShared(chunksOf, order);
    if |sharedModules| > 0 {
      var sharedChunkId := |chunks|;
      var sharedNames := DisplayNames(nodes, sharedModules);
      var sharedChunk := Chunk(sharedChunkId, Shared, sharedModules, ChunkColor(sharedChunkId),
                               SharedModules(sharedNames));
      chunks := chunks + [sharedChunk];
      chunks := RemoveShared(chunks, sharedModules);
    }
  }

  /** `runBundler(nodes, edges)`. */
  method RunBundler(nodes: seq<ModuleNode>, edges: seq<ImportEdge>) returns (result: BundleResult)
    ensures result == Bundle(nodes, edges)
  {
    var entryNode := FindEntry(nodes);
    if entryNode.None? {
      return BundleResult([], Ids(nodes));
    }
    var entryId := entryNode.value.id;
    var staticAdj, dynamicAdj := BuildAdjacency(nodes, edges);

    var mainResult := CollectStaticReachable(staticAdj, dynamicAdj, entryId);
    var mainChunkId := 0;
    var mainChunk := Chunk(mainChunkId, Main, mainResult.modules, ChunkColor(mainChunkId), EntryPoint);
    IndexOfAppend([], mainChunk);
    var chunksOf, order, globalVisited := RecordModules(map[], [], {}, mainResult.modules, mainChunkId);
    var pending := EnqueueTargets([], mainResult.dynamicTargets, mainChunkId);

    var chunks;
    chunks, chunksOf, order, globalVisited :=
      ProcessQueue(nodes, staticAdj, dynamicAdj, pending, [mainChunk], chunksOf, order, globalVisited);
    assert chunks == PreChunks(nodes, edges, entryId) by {
      assert pending == Enqueue(mainResult.dynamicTargets, 0);
      PreChunksUnfold(nodes, edges, entryId);
    }
    chunks := ExtractShared(nodes, chunks, chunksOf, order);
    result := BundleResult(NonEmpty(chunks), Unreachable(nodes, globalVisited));
  }
}
