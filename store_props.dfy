/** What the store's `runBundler` action writes on the nodes, stated against
    the bundle result's own guarantees (useGraphStore.ts lines 119-146). */
module StoreProps {
  import opened GraphTypes
  import opened Collections
  import opened Colors
  import opened BundlerSpec
  import opened BundleFacts
  import opened StoreSpec

  /** The returned chunks are disjoint, so "the last chunk listing the id"
      is the one chunk listing it. */
  lemma LastChunkIsOnly(chunks: seq<Chunk>, id: string, k: nat)
    requires forall i, j, m :: 0 <= i < j < |chunks| && m in chunks[i].modules ==> m !in chunks[j].modules
    requires k < |chunks| && id in chunks[k].modules
    ensures LastChunkWith(chunks, id) == Some(ChunkInfo(chunks[k].color, chunks[k].id))
  {
    LastChunkWithIsLast(chunks, id);
    var k' :| 0 <= k' < |chunks| && id in chunks[k'].modules
              && LastChunkWith(chunks, id).value == ChunkInfo(chunks[k'].color, chunks[k'].id)
              && forall j :: k' < j < |chunks| ==> id !in chunks[j].modules;
    assert k' == k by {
      assert !(k' < k);
      assert !(k < k');
    }
  }

  /** Lines 119-146: after bundling, node `i` keeps everything but its three
      annotations; it carries the id and colour of the returned chunk that
      lists it, and it is flagged unreachable exactly when no chunk lists
      it. */
  lemma AnnotateBundle(nodes: seq<ModuleNode>, edges: seq<ImportEdge>, i: nat)
    requires i < |nodes|
    ensures var r := Bundle(nodes, edges);
            var a := Annotated(nodes, r)[i];
            && a.(chunkColor := nodes[i].chunkColor, chunkId := nodes[i].chunkId,
                  isUnreachable := nodes[i].isUnreachable) == nodes[i]
            && (forall c :: c in r.chunks && nodes[i].id in c.modules ==>
                  a.chunkId == Some(c.id) && a.chunkColor == Some(ChunkColor(c.id)))
            && (a.chunkId.None? <==> !InSomeChunk(r.chunks, nodes[i].id))
            && a.isUnreachable == Some(a.chunkId.None?)
  {
    var r := Bundle(nodes, edges);
    var id := nodes[i].id;
    BundleChunks(nodes, edges);
    LastChunkWithIsLast(r.chunks, id);
    assert id in IdSet(nodes) by {
      assert nodes[i] in nodes;
    }
    forall c | c in r.chunks && id in c.modules
      ensures LastChunkWith(r.chunks, id) == Some(ChunkInfo(ChunkColor(c.id), c.id))
    {
      var k :| 0 <= k < |r.chunks| && r.chunks[k] == c;
      LastChunkIsOnly(r.chunks, id, k);
    }
  }
}
