/** The chunking engine of bundler.ts as functions: what `runBundler`
    computes, stage by stage, in the order the source computes it. The method
    in bundler.dfy is proved equal to `Bundle`; the lemmas in
    bundler_props.dfy state what `Bundle` guarantees. */
module BundlerSpec {
  import opened GraphTypes
  import opened Collections
  import opened ImportGraph
  import opened StaticClosure
  import opened Colors

  /** `names.join(', ')`. */
  function Join(names: seq<string>): string
  {
    if names == [] then ""
    else if |names| == 1 then names[0]
    else Join(names[..|names| - 1]) + ", " + names[|names| - 1]
  }

  /** The `reason` sentence of a chunk, as lines 69, 103 and 139 build it. */
  function ReasonText(reason: ChunkReason): string
  {
    match reason
    case EntryPoint => "Entry point and its static dependencies form the main bundle."
    case LazyTarget(targetName) =>
      "\"" + targetName + "\" is loaded with a dynamic import(), so it becomes a separate async chunk that is only downloaded when needed."
    case SharedModules(names) =>
      Join(names) + " " + (if |names| == 1 then "is" else "are")
      + " imported by multiple chunks, so the bundler extracts " + (if |names| == 1 then "it" else "them")
      + " into a shared chunk to avoid duplication."
  }

  function DisplayNames(nodes: seq<ModuleNode>, ids: seq<string>): (names: seq<string>)
    ensures |names| == |ids|
  {
    if ids == [] then [] else DisplayNames(nodes, ids[..|ids| - 1]) + [DisplayName(nodes, ids[|ids| - 1])]
  }

  /** `nodes.find((n) => n.data.isEntry)`: the first entry-flagged node. */
  function FindEntry(nodes: seq<ModuleNode>): (r: Option<ModuleNode>)
    ensures r.None? <==> forall n :: n in nodes ==> !n.isEntry
    ensures r.Some? ==> exists i :: 0 <= i < |nodes| && nodes[i] == r.value && r.value.isEntry
                          && forall j :: 0 <= j < i ==> !nodes[j].isEntry
  {
    if nodes == [] then None
    else if nodes[0].isEntry then Some(nodes[0])
    else
      var r := FindEntry(nodes[1..]);
      assert forall n :: n in nodes <==> n == nodes[0] || n in nodes[1..];
      assert r.Some? ==> exists i :: 0 <= i < |nodes| && nodes[i] == r.value && r.value.isEntry
                          && forall j :: 0 <= j < i ==> !nodes[j].isEntry by {
        if r.Some? {
          var i :| 0 <= i < |nodes[1..]| && nodes[1..][i] == r.value && r.value.isEntry
                   && forall j :: 0 <= j < i ==> !nodes[1..][j].isEntry;
          assert nodes[i + 1] == r.value;
          assert forall j :: 0 <= j < i + 1 ==> !nodes[j].isEntry by {
            forall j | 0 <= j < i + 1 ensures !nodes[j].isEntry {
              if j > 0 { assert nodes[j] == nodes[1..][j - 1]; }
            }
          }
        }
      }
      r
  }

  /** An entry of `pendingDynamic`. The source records the chunk a target was
      discovered from but never reads it back. */
  datatype PendingImport = PendingImport(targetId: string, sourceChunkId: nat)

  /** Lines 80-82 and 114-116: queue each boundary target, tagged with its chunk. */
  function Enqueue(targets: seq<string>, sourceChunkId: nat): (ps: seq<PendingImport>)
    ensures |ps| == |targets|
    ensures forall p :: p in ps ==> p.targetId in targets && p.sourceChunkId == sourceChunkId
    ensures forall t :: t in targets ==> PendingImport(t, sourceChunkId) in ps
    ensures forall i :: 0 <= i < |targets| ==> ps[i] == PendingImport(targets[i], sourceChunkId)
  {
    if targets == [] then []
    else Enqueue(targets[..|targets| - 1], sourceChunkId) + [PendingImport(targets[|targets| - 1], sourceChunkId)]
  }

  /** `moduleToChunks` (a JS Map): the chunk ids of each module, and the keys
      in first-insertion order, which is the Map's iteration order. */
  datatype ChunkIndex = ChunkIndex(chunksOf: map<string, seq<nat>>, order: seq<string>)

  /** Lines 73-78 and 107-112: append `chunkId` to the list of every member;
      a module seen for the first time becomes the last key. */
  function Record(index: ChunkIndex, members: seq<string>, chunkId: nat): ChunkIndex
  {
    if members == [] then index
    else
      var prev := Record(index, members[..|members| - 1], chunkId);
      var m := members[|members| - 1];
      if m in prev.chunksOf
      then ChunkIndex(prev.chunksOf[m := prev.chunksOf[m] + [chunkId]], prev.order)
      else ChunkIndex(prev.chunksOf[m := [chunkId]], prev.order + [m])
  }

  /** The index after every chunk of `chunks` was recorded, in order. */
  function IndexOf(chunks: seq<Chunk>): ChunkIndex
  {
    if chunks == [] then ChunkIndex(map[], [])
    else
      var c := chunks[|chunks| - 1];
      Record(IndexOf(chunks[..|chunks| - 1]), c.modules, c.id)
  }

  /** Every module that occurs in some chunk (`globalVisited`). */
  function AllModules(chunks: seq<Chunk>): set<string>
  {
    set c, m | c in chunks && m in c.modules :: m
  }

  /** Lines 92-104: the async chunk of a dynamic-import target. */
  function AsyncChunk(nodes: seq<ModuleNode>, staticAdj: Adj, dynamicAdj: Adj, targetId: string, asyncChunkId: nat): Chunk
  {
    Chunk(asyncChunkId, Async, Closure(staticAdj, dynamicAdj, targetId).modules, ChunkColor(asyncChunkId),
          LazyTarget(DisplayName(nodes, targetId)))
  }

  /** The queue loop of lines 87-117 from a given queue, processed set and
      chunk list. Chunk ids are handed out by a counter that equals the
      number of chunks created so far. `AdjTargets(dynamicAdj)` holds every
      target the queue can contain and bounds the loop. */
  function Expand(nodes: seq<ModuleNode>, staticAdj: Adj, dynamicAdj: Adj,
                  pending: seq<PendingImport>, processed: set<string>, chunks: seq<Chunk>): seq<Chunk>
    requires forall p :: p in pending ==> p.targetId in AdjTargets(dynamicAdj)
    decreases |AdjTargets(dynamicAdj) - processed|, |pending|
  {
    if pending == [] then chunks
    else
      var targetId := pending[0].targetId;
      if targetId in processed then Expand(nodes, staticAdj, dynamicAdj, pending[1..], processed, chunks)
      else
        var asyncChunkId := |chunks|;
        Shrink(AdjTargets(dynamicAdj), processed, targetId);
        Expand(nodes, staticAdj, dynamicAdj,
               pending[1..] + Enqueue(Closure(staticAdj, dynamicAdj, targetId).dynamicTargets, asyncChunkId),
               processed + {targetId}, chunks + [AsyncChunk(nodes, staticAdj, dynamicAdj, targetId, asyncChunkId)])
  }

  /** The main chunk and the async chunks, before shared-module extraction. */
  function PreChunks(nodes: seq<ModuleNode>, edges: seq<ImportEdge>, entryId: string): seq<Chunk>
  {
    var staticAdj := Adjacency(nodes, edges, StaticOnly);
    var dynamicAdj := Adjacency(nodes, edges, DynamicOnly);
    var mainResult := Closure(staticAdj, dynamicAdj, entryId);
    Expand(nodes, staticAdj, dynamicAdj, Enqueue(mainResult.dynamicTargets, 0), {},
           [Chunk(0, Main, mainResult.modules, ChunkColor(0), EntryPoint)])
  }

  /** Lines 120-125: the keys, in Map order, listed under two or more chunk ids. */
  function SharedOf(chunksOf: map<string, seq<nat>>, order: seq<string>): (shared: seq<string>)
    ensures forall m :: m in shared <==> m in order && m in chunksOf && |chunksOf[m]| >= 2
    ensures NoDup(order) ==> NoDup(shared)
  {
    if order == [] then []
    else
      var m := order[|order| - 1];
      SharedOf(chunksOf, order[..|order| - 1]) + (if m in chunksOf && |chunksOf[m]| >= 2 then [m] else [])
  }

  /** Lines 144-148: every chunk that is not the shared one loses the shared modules. */
  function StripShared(chunks: seq<Chunk>, shared: seq<string>): (r: seq<Chunk>)
    ensures |r| == |chunks|
    ensures forall i :: 0 <= i < |chunks| ==>
              r[i] == if chunks[i].kind != Shared then chunks[i].(modules := Without(chunks[i].modules, shared))
                      else chunks[i]
  {
    if chunks == [] then []
    else
      var c := chunks[|chunks| - 1];
      StripShared(chunks[..|chunks| - 1], shared)
      + [if c.kind != Shared then c.(modules := Without(c.modules, shared)) else c]
  }

  /** Lines 120-149: shared-module extraction. */
  function Extract(nodes: seq<ModuleNode>, chunks: seq<Chunk>): seq<Chunk>
  {
    var index := IndexOf(chunks);
    var shared := SharedOf(index.chunksOf, index.order);
    if |shared| > 0 then
      var sharedChunkId := |chunks|;
      var sharedChunk := Chunk(sharedChunkId, Shared, shared, ChunkColor(sharedChunkId),
                               SharedModules(DisplayNames(nodes, shared)));
      StripShared(chunks + [sharedChunk], shared)
    else chunks
  }

  /** `chunks.filter((c) => c.modules.length > 0)`. */
  function NonEmpty(chunks: seq<Chunk>): (r: seq<Chunk>)
    ensures forall c :: c in r <==> c in chunks && |c.modules| > 0
  {
    if chunks == [] then []
    else
      var c := chunks[|chunks| - 1];
      NonEmpty(chunks[..|chunks| - 1]) + (if |c.modules| > 0 then [c] else [])
  }

  /** Lines 152-154: the ids of the nodes never visited, in node order. */
  function Unreachable(nodes: seq<ModuleNode>, visited: set<string>): (ids: seq<string>)
    ensures forall id :: id in ids <==> id in IdSet(nodes) && id !in visited
  {
    if nodes == [] then []
    else
      var n := nodes[|nodes| - 1];
      assert IdSet(nodes) == IdSet(nodes[..|nodes| - 1]) + {n.id} by {
        assert nodes == nodes[..|nodes| - 1] + [n];
      }
      Unreachable(nodes[..|nodes| - 1], visited) + (if n.id in visited then [] else [n.id])
  }

  /** `runBundler(nodes, edges)`. */
  function Bundle(nodes: seq<ModuleNode>, edges: seq<ImportEdge>): BundleResult
  {
    match FindEntry(nodes)
    case None => BundleResult([], Ids(nodes))
    case Some(entry) =>
      var pre := PreChunks(nodes, edges, entry.id);
      BundleResult(NonEmpty(Extract(nodes, pre)), Unreachable(nodes, AllModules(pre)))
  }
}
