/** What the chunking engine guarantees, proved about the functions of
    bundler_spec.dfy: the module-to-chunks index, the shape of the main and
    async chunks, shared-module extraction and the final `BundleResult`. */
module BundlerProps {
  import opened GraphTypes
  import opened Collections
  import opened ImportGraph
  import opened StaticClosure
  import opened Colors
  import opened BundlerSpec

  // ---------------------------------------------------------------------------
  // Unfolding steps shared by the method and the proofs

  /** Recording one more chunk extends the index and the visited set. */
  lemma IndexOfAppend(chunks: seq<Chunk>, c: Chunk)
    ensures IndexOf(chunks + [c]) == Record(IndexOf(chunks), c.modules, c.id)
    ensures AllModules(chunks + [c]) == AllModules(chunks) + Elems(c.modules)
  {
    assert (chunks + [c])[..|chunks|] == chunks;
    assert forall d :: d in chunks + [c] <==> d in chunks || d == c;
  }

  /** A target already processed is dropped from the queue. */
  lemma ExpandSkip(nodes: seq<ModuleNode>, staticAdj: Adj, dynamicAdj: Adj,
                   pending: seq<PendingImport>, processed: set<string>, chunks: seq<Chunk>)
    requires forall p :: p in pending ==> p.targetId in AdjTargets(dynamicAdj)
    requires pending != [] && pending[0].targetId in processed
    ensures forall p :: p in pending[1..] ==> p.targetId in AdjTargets(dynamicAdj)
    ensures Expand(nodes, staticAdj, dynamicAdj, pending, processed, chunks)
         == Expand(nodes, staticAdj, dynamicAdj, pending[1..], processed, chunks)
  {
    assert forall p :: p in pending[1..] ==> p in pending;
  }

  /** A new target gets the next async chunk and queues its boundary. */
  lemma ExpandNew(nodes: seq<ModuleNode>, staticAdj: Adj, dynamicAdj: Adj,
                  pending: seq<PendingImport>, processed: set<string>, chunks: seq<Chunk>)
    requires forall p :: p in pending ==> p.targetId in AdjTargets(dynamicAdj)
    requires pending != [] && pending[0].targetId !in processed
    ensures var targetId := pending[0].targetId;
            var queued := Enqueue(Closure(staticAdj, dynamicAdj, targetId).dynamicTargets, |chunks|);
            && (forall p :: p in pending[1..] + queued ==> p.targetId in AdjTargets(dynamicAdj))
            && |AdjTargets(dynamicAdj) - (processed + {targetId})| < |AdjTargets(dynamicAdj) - processed|
            && Expand(nodes, staticAdj, dynamicAdj, pending, processed, chunks)
               == Expand(nodes, staticAdj, dynamicAdj, pending[1..] + queued, processed + {targetId},
                         chunks + [AsyncChunk(nodes, staticAdj, dynamicAdj, targetId, |chunks|)])
  {
    assert forall p :: p in pending[1..] ==> p in pending;
    Shrink(AdjTargets(dynamicAdj), processed, pending[0].targetId);
  }

  /** The first stage of `PreChunks`, named so that callers need not unfold it. */
  lemma PreChunksUnfold(nodes: seq<ModuleNode>, edges: seq<ImportEdge>, entryId: string)
    ensures var staticAdj, dynamicAdj := Adjacency(nodes, edges, StaticOnly), Adjacency(nodes, edges, DynamicOnly);
            var mainResult := Closure(staticAdj, dynamicAdj, entryId);
            PreChunks(nodes, edges, entryId)
            == Expand(nodes, staticAdj, dynamicAdj, Enqueue(mainResult.dynamicTargets, 0), {},
                      [Chunk(0, Main, mainResult.modules, ChunkColor(0), EntryPoint)])
  {
  }

  // ---------------------------------------------------------------------------
  // The module-to-chunks index

  /** The index's keys are exactly its order, each listed once (the order in
      which a JS Map iterates its keys). */
  ghost predicate IndexValid(index: ChunkIndex)
  {
    (forall m :: m in index.order <==> m in index.chunksOf) && NoDup(index.order)
  }

  /** The ids of the chunks that list `m`, in chunk order. */
  function ChunksWith(chunks: seq<Chunk>, m: string): seq<nat>
  {
    if chunks == [] then []
    else
      var c := chunks[|chunks| - 1];
      ChunksWith(chunks[..|chunks| - 1], m) + (if m in c.modules then [c.id] else [])
  }

  /** `m` is listed by two different chunks. */
  ghost predicate InTwoChunks(chunks: seq<Chunk>, m: string)
  {
    exists i, j :: 0 <= i < j < |chunks| && m in chunks[i].modules && m in chunks[j].modules
  }

  /** Recording one member appends `chunkId` to its list, creating the list
      when the member is new. */
  lemma RecordOne(prev: ChunkIndex, x: string, chunkId: nat)
    ensures var r := Record(prev, [x], chunkId);
            && (forall m :: m in r.chunksOf <==> m in prev.chunksOf || m == x)
            && (forall m :: m in r.chunksOf ==>
                  r.chunksOf[m] == (if m in prev.chunksOf then prev.chunksOf[m] else [])
                                   + (if m == x then [chunkId] else []))
  {
    assert [x][..0] == [];
  }

  /** Recording `members` then `x` records `members + [x]`. */
  lemma RecordSnoc(index: ChunkIndex, members: seq<string>, chunkId: nat)
    requires members != []
    ensures Record(index, members, chunkId)
         == Record(Record(index, members[..|members| - 1], chunkId), [members[|members| - 1]], chunkId)
  {
    assert [members[|members| - 1]][..0] == [];
  }

  /** Recording keeps the index's order in step with its keys. */
  lemma {:induction false} RecordValid(index: ChunkIndex, members: seq<string>, chunkId: nat)
    requires IndexValid(index)
    ensures IndexValid(Record(index, members, chunkId))
  {
    if members != [] {
      var init, x := members[..|members| - 1], members[|members| - 1];
      RecordValid(index, init, chunkId);
      var prev := Record(index, init, chunkId);
      if x !in prev.chunksOf {
        NoDupSnoc(prev.order, x);
      }
    }
  }

  /** Recording adds exactly the members to the keys. */
  lemma {:induction false} RecordKeys(index: ChunkIndex, members: seq<string>, chunkId: nat)
    ensures forall m :: m in Record(index, members, chunkId).chunksOf <==> m in index.chunksOf || m in members
  {
    if members != [] {
      var init, x := members[..|members| - 1], members[|members| - 1];
      RecordKeys(index, init, chunkId);
      RecordOne(Record(index, init, chunkId), x, chunkId);
      RecordSnoc(index, members, chunkId);
      assert forall m :: m in members <==> m in init || m == x by {
        assert members == init + [x];
      }
    }
  }

  /** The list of `m` after a record of `init` and then of a new member `x`. */
  lemma ValueAfterSnoc(before: map<string, seq<nat>>, mid: map<string, seq<nat>>, after: map<string, seq<nat>>,
                       init: seq<string>, x: string, chunkId: nat, m: string)
    requires x !in init
    requires forall k :: k in mid <==> k in before || k in init
    requires forall k :: k in mid ==> mid[k] == (if k in before then before[k] else []) + (if k in init then [chunkId] else [])
    requires forall k :: k in after <==> k in mid || k == x
    requires forall k :: k in after ==> after[k] == (if k in mid then mid[k] else []) + (if k == x then [chunkId] else [])
    requires m in after
    ensures after[m] == (if m in before then before[m] else []) + (if m in init || m == x then [chunkId] else [])
  {
    if m == x {
      assert x in mid ==> mid[x] == (if x in before then before[x] else []) + [];
    } else {
      assert m in mid && after[m] == mid[m] + [];
    }
  }

  /** Recording a duplicate-free member list appends `chunkId` once to each
      member's list and leaves the other lists alone. */
  lemma {:induction false} RecordValues(index: ChunkIndex, members: seq<string>, chunkId: nat)
    requires NoDup(members)
    ensures var r := Record(index, members, chunkId);
            forall m :: m in r.chunksOf ==>
              r.chunksOf[m] == (if m in index.chunksOf then index.chunksOf[m] else [])
                               + (if m in members then [chunkId] else [])
  {
    if members != [] {
      var init, x := members[..|members| - 1], members[|members| - 1];
      NoDupInit(members);
      RecordValues(index, init, chunkId);
      RecordKeys(index, init, chunkId);
      var prev := Record(index, init, chunkId);
      RecordOne(prev, x, chunkId);
      RecordSnoc(index, members, chunkId);
      var r := Record(index, members, chunkId);
      assert forall m :: m in members <==> m in init || m == x by {
        assert members == init + [x];
      }
      forall m | m in r.chunksOf
        ensures r.chunksOf[m] == (if m in index.chunksOf then index.chunksOf[m] else [])
                                 + (if m in init || m == x then [chunkId] else [])
      {
        ValueAfterSnoc(index.chunksOf, prev.chunksOf, r.chunksOf, init, x, chunkId, m);
      }
    }
  }

  /** Recording a duplicate-free member list appends `chunkId` to the list of
      each member, creates a list for each new one, and touches nothing else. */
  lemma RecordSpec(index: ChunkIndex, members: seq<string>, chunkId: nat)
    requires IndexValid(index) && NoDup(members)
    ensures var r := Record(index, members, chunkId);
            && IndexValid(r)
            && (forall m :: m in r.chunksOf <==> m in index.chunksOf || m in members)
            && (forall m :: m in r.chunksOf ==>
                  r.chunksOf[m] == (if m in index.chunksOf then index.chunksOf[m] else [])
                                   + (if m in members then [chunkId] else []))
  {
    RecordValid(index, members, chunkId);
    RecordKeys(index, members, chunkId);
    RecordValues(index, members, chunkId);
  }

  /** The index of a list of chunks, each listing a module at most once: a
      module is a key iff some chunk lists it, and its list holds the ids of
      those chunks in order. */
  lemma {:induction false} IndexOfSpec(chunks: seq<Chunk>)
    requires forall i :: 0 <= i < |chunks| ==> NoDup(chunks[i].modules)
    ensures var index := IndexOf(chunks);
            && IndexValid(index)
            && (forall m :: m in index.chunksOf <==> m in AllModules(chunks))
            && (forall m :: m in index.chunksOf ==> index.chunksOf[m] == ChunksWith(chunks, m))
  {
    if chunks != [] {
      var init, c := chunks[..|chunks| - 1], chunks[|chunks| - 1];
      IndexOfSpec(init);
      IndexOfAppend(init, c);
      assert chunks == init + [c];
      var prev, index := IndexOf(init), IndexOf(chunks);
      RecordValid(prev, c.modules, c.id);
      RecordKeys(prev, c.modules, c.id);
      RecordValues(prev, c.modules, c.id);
      forall m | m in index.chunksOf
        ensures index.chunksOf[m] == ChunksWith(chunks, m)
      {
        assert ChunksWith(chunks, m) == ChunksWith(init, m) + (if m in c.modules then [c.id] else []);
        if m !in prev.chunksOf {
          ChunksWithEmpty(init, m);
        }
      }
    }
  }

  /** No chunk lists `m` exactly when its id list is empty. */
  lemma {:induction false} ChunksWithEmpty(chunks: seq<Chunk>, m: string)
    ensures ChunksWith(chunks, m) == [] <==> m !in AllModules(chunks)
  {
    if chunks != [] {
      var init, c := chunks[..|chunks| - 1], chunks[|chunks| - 1];
      ChunksWithEmpty(init, m);
      IndexOfAppend(init, c);
      assert chunks == init + [c];
    }
  }

  /** The id list of `m` has two or more entries exactly when two different
      chunks list `m`. */
  lemma {:induction false} ChunksWithTwo(chunks: seq<Chunk>, m: string)
    ensures |ChunksWith(chunks, m)| >= 1 <==> exists i :: 0 <= i < |chunks| && m in chunks[i].modules
    ensures |ChunksWith(chunks, m)| >= 2 <==> InTwoChunks(chunks, m)
  {
    if chunks != [] {
      var init, c := chunks[..|chunks| - 1], chunks[|chunks| - 1];
      ChunksWithTwo(init, m);
      assert forall i :: 0 <= i < |init| ==> init[i] == chunks[i];
      if InTwoChunks(chunks, m) && !InTwoChunks(init, m) {
        var i, j :| 0 <= i < j < |chunks| && m in chunks[i].modules && m in chunks[j].modules;
        assert j == |chunks| - 1 && m in init[i].modules;
      }
      if (exists i :: 0 <= i < |chunks| && m in chunks[i].modules) && m !in c.modules {
        var i :| 0 <= i < |chunks| && m in chunks[i].modules;
        assert m in init[i].modules;
      }
      if InTwoChunks(init, m) {
        var i, j :| 0 <= i < j < |init| && m in init[i].modules && m in init[j].modules;
        assert m in chunks[i].modules && m in chunks[j].modules;
      }
      if m in c.modules && |ChunksWith(init, m)| >= 1 {
        var i :| 0 <= i < |init| && m in init[i].modules;
        assert m in chunks[i].modules && m in chunks[|chunks| - 1].modules;
      }
    }
  }

  /** Lines 120-125: a module is shared exactly when two different chunks
      list it; the shared list names each module once. */
  lemma SharedIff(chunks: seq<Chunk>)
    requires forall i :: 0 <= i < |chunks| ==> NoDup(chunks[i].modules)
    ensures var index := IndexOf(chunks);
            var shared := SharedOf(index.chunksOf, index.order);
            && NoDup(shared)
            && forall m :: m in shared <==> InTwoChunks(chunks, m)
  {
    var index := IndexOf(chunks);
    IndexOfSpec(chunks);
    forall m ensures m in SharedOf(index.chunksOf, index.order) <==> InTwoChunks(chunks, m) {
      ChunksWithTwo(chunks, m);
      ChunksWithEmpty(chunks, m);
    }
  }

  // ---------------------------------------------------------------------------
  // The main chunk and the async chunks (lines 58-117)

  /** Chunk `i` has id `i` and colour `ChunkColor(i)`; chunk 0 is the main
      chunk and the others are async; each lists the static closure of its
      first module. */
  ghost predicate PreShape(staticAdj: Adj, dynamicAdj: Adj, chunks: seq<Chunk>)
  {
    forall i :: 0 <= i < |chunks| ==>
      && chunks[i].id == i
      && chunks[i].color == ChunkColor(i)
      && chunks[i].kind == (if i == 0 then Main else Async)
      && |chunks[i].modules| > 0
      && chunks[i].modules == Closure(staticAdj, dynamicAdj, chunks[i].modules[0]).modules
  }

  /** The first modules of the async chunks: the targets processed so far. */
  ghost function AsyncStarts(chunks: seq<Chunk>): set<string>
  {
    set i | 0 < i < |chunks| && |chunks[i].modules| > 0 :: chunks[i].modules[0]
  }

  /** No two async chunks start at the same module. */
  ghost predicate AsyncStartsDistinct(chunks: seq<Chunk>)
  {
    forall i, j :: 0 < i < j < |chunks| && |chunks[i].modules| > 0 && |chunks[j].modules| > 0
                   ==> chunks[i].modules[0] != chunks[j].modules[0]
  }

  /** Every queued target was found at the boundary of the chunk it names. */
  ghost predicate PendingSourced(dynamicAdj: Adj, chunks: seq<Chunk>, pending: seq<PendingImport>)
  {
    forall p :: p in pending ==>
      p.sourceChunkId < |chunks| && p.targetId in Boundary(dynamicAdj, chunks[p.sourceChunkId].modules)
  }

  /** Every async chunk starts at a dynamic-import target of an earlier chunk. */
  ghost predicate FromEarlier(dynamicAdj: Adj, chunks: seq<Chunk>)
  {
    forall j :: 0 < j < |chunks| && |chunks[j].modules| > 0 ==>
      exists i :: 0 <= i < j && chunks[j].modules[0] in Boundary(dynamicAdj, chunks[i].modules)
  }

  /** Every boundary target of a chunk is processed or still queued. */
  ghost predicate Covered(dynamicAdj: Adj, chunks: seq<Chunk>, processed: set<string>, pending: seq<PendingImport>)
  {
    forall i, t :: 0 <= i < |chunks| && t in Boundary(dynamicAdj, chunks[i].modules) ==>
      t in processed || exists p :: p in pending && p.targetId == t
  }

  /** The async chunk of a target lists the closure of the target, target first. */
  lemma AsyncChunkShape(nodes: seq<ModuleNode>, staticAdj: Adj, dynamicAdj: Adj, targetId: string, id: nat)
    ensures var c := AsyncChunk(nodes, staticAdj, dynamicAdj, targetId, id);
            && |c.modules| > 0 && c.modules[0] == targetId
            && c.modules == Closure(staticAdj, dynamicAdj, c.modules[0]).modules
            && forall t :: t in Closure(staticAdj, dynamicAdj, targetId).dynamicTargets <==> t in Boundary(dynamicAdj, c.modules)
  {
    ClosureStartsAndNoDup(staticAdj, dynamicAdj, targetId);
    ClosureBoundary(staticAdj, dynamicAdj, targetId);
    DynamicOfIsBoundary(dynamicAdj, Closure(staticAdj, dynamicAdj, targetId).modules);
  }

  lemma AsyncStartsSnoc(chunks: seq<Chunk>, c: Chunk)
    requires |chunks| > 0 && |c.modules| > 0
    ensures AsyncStarts(chunks + [c]) == AsyncStarts(chunks) + {c.modules[0]}
  {
    var chunks' := chunks + [c];
    forall m | m in AsyncStarts(chunks') ensures m in AsyncStarts(chunks) + {c.modules[0]} {
      var i :| 0 < i < |chunks'| && |chunks'[i].modules| > 0 && chunks'[i].modules[0] == m;
      if i < |chunks| {
        assert chunks'[i] == chunks[i];
      }
    }
    forall m | m in AsyncStarts(chunks) + {c.modules[0]} ensures m in AsyncStarts(chunks') {
      if m in AsyncStarts(chunks) {
        var i :| 0 < i < |chunks| && |chunks[i].modules| > 0 && chunks[i].modules[0] == m;
        assert chunks'[i] == chunks[i];
      } else {
        assert chunks'[|chunks|] == c;
      }
    }
  }

  /** The new async chunk starts at its target, and the queue receives
      exactly its boundary, tagged with its id. */
  lemma AsyncStepFacts(nodes: seq<ModuleNode>, staticAdj: Adj, dynamicAdj: Adj, chunks: seq<Chunk>, targetId: string)
    ensures var c := AsyncChunk(nodes, staticAdj, dynamicAdj, targetId, |chunks|);
            var queued := Enqueue(Closure(staticAdj, dynamicAdj, targetId).dynamicTargets, |chunks|);
            && |c.modules| > 0 && c.modules[0] == targetId
            && (forall t :: t in Boundary(dynamicAdj, c.modules) ==> PendingImport(t, |chunks|) in queued)
            && (forall p :: p in queued ==> p.sourceChunkId == |chunks| && p.targetId in Boundary(dynamicAdj, c.modules))
  {
    AsyncChunkShape(nodes, staticAdj, dynamicAdj, targetId, |chunks|);
  }

  /** The queue loop only appends well-shaped chunks. */
  lemma {:induction false} ExpandShape(nodes: seq<ModuleNode>, staticAdj: Adj, dynamicAdj: Adj,
                                       pending: seq<PendingImport>, processed: set<string>, chunks: seq<Chunk>)
    requires forall p :: p in pending ==> p.targetId in AdjTargets(dynamicAdj)
    requires |chunks| > 0 && PreShape(staticAdj, dynamicAdj, chunks)
    ensures var r := Expand(nodes, staticAdj, dynamicAdj, pending, processed, chunks);
            && |chunks| <= |r| && (forall i :: 0 <= i < |chunks| ==> r[i] == chunks[i])
            && PreShape(staticAdj, dynamicAdj, r)
    decreases |AdjTargets(dynamicAdj) - processed|, |pending|
  {
    if pending != [] {
      var targetId := pending[0].targetId;
      if targetId in processed {
        ExpandSkip(nodes, staticAdj, dynamicAdj, pending, processed, chunks);
        ExpandShape(nodes, staticAdj, dynamicAdj, pending[1..], processed, chunks);
      } else {
        ExpandNew(nodes, staticAdj, dynamicAdj, pending, processed, chunks);
        var c := AsyncChunk(nodes, staticAdj, dynamicAdj, targetId, |chunks|);
        PreShapeSnoc(nodes, staticAdj, dynamicAdj, chunks, targetId);
        var queued := Enqueue(Closure(staticAdj, dynamicAdj, targetId).dynamicTargets, |chunks|);
        ExpandShape(nodes, staticAdj, dynamicAdj, pending[1..] + queued, processed + {targetId}, chunks + [c]);
        assert forall i :: 0 <= i < |chunks| ==> (chunks + [c])[i] == chunks[i];
      }
    }
  }

  /** Appending the async chunk of a target keeps the shape. */
  lemma PreShapeSnoc(nodes: seq<ModuleNode>, staticAdj: Adj, dynamicAdj: Adj, chunks: seq<Chunk>, targetId: string)
    requires |chunks| > 0 && PreShape(staticAdj, dynamicAdj, chunks)
    ensures PreShape(staticAdj, dynamicAdj, chunks + [AsyncChunk(nodes, staticAdj, dynamicAdj, targetId, |chunks|)])
  {
    var c := AsyncChunk(nodes, staticAdj, dynamicAdj, targetId, |chunks|);
    AsyncChunkShape(nodes, staticAdj, dynamicAdj, targetId, |chunks|);
    var chunks' := chunks + [c];
    forall i | 0 <= i < |chunks'|
      ensures chunks'[i].id == i && chunks'[i].color == ChunkColor(i)
              && chunks'[i].kind == (if i == 0 then Main else Async)
              && |chunks'[i].modules| > 0
              && chunks'[i].modules == Closure(staticAdj, dynamicAdj, chunks'[i].modules[0]).modules
    {
      if i < |chunks| {
        assert chunks'[i] == chunks[i];
      }
    }
  }

  /** Lines 89-90: a target is processed at most once, so no two async
      chunks start at the same module. */
  lemma {:induction false} ExpandStartsDistinct(nodes: seq<ModuleNode>, staticAdj: Adj, dynamicAdj: Adj,
                                                pending: seq<PendingImport>, processed: set<string>, chunks: seq<Chunk>)
    requires forall p :: p in pending ==> p.targetId in AdjTargets(dynamicAdj)
    requires |chunks| > 0 && processed == AsyncStarts(chunks) && AsyncStartsDistinct(chunks)
    ensures AsyncStartsDistinct(Expand(nodes, staticAdj, dynamicAdj, pending, processed, chunks))
    decreases |AdjTargets(dynamicAdj) - processed|, |pending|
  {
    if pending != [] {
      var targetId := pending[0].targetId;
      if targetId in processed {
        ExpandSkip(nodes, staticAdj, dynamicAdj, pending, processed, chunks);
        ExpandStartsDistinct(nodes, staticAdj, dynamicAdj, pending[1..], processed, chunks);
      } else {
        ExpandNew(nodes, staticAdj, dynamicAdj, pending, processed, chunks);
        var c := AsyncChunk(nodes, staticAdj, dynamicAdj, targetId, |chunks|);
        AsyncChunkShape(nodes, staticAdj, dynamicAdj, targetId, |chunks|);
        var chunks' := chunks + [c];
        AsyncStartsSnoc(chunks, c);
        assert AsyncStartsDistinct(chunks') by {
          forall i, j | 0 < i < j < |chunks'| && |chunks'[i].modules| > 0 && |chunks'[j].modules| > 0
            ensures chunks'[i].modules[0] != chunks'[j].modules[0]
          {
            assert chunks'[i] == chunks[i];
            if j < |chunks| {
              assert chunks'[j] == chunks[j];
            } else {
              assert chunks[i].modules[0] in AsyncStarts(chunks);
            }
          }
        }
        var queued := Enqueue(Closure(staticAdj, dynamicAdj, targetId).dynamicTargets, |chunks|);
        ExpandStartsDistinct(nodes, staticAdj, dynamicAdj, pending[1..] + queued, processed + {targetId}, chunks');
      }
    }
  }

  /** Lines 87-116: the loop ends only when every boundary target of every
      chunk has been processed, that is, starts an async chunk. */
  lemma {:induction false} ExpandCovers(nodes: seq<ModuleNode>, staticAdj: Adj, dynamicAdj: Adj,
                                        pending: seq<PendingImport>, processed: set<string>, chunks: seq<Chunk>)
    requires forall p :: p in pending ==> p.targetId in AdjTargets(dynamicAdj)
    requires |chunks| > 0 && processed == AsyncStarts(chunks)
    requires Covered(dynamicAdj, chunks, processed, pending)
    ensures var r := Expand(nodes, staticAdj, dynamicAdj, pending, processed, chunks);
            forall i, t :: 0 <= i < |r| && t in Boundary(dynamicAdj, r[i].modules) ==> t in AsyncStarts(r)
    decreases |AdjTargets(dynamicAdj) - processed|, |pending|
  {
    if pending != [] {
      var targetId := pending[0].targetId;
      assert forall p :: p in pending ==> p == pending[0] || p in pending[1..] by {
        assert pending == [pending[0]] + pending[1..];
      }
      if targetId in processed {
        ExpandSkip(nodes, staticAdj, dynamicAdj, pending, processed, chunks);
        ExpandCovers(nodes, staticAdj, dynamicAdj, pending[1..], processed, chunks);
      } else {
        var c := AsyncChunk(nodes, staticAdj, dynamicAdj, targetId, |chunks|);
        var queued := Enqueue(Closure(staticAdj, dynamicAdj, targetId).dynamicTargets, |chunks|);
        AsyncStepFacts(nodes, staticAdj, dynamicAdj, chunks, targetId);
        AsyncStartsSnoc(chunks, c);
        CoveredStep(dynamicAdj, chunks, processed, pending, c, queued);
        ExpandNew(nodes, staticAdj, dynamicAdj, pending, processed, chunks);
        ExpandCovers(nodes, staticAdj, dynamicAdj, pending[1..] + queued, processed + {targetId}, chunks + [c]);
      }
    }
  }

  lemma CoveredStep(dynamicAdj: Adj, chunks: seq<Chunk>, processed: set<string>, pending: seq<PendingImport>,
                    c: Chunk, queued: seq<PendingImport>)
    requires pending != [] && |c.modules| > 0 && c.modules[0] == pending[0].targetId
    requires Covered(dynamicAdj, chunks, processed, pending)
    requires forall t :: t in Boundary(dynamicAdj, c.modules) ==> PendingImport(t, |chunks|) in queued
    ensures Covered(dynamicAdj, chunks + [c], processed + {c.modules[0]}, pending[1..] + queued)
  {
    assert forall p :: p in pending ==> p == pending[0] || p in pending[1..] by {
      assert pending == [pending[0]] + pending[1..];
    }
    var chunks', pending' := chunks + [c], pending[1..] + queued;
    forall i, t | 0 <= i < |chunks'| && t in Boundary(dynamicAdj, chunks'[i].modules)
      ensures t in processed + {c.modules[0]} || exists p :: p in pending' && p.targetId == t
    {
      if i < |chunks| {
        assert chunks'[i] == chunks[i];
        if t !in processed {
          var p :| p in pending && p.targetId == t;
          if p != pending[0] {
            assert p in pending';
          }
        }
      } else {
        assert chunks'[i] == c;
        assert PendingImport(t, |chunks|) in pending';
      }
    }
  }

  /** Every async chunk starts at a boundary target of an earlier chunk: the
      `sourceChunkId` the queue records, although the source never reads it. */
  lemma {:induction false} ExpandFromEarlier(nodes: seq<ModuleNode>, staticAdj: Adj, dynamicAdj: Adj,
                                             pending: seq<PendingImport>, processed: set<string>, chunks: seq<Chunk>)
    requires forall p :: p in pending ==> p.targetId in AdjTargets(dynamicAdj)
    requires PendingSourced(dynamicAdj, chunks, pending) && FromEarlier(dynamicAdj, chunks)
    ensures FromEarlier(dynamicAdj, Expand(nodes, staticAdj, dynamicAdj, pending, processed, chunks))
    decreases |AdjTargets(dynamicAdj) - processed|, |pending|
  {
    if pending != [] {
      var targetId := pending[0].targetId;
      assert forall p :: p in pending[1..] ==> p in pending;
      if targetId in processed {
        ExpandSkip(nodes, staticAdj, dynamicAdj, pending, processed, chunks);
        ExpandFromEarlier(nodes, staticAdj, dynamicAdj, pending[1..], processed, chunks);
      } else {
        var c := AsyncChunk(nodes, staticAdj, dynamicAdj, targetId, |chunks|);
        var queued := Enqueue(Closure(staticAdj, dynamicAdj, targetId).dynamicTargets, |chunks|);
        AsyncStepFacts(nodes, staticAdj, dynamicAdj, chunks, targetId);
        PendingSourcedStep(dynamicAdj, chunks, pending, c, queued);
        FromEarlierStep(dynamicAdj, chunks, pending, c);
        ExpandNew(nodes, staticAdj, dynamicAdj, pending, processed, chunks);
        ExpandFromEarlier(nodes, staticAdj, dynamicAdj, pending[1..] + queued, processed + {targetId}, chunks + [c]);
      }
    }
  }

  /** The queue after an async step still names chunks that exist. */
  lemma PendingSourcedStep(dynamicAdj: Adj, chunks: seq<Chunk>, pending: seq<PendingImport>, c: Chunk,
                           queued: seq<PendingImport>)
    requires pending != []
    requires PendingSourced(dynamicAdj, chunks, pending)
    requires forall p :: p in queued ==> p.sourceChunkId == |chunks| && p.targetId in Boundary(dynamicAdj, c.modules)
    ensures PendingSourced(dynamicAdj, chunks + [c], pending[1..] + queued)
  {
    var chunks' := chunks + [c];
    forall p | p in pending[1..] + queued
      ensures p.sourceChunkId < |chunks'| && p.targetId in Boundary(dynamicAdj, chunks'[p.sourceChunkId].modules)
    {
      if p in pending[1..] {
        assert p in pending;
        assert chunks'[p.sourceChunkId] == chunks[p.sourceChunkId];
      } else {
        assert chunks'[|chunks|] == c;
      }
    }
  }

  /** The new async chunk starts at a target of the chunk that queued it. */
  lemma FromEarlierStep(dynamicAdj: Adj, chunks: seq<Chunk>, pending: seq<PendingImport>, c: Chunk)
    requires pending != [] && |c.modules| > 0 && c.modules[0] == pending[0].targetId
    requires PendingSourced(dynamicAdj, chunks, pending) && FromEarlier(dynamicAdj, chunks)
    ensures FromEarlier(dynamicAdj, chunks + [c])
  {
    var chunks' := chunks + [c];
    forall j | 0 < j < |chunks'| && |chunks'[j].modules| > 0
      ensures exists i :: 0 <= i < j && chunks'[j].modules[0] in Boundary(dynamicAdj, chunks'[i].modules)
    {
      if j < |chunks| {
        var i :| 0 <= i < j && chunks[j].modules[0] in Boundary(dynamicAdj, chunks[i].modules);
        assert chunks'[i] == chunks[i] && chunks'[j] == chunks[j];
      } else {
        var i := pending[0].sourceChunkId;
        assert pending[0] in pending;
        assert chunks'[i] == chunks[i] && chunks'[j] == c;
      }
    }
  }

  /** The main chunk: id 0, the static closure of the entry, entry first. */
  lemma MainStepFacts(staticAdj: Adj, dynamicAdj: Adj, entryId: string)
    ensures var mainResult := Closure(staticAdj, dynamicAdj, entryId);
            var main := Chunk(0, Main, mainResult.modules, ChunkColor(0), EntryPoint);
            var queued := Enqueue(mainResult.dynamicTargets, 0);
            && PreShape(staticAdj, dynamicAdj, [main])
            && main.modules[0] == entryId
            && AsyncStarts([main]) == {}
            && (forall p :: p in queued ==> p.targetId in AdjTargets(dynamicAdj))
            && Covered(dynamicAdj, [main], {}, queued)
            && PendingSourced(dynamicAdj, [main], queued)
            && FromEarlier(dynamicAdj, [main])
            && AsyncStartsDistinct([main])
  {
    var mainResult := Closure(staticAdj, dynamicAdj, entryId);
    ClosureStartsAndNoDup(staticAdj, dynamicAdj, entryId);
    ClosureBoundary(staticAdj, dynamicAdj, entryId);
    DynamicOfIsBoundary(dynamicAdj, mainResult.modules);
    var main := Chunk(0, Main, mainResult.modules, ChunkColor(0), EntryPoint);
    var queued := Enqueue(mainResult.dynamicTargets, 0);
    forall i, t | 0 <= i < |[main]| && t in Boundary(dynamicAdj, [main][i].modules)
      ensures t in {} || exists p :: p in queued && p.targetId == t
    {
      assert PendingImport(t, 0) in queued;
    }
  }

  /** The main and async chunks before extraction (lines 58-117): chunk `i`
      has id `i` and colour `ChunkColor(i)`; chunk 0 is the main chunk and
      lists the static closure of the entry, entry first; every other chunk
      is an async chunk listing the static closure of its first module; no
      two async chunks start at the same module; every async chunk starts at
      a dynamic-import target of an earlier chunk; and every dynamic-import
      target of every chunk starts an async chunk. */
  lemma PreChunksFacts(nodes: seq<ModuleNode>, edges: seq<ImportEdge>, entryId: string)
    ensures var staticAdj, dynamicAdj := Adjacency(nodes, edges, StaticOnly), Adjacency(nodes, edges, DynamicOnly);
            var pre := PreChunks(nodes, edges, entryId);
            && |pre| > 0
            && pre[0].modules == Closure(staticAdj, dynamicAdj, entryId).modules
            && pre[0].modules[0] == entryId
            && PreShape(staticAdj, dynamicAdj, pre)
            && AsyncStartsDistinct(pre)
            && FromEarlier(dynamicAdj, pre)
            && forall i, t :: 0 <= i < |pre| && t in Boundary(dynamicAdj, pre[i].modules) ==> t in AsyncStarts(pre)
  {
    var staticAdj, dynamicAdj := Adjacency(nodes, edges, StaticOnly), Adjacency(nodes, edges, DynamicOnly);
    var mainResult := Closure(staticAdj, dynamicAdj, entryId);
    var main := Chunk(0, Main, mainResult.modules, ChunkColor(0), EntryPoint);
    var queued := Enqueue(mainResult.dynamicTargets, 0);
    PreChunksUnfold(nodes, edges, entryId);
    MainStepFacts(staticAdj, dynamicAdj, entryId);
    ExpandShape(nodes, staticAdj, dynamicAdj, queued, {}, [main]);
    ExpandStartsDistinct(nodes, staticAdj, dynamicAdj, queued, {}, [main]);
    ExpandCovers(nodes, staticAdj, dynamicAdj, queued, {}, [main]);
    ExpandFromEarlier(nodes, staticAdj, dynamicAdj, queued, {}, [main]);
  }
}
