/** Shared-module extraction (bundler.ts lines 119-149), the empty-chunk
    filter (line 156) and the unreachable list (lines 152-154): what the
    final `BundleResult` guarantees. */
module BundleFacts {
  import opened GraphTypes
  import opened Collections
  import opened ImportGraph
  import opened StaticClosure
  import opened Colors
  import opened BundlerSpec
  import opened BundlerProps

  /** Chunk `i` has id `i` and colour `ChunkColor(i)`, is not a shared chunk
      and lists each module once: the chunks extraction starts from. */
  ghost predicate Numbered(chunks: seq<Chunk>)
  {
    forall i :: 0 <= i < |chunks| ==>
      chunks[i].id == i && chunks[i].color == ChunkColor(i) && chunks[i].kind != Shared && NoDup(chunks[i].modules)
  }

  /** The shared list of lines 120-125. */
  function SharedList(chunks: seq<Chunk>): seq<string>
  {
    var index := IndexOf(chunks);
    SharedOf(index.chunksOf, index.order)
  }

  /** The pre-extraction chunks are numbered. */
  lemma PreChunksNumbered(nodes: seq<ModuleNode>, edges: seq<ImportEdge>, entryId: string)
    ensures Numbered(PreChunks(nodes, edges, entryId))
  {
    var staticAdj, dynamicAdj := Adjacency(nodes, edges, StaticOnly), Adjacency(nodes, edges, DynamicOnly);
    var pre := PreChunks(nodes, edges, entryId);
    PreChunksFacts(nodes, edges, entryId);
    forall i | 0 <= i < |pre| ensures NoDup(pre[i].modules) {
      ClosureStartsAndNoDup(staticAdj, dynamicAdj, pre[i].modules[0]);
    }
  }

  /** Lines 127-149: with no shared module the chunks are kept as they are;
      otherwise every chunk loses the shared modules and the shared chunk,
      with the next id, comes last. */
  lemma ExtractLayout(nodes: seq<ModuleNode>, chunks: seq<Chunk>)
    requires Numbered(chunks)
    ensures var x, shared := Extract(nodes, chunks), SharedList(chunks);
            && |x| == |chunks| + (if shared == [] then 0 else 1)
            && (forall i :: 0 <= i < |chunks| ==> x[i] == chunks[i].(modules := Without(chunks[i].modules, shared)))
            && (shared != [] ==> x[|chunks|] == Chunk(|chunks|, Shared, shared, ChunkColor(|chunks|),
                                                       SharedModules(DisplayNames(nodes, shared))))
  {
    var shared := SharedList(chunks);
    if shared == [] {
      forall i | 0 <= i < |chunks| ensures chunks[i].(modules := Without(chunks[i].modules, shared)) == chunks[i] {
        WithoutNothing(chunks[i].modules, shared);
      }
    } else {
      var all := chunks + [Chunk(|chunks|, Shared, shared, ChunkColor(|chunks|), SharedModules(DisplayNames(nodes, shared)))];
      assert forall i :: 0 <= i < |chunks| ==> all[i] == chunks[i];
    }
  }

  /** `x` is `chunks` with `shared` removed from each chunk, followed by a
      chunk listing `shared` when that list is non-empty. */
  ghost predicate SplitBy(chunks: seq<Chunk>, shared: seq<string>, x: seq<Chunk>)
  {
    && |x| == |chunks| + (if shared == [] then 0 else 1)
    && (forall i :: 0 <= i < |chunks| ==> x[i] == chunks[i].(modules := Without(chunks[i].modules, shared)))
    && (shared != [] ==> x[|chunks|].id == |chunks| && x[|chunks|].kind == Shared
                         && x[|chunks|].color == ChunkColor(|chunks|) && x[|chunks|].modules == shared)
  }

  /** Facts about `chunks` and the shared list the split relies on. */
  ghost predicate SharedListFacts(chunks: seq<Chunk>, shared: seq<string>)
  {
    NoDup(shared) && forall m :: m in shared <==> InTwoChunks(chunks, m)
  }

  lemma ExtractSplit(nodes: seq<ModuleNode>, chunks: seq<Chunk>)
    requires Numbered(chunks)
    ensures SplitBy(chunks, SharedList(chunks), Extract(nodes, chunks))
    ensures SharedListFacts(chunks, SharedList(chunks))
  {
    ExtractLayout(nodes, chunks);
    SharedIff(chunks);
  }

  lemma SplitNumbered(chunks: seq<Chunk>, shared: seq<string>, x: seq<Chunk>)
    requires Numbered(chunks) && SharedListFacts(chunks, shared) && SplitBy(chunks, shared, x)
    ensures forall i :: 0 <= i < |x| ==> x[i].id == i && x[i].color == ChunkColor(i) && NoDup(x[i].modules)
  {
    forall i | 0 <= i < |chunks| ensures NoDup(x[i].modules) {
      WithoutNoDup(chunks[i].modules, shared);
    }
  }

  lemma SplitDisjoint(chunks: seq<Chunk>, shared: seq<string>, x: seq<Chunk>)
    requires Numbered(chunks) && SharedListFacts(chunks, shared) && SplitBy(chunks, shared, x)
    ensures forall i, j, m :: 0 <= i < j < |x| && m in x[i].modules ==> m !in x[j].modules
  {
    forall i, j, m | 0 <= i < j < |x| && m in x[i].modules ensures m !in x[j].modules {
      assert m !in shared by {
        if i < |chunks| {
          assert m in Without(chunks[i].modules, shared);
        }
      }
    }
  }

  lemma SplitCoversAll(chunks: seq<Chunk>, shared: seq<string>, x: seq<Chunk>)
    requires Numbered(chunks) && SharedListFacts(chunks, shared) && SplitBy(chunks, shared, x)
    ensures forall m :: m in AllModules(chunks) ==> exists i :: 0 <= i < |x| && m in x[i].modules
  {
    forall m | m in AllModules(chunks) ensures exists i :: 0 <= i < |x| && m in x[i].modules {
      var i :| 0 <= i < |chunks| && m in chunks[i].modules;
      if m !in shared {
        assert m in x[i].modules;
      } else {
        assert m in x[|chunks|].modules;
      }
    }
  }

  lemma SplitCoversOnly(chunks: seq<Chunk>, shared: seq<string>, x: seq<Chunk>)
    requires Numbered(chunks) && SharedListFacts(chunks, shared) && SplitBy(chunks, shared, x)
    ensures forall i, m :: 0 <= i < |x| && m in x[i].modules ==> m in AllModules(chunks)
  {
    forall i, m | 0 <= i < |x| && m in x[i].modules ensures m in AllModules(chunks) {
      if i < |chunks| {
        assert m in chunks[i].modules;
        assert chunks[i] in chunks;
      } else {
        assert InTwoChunks(chunks, m);
        var a, b :| 0 <= a < b < |chunks| && m in chunks[a].modules && m in chunks[b].modules;
        assert chunks[a] in chunks;
      }
    }
  }

  lemma SplitKeepsSingles(chunks: seq<Chunk>, shared: seq<string>, x: seq<Chunk>)
    requires Numbered(chunks) && SharedListFacts(chunks, shared) && SplitBy(chunks, shared, x)
    ensures forall i, m :: 0 <= i < |chunks| && m in chunks[i].modules && !InTwoChunks(chunks, m)
              ==> m in x[i].modules
  {
  }

  lemma SplitSharedIff(chunks: seq<Chunk>, shared: seq<string>, x: seq<Chunk>)
    requires Numbered(chunks) && SharedListFacts(chunks, shared) && SplitBy(chunks, shared, x)
    ensures (exists k :: 0 <= k < |x| && x[k].kind == Shared) <==> exists m :: InTwoChunks(chunks, m)
  {
    if exists m :: InTwoChunks(chunks, m) {
      var m :| InTwoChunks(chunks, m);
      assert m in shared;
      assert x[|chunks|].kind == Shared;
    }
    if exists k :: 0 <= k < |x| && x[k].kind == Shared {
      var k :| 0 <= k < |x| && x[k].kind == Shared;
      assert k >= |chunks|;
      assert InTwoChunks(chunks, shared[0]);
    }
  }

  lemma SplitSharedLast(chunks: seq<Chunk>, shared: seq<string>, x: seq<Chunk>)
    requires Numbered(chunks) && SharedListFacts(chunks, shared) && SplitBy(chunks, shared, x)
    ensures forall k :: 0 <= k < |x| && x[k].kind == Shared ==> k == |chunks| && ListsShared(chunks, x[k])
    ensures forall i :: 0 <= i < |chunks| ==> x[i].kind == chunks[i].kind
    ensures forall i :: 0 <= i < |x| ==> x[i].id == i
  {
    assert forall i :: 0 <= i < |chunks| ==> x[i].kind != Shared;
  }

  /** Extraction keeps the numbering and leaves each module in exactly one
      chunk: a module listed by two chunks moves to the shared chunk, and a
      module listed by one chunk stays there. */
  lemma ExtractPartition(nodes: seq<ModuleNode>, chunks: seq<Chunk>)
    requires Numbered(chunks)
    ensures var x := Extract(nodes, chunks);
            && (forall i :: 0 <= i < |x| ==> x[i].id == i && x[i].color == ChunkColor(i) && NoDup(x[i].modules))
            && (forall i, j, m :: 0 <= i < j < |x| && m in x[i].modules ==> m !in x[j].modules)
            && (forall m :: m in AllModules(chunks) <==> exists i :: 0 <= i < |x| && m in x[i].modules)
            && (forall i, m :: 0 <= i < |chunks| && m in chunks[i].modules && !InTwoChunks(chunks, m)
                  ==> m in x[i].modules)
  {
    var x, shared := Extract(nodes, chunks), SharedList(chunks);
    ExtractSplit(nodes, chunks);
    SplitNumbered(chunks, shared, x);
    SplitDisjoint(chunks, shared, x);
    SplitCoversAll(chunks, shared, x);
    SplitCoversOnly(chunks, shared, x);
    SplitKeepsSingles(chunks, shared, x);
  }

  /** Lines 127-141: a shared chunk exists exactly when some module is listed
      by two chunks, and it lists exactly those modules. */
  lemma ExtractShared(nodes: seq<ModuleNode>, chunks: seq<Chunk>)
    requires Numbered(chunks)
    ensures var x := Extract(nodes, chunks);
            && ((exists k :: 0 <= k < |x| && x[k].kind == Shared) <==> exists m :: InTwoChunks(chunks, m))
            && (forall k :: 0 <= k < |x| && x[k].kind == Shared ==> k == |chunks| && ListsShared(chunks, x[k]))
            && (forall i :: 0 <= i < |chunks| ==> x[i].kind == chunks[i].kind)
            && (forall i :: 0 <= i < |x| ==> x[i].id == i)
  {
    ExtractSplit(nodes, chunks);
    SplitSharedIff(chunks, SharedList(chunks), Extract(nodes, chunks));
    SplitSharedLast(chunks, SharedList(chunks), Extract(nodes, chunks));
  }

  // ---------------------------------------------------------------------------
  // The empty-chunk filter (line 156) and the unreachable list (lines 152-154)

  /** Some chunk lists `m`. */
  ghost predicate InSomeChunk(chunks: seq<Chunk>, m: string)
  {
    exists i :: 0 <= i < |chunks| && m in chunks[i].modules
  }

  /** A chunk kept by the filter is one of its input chunks. */
  lemma NonEmptyFrom(chunks: seq<Chunk>, c: Chunk)
    requires c in NonEmpty(chunks)
    ensures exists k :: 0 <= k < |chunks| && chunks[k] == c && |c.modules| > 0
  {
  }

  /** Filtering out empty chunks keeps the order of the chunk ids. */
  lemma {:induction false} NonEmptyIncreasing(chunks: seq<Chunk>)
    requires forall i, j :: 0 <= i < j < |chunks| ==> chunks[i].id < chunks[j].id
    ensures forall i, j :: 0 <= i < j < |NonEmpty(chunks)| ==> NonEmpty(chunks)[i].id < NonEmpty(chunks)[j].id
  {
    if chunks != [] {
      var init, c := chunks[..|chunks| - 1], chunks[|chunks| - 1];
      NonEmptyIncreasing(init);
      var rest := NonEmpty(init);
      if |c.modules| > 0 {
        var r := rest + [c];
        forall i, j | 0 <= i < j < |r| ensures r[i].id < r[j].id {
          if j == |rest| {
            assert r[i] in rest && r[j] == c;
            NonEmptyFrom(init, r[i]);
            var k :| 0 <= k < |init| && init[k] == r[i];
            assert chunks[k] == r[i] && k < |chunks| - 1;
          } else {
            assert r[i] == rest[i] && r[j] == rest[j];
          }
        }
      }
    }
  }

  /** Facts about numbered, pairwise disjoint chunks that survive the filter. */
  lemma NonEmptyKeeps(x: seq<Chunk>)
    requires forall i :: 0 <= i < |x| ==> x[i].id == i && x[i].color == ChunkColor(i) && NoDup(x[i].modules)
    requires forall i, j, m :: 0 <= i < j < |x| && m in x[i].modules ==> m !in x[j].modules
    ensures var r := NonEmpty(x);
            && (forall i, j :: 0 <= i < j < |r| ==> r[i].id < r[j].id)
            && (forall c :: c in r ==> |c.modules| > 0 && c.id < |x| && x[c.id] == c
                                       && c.color == ChunkColor(c.id) && NoDup(c.modules))
            && (forall i, j, m :: 0 <= i < j < |r| && m in r[i].modules ==> m !in r[j].modules)
            && (forall m :: InSomeChunk(r, m) <==> InSomeChunk(x, m))
  {
    var r := NonEmpty(x);
    NonEmptyIncreasing(x);
    forall c | c in r ensures c.id < |x| && x[c.id] == c {
      NonEmptyFrom(x, c);
    }
    forall i, j, m | 0 <= i < j < |r| && m in r[i].modules ensures m !in r[j].modules {
      assert r[i] in r && r[j] in r;
      var a, b := r[i].id, r[j].id;
      assert x[a] == r[i] && x[b] == r[j] && a < b;
    }
    forall m | InSomeChunk(x, m) ensures InSomeChunk(r, m) {
      var i :| 0 <= i < |x| && m in x[i].modules;
      assert x[i] in r;
      var k :| 0 <= k < |r| && r[k] == x[i];
    }
    forall m | InSomeChunk(r, m) ensures InSomeChunk(x, m) {
      var k :| 0 <= k < |r| && m in r[k].modules;
      assert r[k] in r;
      assert m in x[r[k].id].modules;
    }
  }

  lemma IdsMembers(nodes: seq<ModuleNode>)
    ensures forall id :: id in Ids(nodes) <==> id in IdSet(nodes)
  {
    forall id | id in IdSet(nodes) ensures id in Ids(nodes) {
      var n :| n in nodes && n.id == id;
      var i :| 0 <= i < |nodes| && nodes[i] == n;
      assert Ids(nodes)[i] == id;
    }
  }

  /** What a bundle result holds, given the extracted chunks `x` of `pre`. */
  lemma ResultFacts(nodes: seq<ModuleNode>, pre: seq<Chunk>, x: seq<Chunk>, r: BundleResult)
    requires forall i :: 0 <= i < |x| ==> x[i].id == i && x[i].color == ChunkColor(i) && NoDup(x[i].modules)
    requires forall i, j, m :: 0 <= i < j < |x| && m in x[i].modules ==> m !in x[j].modules
    requires forall m :: m in AllModules(pre) <==> exists i :: 0 <= i < |x| && m in x[i].modules
    requires r == BundleResult(NonEmpty(x), Unreachable(nodes, AllModules(pre)))
    ensures && (forall i, j :: 0 <= i < j < |r.chunks| ==> r.chunks[i].id < r.chunks[j].id)
            && (forall c :: c in r.chunks ==> |c.modules| > 0 && c.color == ChunkColor(c.id) && NoDup(c.modules))
            && (forall i, j, m :: 0 <= i < j < |r.chunks| && m in r.chunks[i].modules ==> m !in r.chunks[j].modules)
            && (forall id :: id in r.unreachableModules <==> id in IdSet(nodes) && !InSomeChunk(r.chunks, id))
  {
    NonEmptyKeeps(x);
  }

  /** `AllModules` is the set of modules some chunk lists. */
  lemma AllModulesInSome(chunks: seq<Chunk>)
    ensures forall m :: m in AllModules(chunks) <==> InSomeChunk(chunks, m)
  {
    forall m | InSomeChunk(chunks, m) ensures m in AllModules(chunks) {
      var i :| 0 <= i < |chunks| && m in chunks[i].modules;
      assert chunks[i] in chunks;
    }
  }

  /** The unreachable list of two node lists is the first list's followed by
      the second's: one id per unvisited node, in node order. */
  lemma {:induction false} UnreachableAppend(a: seq<ModuleNode>, b: seq<ModuleNode>, visited: set<string>)
    ensures Unreachable(a + b, visited) == Unreachable(a, visited) + Unreachable(b, visited)
    decreases |b|
  {
    if b == [] {
      assert a + b == a;
    } else {
      assert (a + b)[..|a + b| - 1] == a + b[..|b| - 1];
      UnreachableAppend(a, b[..|b| - 1], visited);
    }
  }

  /** With none of the nodes visited, the unreachable list is every id, in node order. */
  lemma {:induction false} UnreachableNoneVisited(nodes: seq<ModuleNode>, visited: set<string>)
    requires forall n :: n in nodes ==> n.id !in visited
    ensures Unreachable(nodes, visited) == Ids(nodes)
  {
    if nodes != [] {
      assert nodes[|nodes| - 1] in nodes;
      UnreachableNoneVisited(nodes[..|nodes| - 1], visited);
    }
  }

  lemma BundleUnfold(nodes: seq<ModuleNode>, edges: seq<ImportEdge>)
    requires FindEntry(nodes).Some?
    ensures var pre := PreChunks(nodes, edges, FindEntry(nodes).value.id);
            Bundle(nodes, edges) == BundleResult(NonEmpty(Extract(nodes, pre)), Unreachable(nodes, AllModules(pre)))
  {
  }

  /** The chunks of a bundle: ids strictly increasing, each chunk non-empty,
      coloured by its id and listing each module once; no module in two
      chunks; and the unreachable list holds exactly the node ids that no
      chunk lists. */
  lemma BundleChunks(nodes: seq<ModuleNode>, edges: seq<ImportEdge>)
    ensures var r := Bundle(nodes, edges);
            && (forall i, j :: 0 <= i < j < |r.chunks| ==> r.chunks[i].id < r.chunks[j].id)
            && (forall c :: c in r.chunks ==> |c.modules| > 0 && c.color == ChunkColor(c.id) && NoDup(c.modules))
            && (forall i, j, m :: 0 <= i < j < |r.chunks| && m in r.chunks[i].modules ==> m !in r.chunks[j].modules)
            && (forall id :: id in r.unreachableModules <==> id in IdSet(nodes) && !InSomeChunk(r.chunks, id))
  {
    if FindEntry(nodes).None? {
      IdsMembers(nodes);
    } else {
      var pre := PreChunks(nodes, edges, FindEntry(nodes).value.id);
      PreChunksNumbered(nodes, edges, FindEntry(nodes).value.id);
      ExtractPartition(nodes, pre);
      BundleUnfold(nodes, edges);
      ResultFacts(nodes, pre, Extract(nodes, pre), Bundle(nodes, edges));
    }
  }

  /** The unreachable list of a bundle is `Unreachable` of the modules its
      chunks list: one id per node that no chunk lists, in node order
      (`UnreachableAppend`). */
  lemma BundleUnreachableOrder(nodes: seq<ModuleNode>, edges: seq<ImportEdge>)
    ensures var r := Bundle(nodes, edges);
            r.unreachableModules == Unreachable(nodes, AllModules(r.chunks))
  {
    if FindEntry(nodes).None? {
      UnreachableNoneVisited(nodes, AllModules([]));
    } else {
      var pre := PreChunks(nodes, edges, FindEntry(nodes).value.id);
      PreChunksNumbered(nodes, edges, FindEntry(nodes).value.id);
      ExtractPartition(nodes, pre);
      ExtractAllModules(pre, Extract(nodes, pre));
      BundleUnfold(nodes, edges);
    }
  }

  /** The chunks kept after extraction and the empty-chunk filter list the
      same modules as the pre-chunks. */
  lemma ExtractAllModules(pre: seq<Chunk>, x: seq<Chunk>)
    requires forall m :: m in AllModules(pre) <==> exists i :: 0 <= i < |x| && m in x[i].modules
    ensures AllModules(NonEmpty(x)) == AllModules(pre)
  {
    AllModulesInSome(x);
    NonEmptyAllModules(x);
  }

  /** Dropping empty chunks loses no module. */
  lemma NonEmptyAllModules(chunks: seq<Chunk>)
    ensures AllModules(NonEmpty(chunks)) == AllModules(chunks)
  {
  }

  /** Lines 5-8: with no entry module there are no chunks and every module is
      unreachable, in node order. */
  lemma BundleNoEntry(nodes: seq<ModuleNode>, edges: seq<ImportEdge>)
    requires forall n :: n in nodes ==> !n.isEntry
    ensures Bundle(nodes, edges).chunks == []
    ensures Bundle(nodes, edges).unreachableModules == Ids(nodes)
  {
  }

  /** `c` lists exactly the modules that two chunks of `pre` list. */
  ghost predicate ListsShared(pre: seq<Chunk>, c: Chunk)
  {
    forall m :: m in c.modules <==> InTwoChunks(pre, m)
  }

  /** The shared chunk survives the filter. */
  lemma FilterSharedKept(pre: seq<Chunk>, x: seq<Chunk>, m: string)
    requires InTwoChunks(pre, m)
    requires exists k :: 0 <= k < |x| && x[k].kind == Shared && ListsShared(pre, x[k])
    ensures exists c :: c in NonEmpty(x) && c.kind == Shared
  {
    var k :| 0 <= k < |x| && x[k].kind == Shared && ListsShared(pre, x[k]);
    assert m in x[k].modules;
    assert x[k] in NonEmpty(x);
  }

  /** Every shared chunk after the filter is the one before it. */
  lemma FilterSharedOnly(pre: seq<Chunk>, x: seq<Chunk>)
    requires forall i :: 0 <= i < |x| ==> x[i].id == i
    requires forall k :: 0 <= k < |x| && x[k].kind == Shared ==> k == |pre| && ListsShared(pre, x[k])
    ensures forall c :: c in NonEmpty(x) && c.kind == Shared ==> c.id == |pre| && ListsShared(pre, c)
  {
    forall c | c in NonEmpty(x) && c.kind == Shared ensures c.id == |pre| && ListsShared(pre, c) {
      NonEmptyFrom(x, c);
    }
  }

  /** The shared-chunk facts of the extracted chunks `x` carry over to the
      filtered chunks `r`. */
  lemma SharedResult(pre: seq<Chunk>, x: seq<Chunk>, r: seq<Chunk>)
    requires forall i :: 0 <= i < |x| ==> x[i].id == i
    requires (exists k :: 0 <= k < |x| && x[k].kind == Shared) <==> exists m :: InTwoChunks(pre, m)
    requires forall k :: 0 <= k < |x| && x[k].kind == Shared ==> k == |pre| && ListsShared(pre, x[k])
    requires r == NonEmpty(x)
    ensures (exists c :: c in r && c.kind == Shared) <==> exists m :: InTwoChunks(pre, m)
    ensures forall c :: c in r && c.kind == Shared ==> c.id == |pre| && ListsShared(pre, c)
  {
    FilterSharedOnly(pre, x);
    if exists m :: InTwoChunks(pre, m) {
      var m :| InTwoChunks(pre, m);
      FilterSharedKept(pre, x, m);
    }
  }

  /** Lines 127-149 as seen in the result: a shared chunk exists exactly when
      some module falls in two of the main and async chunks, its id follows
      theirs, and it lists exactly those modules. */
  lemma BundleShared(nodes: seq<ModuleNode>, edges: seq<ImportEdge>)
    requires FindEntry(nodes).Some?
    ensures var pre := PreChunks(nodes, edges, FindEntry(nodes).value.id);
            var r := Bundle(nodes, edges).chunks;
            && ((exists c :: c in r && c.kind == Shared) <==> exists m :: InTwoChunks(pre, m))
            && (forall c :: c in r && c.kind == Shared ==> c.id == |pre| && ListsShared(pre, c))
  {
    var pre := PreChunks(nodes, edges, FindEntry(nodes).value.id);
    PreChunksNumbered(nodes, edges, FindEntry(nodes).value.id);
    ExtractShared(nodes, pre);
    BundleUnfold(nodes, edges);
    SharedResult(pre, Extract(nodes, pre), Bundle(nodes, edges).chunks);
  }

  /** A chunk of `x` that keeps a module survives the filter. */
  lemma FilterKeeps(x: seq<Chunk>, i: nat, m: string)
    requires i < |x| && m in x[i].modules
    ensures exists c :: c in NonEmpty(x) && c == x[i] && m in c.modules
  {
    assert x[i] in NonEmpty(x);
  }

  /** Line 146: a module that only one of the main and async chunks lists
      stays in that chunk. */
  lemma BundleKeepsSingles(nodes: seq<ModuleNode>, edges: seq<ImportEdge>)
    requires FindEntry(nodes).Some?
    ensures var pre := PreChunks(nodes, edges, FindEntry(nodes).value.id);
            var r := Bundle(nodes, edges).chunks;
            forall i, m :: 0 <= i < |pre| && m in pre[i].modules && !InTwoChunks(pre, m) ==>
              exists c :: c in r && c.id == i && m in c.modules
  {
    var pre := PreChunks(nodes, edges, FindEntry(nodes).value.id);
    var x := Extract(nodes, pre);
    PreChunksNumbered(nodes, edges, FindEntry(nodes).value.id);
    ExtractPartition(nodes, pre);
    BundleUnfold(nodes, edges);
    forall i, m | 0 <= i < |pre| && m in pre[i].modules && !InTwoChunks(pre, m)
      ensures exists c :: c in NonEmpty(x) && c.id == i && m in c.modules
    {
      FilterKeeps(x, i, m);
    }
  }

  // ---------------------------------------------------------------------------
  // When the main chunk disappears

  /** Some async chunk lists the entry module. */
  ghost predicate EntryInAsync(pre: seq<Chunk>, entryId: string)
  {
    exists i :: 1 <= i < |pre| && entryId in pre[i].modules
  }

  /** An async chunk that lists the entry lists the whole static closure of
      the entry, so every module of the main chunk is listed twice. */
  lemma MainAllShared(nodes: seq<ModuleNode>, edges: seq<ImportEdge>, entryId: string, k: nat)
    requires var pre := PreChunks(nodes, edges, entryId); 1 <= k < |pre| && entryId in pre[k].modules
    ensures var pre := PreChunks(nodes, edges, entryId);
            forall m :: m in pre[0].modules ==> InTwoChunks(pre, m)
  {
    var staticAdj, dynamicAdj := Adjacency(nodes, edges, StaticOnly), Adjacency(nodes, edges, DynamicOnly);
    var pre := PreChunks(nodes, edges, entryId);
    PreChunksFacts(nodes, edges, entryId);
    ClosureIsReachableSet(staticAdj, dynamicAdj, entryId);
    ClosureIsReachableSet(staticAdj, dynamicAdj, pre[k].modules[0]);
    forall m | m in pre[0].modules ensures InTwoChunks(pre, m) {
      assert Reachable(staticAdj, entryId, m);
      var p :| IsPath(staticAdj, p) && p[0] == entryId && p[|p| - 1] == m;
      PathStaysInClosed(staticAdj, pre[k].modules, p);
      assert m in pre[0].modules && m in pre[k].modules;
    }
  }

  /** Only the main pre-chunk lists the entry when no async chunk does. */
  lemma EntryNotShared(nodes: seq<ModuleNode>, edges: seq<ImportEdge>, entryId: string)
    requires !EntryInAsync(PreChunks(nodes, edges, entryId), entryId)
    ensures var pre := PreChunks(nodes, edges, entryId);
            |pre| > 0 && entryId in pre[0].modules && !InTwoChunks(pre, entryId)
  {
    PreChunksFacts(nodes, edges, entryId);
  }

  /** A main chunk whose every module is shared keeps nothing. */
  lemma MainEmptied(pre: seq<Chunk>, main: seq<string>)
    requires |pre| > 0
    requires forall m :: m in main <==> m in pre[0].modules && !InTwoChunks(pre, m)
    requires forall m :: m in pre[0].modules ==> InTwoChunks(pre, m)
    ensures |main| == 0
  {
    EmptyIfNoMembers(main);
  }

  /** The filtered chunks hold a main chunk exactly when the extracted main
      chunk keeps a module. */
  lemma MainFilter(pre: seq<Chunk>, x: seq<Chunk>)
    requires 0 < |pre| <= |x|
    requires forall i :: 0 <= i < |x| ==> x[i].id == i
    requires forall i :: 0 <= i < |x| ==> x[i].kind == (if i == 0 then Main else if i < |pre| then Async else Shared)
    ensures (exists c :: c in NonEmpty(x) && c.kind == Main) <==> |x[0].modules| > 0
  {
    if |x[0].modules| > 0 {
      assert x[0] in NonEmpty(x);
    }
    if exists c :: c in NonEmpty(x) && c.kind == Main {
      var c :| c in NonEmpty(x) && c.kind == Main;
      NonEmptyFrom(x, c);
    }
  }

  /** The pre-chunks' kinds as extraction leaves them. */
  lemma ExtractKinds(nodes: seq<ModuleNode>, edges: seq<ImportEdge>, entryId: string)
    ensures var pre := PreChunks(nodes, edges, entryId);
            var x := Extract(nodes, pre);
            && 0 < |pre| <= |x|
            && (forall i :: 0 <= i < |x| ==> x[i].id == i)
            && (forall i :: 0 <= i < |x| ==> x[i].kind == (if i == 0 then Main else if i < |pre| then Async else Shared))
  {
    var pre := PreChunks(nodes, edges, entryId);
    PreChunksFacts(nodes, edges, entryId);
    assert forall i :: 0 <= i < |pre| ==> pre[i].kind == (if i == 0 then Main else Async);
    PreChunksNumbered(nodes, edges, entryId);
    ExtractKindsOf(nodes, pre);
  }

  lemma ExtractKindsOf(nodes: seq<ModuleNode>, pre: seq<Chunk>)
    requires Numbered(pre) && 0 < |pre|
    requires forall i :: 0 <= i < |pre| ==> pre[i].kind == (if i == 0 then Main else Async)
    ensures var x := Extract(nodes, pre);
            && |pre| <= |x|
            && (forall i :: 0 <= i < |x| ==> x[i].id == i)
            && (forall i :: 0 <= i < |x| ==> x[i].kind == (if i == 0 then Main else if i < |pre| then Async else Shared))
  {
    ExtractSplit(nodes, pre);
    SplitSharedLast(pre, SharedList(pre), Extract(nodes, pre));
  }

  /** The extracted main chunk keeps the main chunk's modules that no other
      chunk lists. */
  lemma ExtractMain(nodes: seq<ModuleNode>, edges: seq<ImportEdge>, entryId: string)
    ensures var pre := PreChunks(nodes, edges, entryId);
            var x := Extract(nodes, pre);
            && 0 < |pre| <= |x|
            && forall m :: m in x[0].modules <==> m in pre[0].modules && !InTwoChunks(pre, m)
  {
    var pre := PreChunks(nodes, edges, entryId);
    PreChunksFacts(nodes, edges, entryId);
    PreChunksNumbered(nodes, edges, entryId);
    ExtractSplit(nodes, pre);
  }

  /** Line 156 with lines 127-149: the main chunk is missing from the result
      exactly when some async chunk lists the entry module, because then
      every module of the main chunk moves to the shared chunk. */
  lemma BundleMainKept(nodes: seq<ModuleNode>, edges: seq<ImportEdge>)
    requires FindEntry(nodes).Some?
    ensures var entryId := FindEntry(nodes).value.id;
            (exists c :: c in Bundle(nodes, edges).chunks && c.kind == Main)
            <==> !EntryInAsync(PreChunks(nodes, edges, entryId), entryId)
  {
    var entryId := FindEntry(nodes).value.id;
    var pre := PreChunks(nodes, edges, entryId);
    var x := Extract(nodes, pre);
    ExtractKinds(nodes, edges, entryId);
    ExtractMain(nodes, edges, entryId);
    BundleUnfold(nodes, edges);
    MainFilter(pre, x);
    if EntryInAsync(pre, entryId) {
      var k :| 1 <= k < |pre| && entryId in pre[k].modules;
      MainAllShared(nodes, edges, entryId, k);
      MainEmptied(pre, x[0].modules);
    } else {
      EntryNotShared(nodes, edges, entryId);
    }
  }
}
