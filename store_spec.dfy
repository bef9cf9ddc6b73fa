/** The values the graph store's actions compute (useGraphStore.ts): the new
    node of `addModule`, the filtered and mapped node and edge lists of the
    editing actions, and the chunk annotations of `runBundler`. The store
    class in `Store` assigns these to its fields. */
module StoreSpec {
  import opened GraphTypes
  import opened Collections
  import opened ImportGraph
  import opened BundlerSpec

  // ---------------------------------------------------------------------------
  // New modules (lines 62-69)

  function DigitChar(d: nat): (c: char)
    requires d < 10
    ensures '0' <= c <= '9' && c as int - '0' as int == d
  {
    ('0' as int + d) as char
  }

  /** The decimal text of `n`, as a template literal renders it. */
  function Decimal(n: nat): (s: string)
    ensures |s| >= 1 && forall i :: 0 <= i < |s| ==> '0' <= s[i] <= '9'
  {
    if n < 10 then [DigitChar(n)] else Decimal(n / 10) + [DigitChar(n % 10)]
  }

  /** The number a string of decimal digits denotes. */
  function DecimalValue(s: string): nat
    requires forall i :: 0 <= i < |s| ==> '0' <= s[i] <= '9'
  {
    if s == [] then 0
    else DecimalValue(s[..|s| - 1]) * 10 + (s[|s| - 1] as int - '0' as int)
  }

  /** Reading back the decimal text gives the number. */
  lemma {:induction false} DecimalRoundTrip(n: nat)
    ensures DecimalValue(Decimal(n)) == n
  {
    if n >= 10 {
      var s := Decimal(n);
      assert s[..|s| - 1] == Decimal(n / 10);
      DecimalRoundTrip(n / 10);
    }
  }

  /** Line 63: the id of the `n`-th module the editor creates. */
  function ModuleId(n: nat): string
  {
    "module-" + Decimal(n)
  }

  /** Line 68: its file name. */
  function ModuleFile(n: nat): string
  {
    "file" + Decimal(n) + ".ts"
  }

  /** Different counter values give different ids. */
  lemma ModuleIdInjective(a: nat, b: nat)
    ensures ModuleId(a) == ModuleId(b) ==> a == b
  {
    if ModuleId(a) == ModuleId(b) {
      assert Decimal(a) == ModuleId(a)[7..];
      assert Decimal(b) == ModuleId(b)[7..];
      DecimalRoundTrip(a);
      DecimalRoundTrip(b);
    }
  }

  /** Lines 64-69: module `n` at `position`, the entry when it is the first
      node; it carries no bundle annotations yet. */
  function NewModule(n: nat, position: Position, isFirst: bool): ModuleNode
  {
    ModuleNode(ModuleId(n), ModuleFile(n), isFirst, position, None, None, None)
  }

  /** No node id is a generated id beyond the counter, so the next generated
      id is free. */
  ghost predicate CounterAhead(nodes: seq<ModuleNode>, counter: nat)
  {
    forall k: nat :: counter < k ==> ModuleId(k) !in IdSet(nodes)
  }

  /** Whether the counter is ahead depends only on the id set. */
  lemma CounterAheadIds(a: seq<ModuleNode>, b: seq<ModuleNode>, counter: nat)
    requires IdSet(a) == IdSet(b)
    ensures CounterAhead(a, counter) <==> CounterAhead(b, counter)
  {
  }

  /** Lines 62-71: appending module `counter + 1` keeps the counter ahead of
      the ids, and the new id was not taken. */
  lemma AddKeepsCounterAhead(nodes: seq<ModuleNode>, counter: nat, position: Position)
    requires CounterAhead(nodes, counter)
    ensures ModuleId(counter + 1) !in IdSet(nodes)
    ensures CounterAhead(nodes + [NewModule(counter + 1, position, nodes == [])], counter + 1)
  {
    var nodes' := nodes + [NewModule(counter + 1, position, nodes == [])];
    forall k: nat | counter + 1 < k
      ensures ModuleId(k) !in IdSet(nodes')
    {
      ModuleIdInjective(k, counter + 1);
      assert IdSet(nodes') == IdSet(nodes) + {ModuleId(counter + 1)};
    }
  }

  // ---------------------------------------------------------------------------
  // Removing nodes and edges (lines 73-79, 112-117)

  /** `s.filter(keep)`. */
  function Filter<T(!new)>(s: seq<T>, keep: T -> bool): (r: seq<T>)
    ensures |r| <= |s|
    ensures forall x :: x in r <==> x in s && keep(x)
  {
    if s == [] then []
    else Filter(s[..|s| - 1], keep) + (if keep(s[|s| - 1]) then [s[|s| - 1]] else [])
  }

  /** Filtering a concatenation filters each part and keeps them in order, so
      the kept elements stay in their input order. */
  lemma {:induction false} FilterAppend<T(!new)>(s: seq<T>, t: seq<T>, keep: T -> bool)
    ensures Filter(s + t, keep) == Filter(s, keep) + Filter(t, keep)
    decreases |t|
  {
    if t == [] {
      assert s + t == s;
    } else {
      assert (s + t)[..|s + t| - 1] == s + t[..|t| - 1];
      FilterAppend(s, t[..|t| - 1], keep);
    }
  }

  /** Line 75. */
  function WithoutNode(nodes: seq<ModuleNode>, nodeId: string): seq<ModuleNode>
  {
    Filter(nodes, (n: ModuleNode) => n.id != nodeId)
  }

  /** Line 76. */
  function WithoutIncident(edges: seq<ImportEdge>, nodeId: string): seq<ImportEdge>
  {
    Filter(edges, (e: ImportEdge) => e.source != nodeId && e.target != nodeId)
  }

  /** Line 114. */
  function WithoutEdge(edges: seq<ImportEdge>, edgeId: string): seq<ImportEdge>
  {
    Filter(edges, (e: ImportEdge) => e.id != edgeId)
  }

  /** Every edge runs between two nodes of the graph. */
  ghost predicate Closed(nodes: seq<ModuleNode>, edges: seq<ImportEdge>)
  {
    forall e :: e in edges ==> e.source in IdSet(nodes) && e.target in IdSet(nodes)
  }

  /** Lines 73-79: the id is gone from the nodes and from every edge, all
      other nodes and edges stay, and a graph whose edges all end at nodes
      still has that property. */
  lemma RemoveNodeClosed(nodes: seq<ModuleNode>, edges: seq<ImportEdge>, nodeId: string)
    ensures IdSet(WithoutNode(nodes, nodeId)) == IdSet(nodes) - {nodeId}
    ensures forall e :: e in WithoutIncident(edges, nodeId) <==> e in edges && e.source != nodeId && e.target != nodeId
    ensures Closed(nodes, edges) ==> Closed(WithoutNode(nodes, nodeId), WithoutIncident(edges, nodeId))
  {
    var nodes' := WithoutNode(nodes, nodeId);
    assert forall n :: n in nodes' <==> n in nodes && n.id != nodeId;
    forall id | id in IdSet(nodes) - {nodeId}
      ensures id in IdSet(nodes')
    {
      var n :| n in nodes && n.id == id;
      assert n in nodes';
    }
  }

  /** Lines 112-117: exactly the edges with that id are dropped. */
  lemma RemoveEdgeOnly(edges: seq<ImportEdge>, edgeId: string)
    ensures forall e :: e in WithoutEdge(edges, edgeId) <==> e in edges && e.id != edgeId
    ensures forall e :: e in WithoutEdge(edges, edgeId) ==> e.id != edgeId
  {
  }

  // ---------------------------------------------------------------------------
  // Renaming and the entry flag (lines 81-96)

  /** Line 83-85. */
  function Renamed(nodes: seq<ModuleNode>, nodeId: string, filename: string): seq<ModuleNode>
  {
    seq(|nodes|, i requires 0 <= i < |nodes| =>
      if nodes[i].id == nodeId then nodes[i].(filename := filename) else nodes[i])
  }

  /** Lines 81-87: the node list keeps its length, order and ids, every
      field but the file name, and every node of another id. */
  lemma RenameOnlyFilename(nodes: seq<ModuleNode>, nodeId: string, filename: string)
    ensures var r := Renamed(nodes, nodeId, filename);
            && Ids(r) == Ids(nodes)
            && (forall i :: 0 <= i < |nodes| ==> r[i].(filename := nodes[i].filename) == nodes[i])
            && (forall i :: 0 <= i < |nodes| ==> (r[i].filename == filename || r[i] == nodes[i]))
            && (forall i :: 0 <= i < |nodes| && nodes[i].id != nodeId ==> r[i] == nodes[i])
  {
    var r := Renamed(nodes, nodeId, filename);
    forall i | 0 <= i < |nodes|
      ensures r[i].id == nodes[i].id && r[i].(filename := nodes[i].filename) == nodes[i]
      ensures r[i].filename == filename || r[i] == nodes[i]
      ensures nodes[i].id != nodeId ==> r[i] == nodes[i]
    {
    }
    SameIds(r, nodes);
  }

  /** Node lists with the same ids position by position have the same id
      list. */
  lemma SameIds(a: seq<ModuleNode>, b: seq<ModuleNode>)
    requires |a| == |b| && forall i :: 0 <= i < |a| ==> a[i].id == b[i].id
    ensures Ids(a) == Ids(b)
  {
    assert forall i :: 0 <= i < |a| ==> Ids(a)[i] == Ids(b)[i];
  }

  /** After a rename, the bundler's chunk reasons show the new name for
      that id. */
  lemma RenameShowsName(nodes: seq<ModuleNode>, nodeId: string, filename: string)
    requires nodeId in IdSet(nodes)
    ensures DisplayName(Renamed(nodes, nodeId, filename), nodeId) == filename
  {
    var r := Renamed(nodes, nodeId, filename);
    assert nodeId in IdSet(r) by {
      var n :| n in nodes && n.id == nodeId;
      var i :| 0 <= i < |nodes| && nodes[i] == n;
      assert r[i] in r && r[i].id == nodeId;
    }
    var f := FindNode(r, nodeId);
    var i :| 0 <= i < |r| && r[i] == f.value;
  }

  /** Lines 91-94. */
  function WithEntry(nodes: seq<ModuleNode>, nodeId: string): seq<ModuleNode>
  {
    seq(|nodes|, i requires 0 <= i < |nodes| => nodes[i].(isEntry := nodes[i].id == nodeId))
  }

  /** Lines 89-96: the entry flag holds exactly on the nodes with that id,
      nothing else changes, and the bundler then starts from that id (or
      finds no entry when no node has it). */
  lemma SetEntryExactly(nodes: seq<ModuleNode>, nodeId: string)
    ensures var r := WithEntry(nodes, nodeId);
            && |r| == |nodes|
            && (forall i :: 0 <= i < |nodes| ==> (r[i].isEntry <==> nodes[i].id == nodeId))
            && (forall i :: 0 <= i < |nodes| ==> r[i].(isEntry := nodes[i].isEntry) == nodes[i])
            && (FindEntry(r).Some? <==> nodeId in IdSet(nodes))
            && (FindEntry(r).Some? ==> FindEntry(r).value.id == nodeId)
  {
    var r := WithEntry(nodes, nodeId);
    if nodeId in IdSet(nodes) {
      var n :| n in nodes && n.id == nodeId;
      var i :| 0 <= i < |nodes| && nodes[i] == n;
      assert r[i] in r && r[i].isEntry;
    } else {
      forall n | n in r
        ensures !n.isEntry
      {
        var i :| 0 <= i < |r| && r[i] == n;
        assert nodes[i] in nodes;
      }
    }
  }

  // ---------------------------------------------------------------------------
  // Edge kinds (lines 98-110)

  function StyleOf(t: ImportType): EdgeStyle
  {
    if t == Static then StaticImport else DynamicImport
  }

  /** Lines 102-107: a 'static' edge becomes dynamic; any other edge, one
      with no tag included, becomes static; the style follows the tag. */
  function Toggled(e: ImportEdge): ImportEdge
  {
    var newType := if e.importType == Some(Static) then Dynamic else Static;
    e.(style := Some(StyleOf(newType)), importType := Some(newType))
  }

  /** Line 100-108. */
  function ToggledAll(edges: seq<ImportEdge>, edgeId: string): seq<ImportEdge>
  {
    seq(|edges|, i requires 0 <= i < |edges| => if edges[i].id == edgeId then Toggled(edges[i]) else edges[i])
  }

  /** An edge whose tag is 'static' or 'dynamic' and whose style matches it,
      as every edge the editor creates or toggles is. */
  predicate Tagged(e: ImportEdge)
  {
    (e.importType == Some(Static) || e.importType == Some(Dynamic)) && e.style == Some(StyleOf(e.importType.value))
  }

  /** A toggle always leaves a tagged edge, and the bundler's reading of an
      edge flips exactly when the edge carried the 'static' or 'dynamic'
      tag: an untagged edge, already static for the bundler, stays static,
      and an unrecognised tag, dynamic for the bundler, becomes static. */
  lemma ToggleFlips(e: ImportEdge)
    ensures Tagged(Toggled(e))
    ensures Toggled(e).id == e.id && Toggled(e).source == e.source && Toggled(e).target == e.target
    ensures IsStatic(Toggled(e)) <==> !IsStatic(e) || e.importType == None
  {
  }

  /** Toggling a tagged edge twice restores it. */
  lemma ToggleTwice(e: ImportEdge)
    requires Tagged(e)
    ensures Toggled(Toggled(e)) == e
  {
  }

  /** Lines 98-110: only the edges with that id change, and toggling the
      same id twice restores a list whose edges of that id are tagged. */
  lemma ToggleAllTwice(edges: seq<ImportEdge>, edgeId: string)
    ensures var r := ToggledAll(edges, edgeId);
            && |r| == |edges|
            && (forall i :: 0 <= i < |edges| && edges[i].id != edgeId ==> r[i] == edges[i])
            && (forall i :: 0 <= i < |edges| && edges[i].id == edgeId ==> Tagged(r[i]) && r[i].id == edgeId)
    ensures (forall e :: e in edges && e.id == edgeId ==> Tagged(e)) ==>
              ToggledAll(ToggledAll(edges, edgeId), edgeId) == edges
  {
    var r := ToggledAll(edges, edgeId);
    forall i | 0 <= i < |edges| && edges[i].id == edgeId
      ensures Tagged(r[i]) && r[i].id == edgeId
    {
      ToggleFlips(edges[i]);
    }
    if forall e :: e in edges && e.id == edgeId ==> Tagged(e) {
      forall i | 0 <= i < |edges|
        ensures ToggledAll(r, edgeId)[i] == edges[i]
      {
        if edges[i].id == edgeId {
          assert edges[i] in edges;
          ToggleTwice(edges[i]);
        }
      }
    }
  }

  // ---------------------------------------------------------------------------
  // Chunk annotations (lines 119-146)

  /** The value `chunkMap` holds for a module. */
  datatype ChunkInfo = ChunkInfo(color: string, chunkId: nat)

  /** `chunkMap.get(id)`: the last chunk listing `id` wins. */
  function LastChunkWith(chunks: seq<Chunk>, id: string): Option<ChunkInfo>
  {
    if chunks == [] then None
    else
      var c := chunks[|chunks| - 1];
      if id in c.modules then Some(ChunkInfo(c.color, c.id)) else LastChunkWith(chunks[..|chunks| - 1], id)
  }

  /** The chunk `LastChunkWith` reports is the last chunk that lists the id;
      there is none exactly when no chunk lists it. */
  lemma {:induction false} LastChunkWithIsLast(chunks: seq<Chunk>, id: string)
    ensures LastChunkWith(chunks, id).None? <==> forall k :: 0 <= k < |chunks| ==> id !in chunks[k].modules
    ensures LastChunkWith(chunks, id).Some? ==>
              exists k :: 0 <= k < |chunks| && id in chunks[k].modules
                && LastChunkWith(chunks, id).value == ChunkInfo(chunks[k].color, chunks[k].id)
                && forall j :: k < j < |chunks| ==> id !in chunks[j].modules
  {
    if chunks != [] {
      var last := |chunks| - 1;
      var prefix := chunks[..last];
      if id in chunks[last].modules {
        assert LastChunkWith(chunks, id) == Some(ChunkInfo(chunks[last].color, chunks[last].id));
      } else {
        assert LastChunkWith(chunks, id) == LastChunkWith(prefix, id);
        LastChunkWithIsLast(prefix, id);
        assert forall k :: 0 <= k < |prefix| ==> chunks[k] == prefix[k];
        if LastChunkWith(prefix, id).Some? {
          var k :| 0 <= k < |prefix| && id in prefix[k].modules
                   && LastChunkWith(prefix, id).value == ChunkInfo(prefix[k].color, prefix[k].id)
                   && forall j :: k < j < |prefix| ==> id !in prefix[j].modules;
          assert id in chunks[k].modules;
        }
      }
    }
  }

  /** The node with the annotations of lines 131-142. */
  function Annotate(n: ModuleNode, info: Option<ChunkInfo>, unreachable: seq<string>): ModuleNode
  {
    n.(chunkColor := if info.Some? then Some(info.value.color) else None,
       chunkId := if info.Some? then Some(info.value.chunkId) else None,
       isUnreachable := Some(n.id in unreachable))
  }

  /** Lines 131-143: every node annotated from the bundle result. */
  function Annotated(nodes: seq<ModuleNode>, result: BundleResult): seq<ModuleNode>
  {
    seq(|nodes|, i requires 0 <= i < |nodes| =>
      Annotate(nodes[i], LastChunkWith(result.chunks, nodes[i].id), result.unreachableModules))
  }
}
