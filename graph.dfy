/** The dependency-graph vocabulary shared by the bundler, the layout pass and
    the store: modules (graph nodes), import edges, chunks and bundle results. */
module GraphTypes {

  datatype Option<+T> = None | Some(value: T)

  /** The `importType` tag of an edge. `Unrecognized` stands for any runtime
      value other than 'static' and 'dynamic' (the field is untyped at run time). */
  datatype ImportType = Static | Dynamic | Unrecognized

  /** The renderer's edge type, 'static-import' or 'dynamic-import'. */
  datatype EdgeStyle = StaticImport | DynamicImport

  datatype Position = Position(x: int, y: int)

  /** A module of the graph. The last three fields are the annotations the
      store writes after bundling; they are absent until then. */
  datatype ModuleNode = ModuleNode(
    id: string,
    filename: string,
    isEntry: bool,
    position: Position,
    chunkColor: Option<string>,
    chunkId: Option<nat>,
    isUnreachable: Option<bool>)

  /** An import edge `source -> target`. A missing `data` object and a missing
      `importType` are both `None`. */
  datatype ImportEdge = ImportEdge(
    id: string,
    source: string,
    target: string,
    style: Option<EdgeStyle>,
    importType: Option<ImportType>)

  datatype ChunkKind = Main | Async | Shared

  /** Why a chunk exists. The source stores the rendered sentence;
      `BundlerSpec.ReasonText` renders it from this value. */
  datatype ChunkReason =
    | EntryPoint
    | LazyTarget(targetName: string)
    | SharedModules(names: seq<string>)

  datatype Chunk = Chunk(id: nat, kind: ChunkKind, modules: seq<string>, color: string, reason: ChunkReason)

  datatype BundleResult = BundleResult(chunks: seq<Chunk>, unreachableModules: seq<string>)

  /** The ids of `nodes`, in node order (`nodes.map((n) => n.id)`). */
  function Ids(nodes: seq<ModuleNode>): (ids: seq<string>)
    ensures |ids| == |nodes|
    ensures forall i :: 0 <= i < |nodes| ==> ids[i] == nodes[i].id
  {
    if nodes == [] then [] else Ids(nodes[..|nodes| - 1]) + [nodes[|nodes| - 1].id]
  }

  function IdSet(nodes: seq<ModuleNode>): set<string>
  {
    set n | n in nodes :: n.id
  }

  /** Node lists with the same ids position by position have the same id
      set. */
  lemma SameIdSet(a: seq<ModuleNode>, b: seq<ModuleNode>)
    requires |a| == |b| && forall i :: 0 <= i < |a| ==> a[i].id == b[i].id
    ensures IdSet(a) == IdSet(b)
  {
    forall id | id in IdSet(a) ensures id in IdSet(b) {
      var i :| 0 <= i < |a| && a[i].id == id;
      assert b[i] in b;
    }
    forall id | id in IdSet(b) ensures id in IdSet(a) {
      var i :| 0 <= i < |b| && b[i].id == id;
      assert a[i] in a;
    }
  }

  /** One more node adds its id. */
  lemma IdSetSnoc(nodes: seq<ModuleNode>, i: nat)
    requires i < |nodes|
    ensures IdSet(nodes[..i + 1]) == IdSet(nodes[..i]) + {nodes[i].id}
  {
    assert nodes[..i + 1] == nodes[..i] + [nodes[i]];
  }

  /** `nodes.find((n) => n.id === id)`. */
  function FindNode(nodes: seq<ModuleNode>, id: string): (r: Option<ModuleNode>)
    ensures r.Some? <==> id in IdSet(nodes)
    ensures r.Some? ==> r.value in nodes && r.value.id == id
    ensures r.Some? ==> exists i :: 0 <= i < |nodes| && nodes[i] == r.value
                          && forall j :: 0 <= j < i ==> nodes[j].id != id
  {
    if nodes == [] then None
    else if nodes[0].id == id then Some(nodes[0])
    else
      var r := FindNode(nodes[1..], id);
      assert IdSet(nodes) == {nodes[0].id} + IdSet(nodes[1..]);
      r
  }

  /** The display name used in chunk reasons: the module's filename, or the
      bare id when no node has that id. */
  function DisplayName(nodes: seq<ModuleNode>, id: string): string
  {
    match FindNode(nodes, id)
    case Some(n) => n.filename
    case None => id
  }
}
