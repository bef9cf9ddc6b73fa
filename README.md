# How bundling works — a verified model of the chunking engine

The application is an interactive teaching tool. The user draws a module
graph: modules are nodes, and import edges are tagged `static` or `dynamic`.
The tool then shows how a bundler would split that graph into chunks. This
project models, in Dafny, the four parts of the program that carry its logic.

- **The chunking engine, `runBundler`** (`src/engine/bundler.ts`). It runs in
  these steps:
  - pick the first entry-flagged module;
  - build the static and dynamic adjacency lists;
  - walk the static closure of the entry with an explicit stack, giving the
    main chunk, chunk 0;
  - drain a FIFO queue of dynamic-import targets, one async chunk per
    distinct target;
  - move every module listed by two or more chunks into one shared chunk,
    which gets the next id;
  - drop the empty chunks and report the modules no walk reached.
- **The layered layout, `getLayoutedElements`** (`src/utils/layout.ts`). It
  runs in these steps:
  - count in-degrees and seed the roots;
  - rank the nodes breadth-first with a max-update rule;
  - group the nodes into layers by rank;
  - give every node an integer position, each layer centred under the widest
    one.
- **The graph store** (`src/store/useGraphStore.ts`). It holds the node and
  edge lists, the last bundle result, the highlighted chunk and a module
  counter. Its actions replace these fields.
- **The chunk palette** (`src/utils/colors.ts`): eight colours, indexed by
  the chunk id modulo 8.

The model has the same form as the program.

- **The engine's loops are methods** (`Bundler`, `StaticClosure`,
  `ImportGraph.BuildAdjacency`). Each method is proved equal to a function
  that states the same computation as a whole: `Bundle`, `Closure`,
  `Adjacency`, `Expand`, `Extract`.
- **The layout is the same.** The methods in `Layout` are proved equal to
  `LayoutSpec.Layout` and its parts.
- **The store is a class, `Store.GraphStore`.** Its methods change its
  fields. Each method states the whole new state and keeps the invariant
  that the module counter is ahead of every id it could generate.
- **The properties are lemmas about the functions.** They live in
  `BundlerProps`, `BundleFacts`, `LayoutProps` and `StoreProps`.

How the source's data maps to Dafny:

- A JavaScript `Map` whose key order matters is a Dafny `map` with a `seq`
  of keys in first-insertion order. Examples are `moduleToChunks` and
  `layers`.
- The runtime `importType` tag is `Option<ImportType>`. `Unrecognized`
  stands for any string other than 'static' and 'dynamic'.
- `Math.random()` in `addModule` becomes a parameter, `scatter`.

## Model

| member | source | states |
|---|---|---|
| GraphTypes.Ids | src/engine/bundler.ts:7 | the id list has one entry per node, and entry `i` is the id of node `i` |
| GraphTypes.FindNode | src/engine/bundler.ts:95 | finds a node exactly when some node has the id; the node found has that id and no earlier node does |
| GraphTypes.SameIdSet | src/store/useGraphStore.ts:83-94 | two node lists with the same ids, position by position, have the same id set |
| Collections.Without | src/engine/bundler.ts:146 | `filter(m => !shared.includes(m))` keeps exactly the members not dropped, and the result is no longer than its input |
| Collections.WithoutNoDup | src/engine/bundler.ts:146 | filtering keeps a list duplicate-free |
| ImportGraph.Targets | src/engine/bundler.ts:19-26 | a source's list holds exactly the targets of its edges that the filter keeps |
| ImportGraph.SuccInAdjTargets | src/engine/bundler.ts:44 | every listed successor is among all listed targets |
| ImportGraph.AdjacencyLookup | src/engine/bundler.ts:14-26 | an id that is not a node has no list; a node's list holds exactly the targets of its matching edges |
| ImportGraph.EdgesSplitInTwo | src/engine/bundler.ts:20-25 | each edge lands in exactly one of the static and dynamic lists |
| ImportGraph.EdgeTargetListed | src/engine/bundler.ts:20-25 | an edge from a node puts its target in the list its tag selects, even when the target is dangling; a missing tag means static |
| ImportGraph.TargetsSnoc | src/engine/bundler.ts:19-26 | one more edge extends at most one target list |
| ImportGraph.AdjacencyAppendKept | src/engine/bundler.ts:22-24 | an edge from a node that the filter keeps appends its target to that node's list |
| ImportGraph.AdjacencyAppendSkipped | src/engine/bundler.ts:22-24 | an edge from an unknown source, or one the filter drops, changes nothing |
| ImportGraph.AdjacencyAppend | src/engine/bundler.ts:19-26 | the two cases above as one statement |
| ImportGraph.BuildAdjacency | src/engine/bundler.ts:11-26 | the two maps the loops fill equal `Adjacency` for the static filter and for the dynamic filter |
| StaticClosure.Unvisited | src/engine/bundler.ts:44-48 | the pushed targets are exactly the listed targets not yet visited |
| StaticClosure.Walk | src/engine/bundler.ts:38-53 | the walk only extends its module list and its dynamic list, and every dynamic target it adds is a dynamic-edge target |
| StaticClosure.DynamicOfIsBoundary | src/engine/bundler.ts:50-52 | the concatenated dynamic lists hold exactly the dynamic targets of the modules |
| StaticClosure.Closure | src/engine/bundler.ts:33-56 | every dynamic target the closure collects is a dynamic-edge target, which bounds the queue |
| StaticClosure.ReachableStep | src/engine/bundler.ts:44-46 | static reachability extends along one static edge |
| StaticClosure.WalkNoDup | src/engine/bundler.ts:40-42 | the walk never visits a module twice |
| StaticClosure.WalkDynamic | src/engine/bundler.ts:50-52 | the collected dynamic targets are the dynamic lists of the visited modules, in visit order |
| StaticClosure.WalkClosed | src/engine/bundler.ts:38-53 | when the stack runs dry, every static successor of a visited module has been visited |
| StaticClosure.WalkSound | src/engine/bundler.ts:38-53 | everything the walk visits is statically reachable from the start |
| StaticClosure.PathStaysInClosed | src/engine/bundler.ts:33-56 | a module list closed under static edges holds the end of every static path that starts in it |
| StaticClosure.ClosureFirstStep | src/engine/bundler.ts:36-53 | the first pop visits the start and pushes its unvisited static successors |
| StaticClosure.ClosureStartsAndNoDup | src/engine/bundler.ts:33-56 | the closure lists the start first and each module once |
| StaticClosure.ClosureBoundary | src/engine/bundler.ts:50-52 | the closure's dynamic targets are the dynamic lists of its modules, in visit order |
| StaticClosure.ClosureIsReachableSet | src/engine/bundler.ts:33-56 | the closure is closed under static edges and holds exactly the modules statically reachable from the start |
| StaticClosure.WalkPop | src/engine/bundler.ts:39-52 | one loop turn: a popped module already visited is skipped; otherwise it is visited, its unvisited successors are pushed and its dynamic list is appended |
| StaticClosure.PushUnvisited | src/engine/bundler.ts:44-48 | the loop pushes exactly the unvisited targets, in list order |
| StaticClosure.CollectStaticReachable | src/engine/bundler.ts:33-56 | the stack loop computes `Closure`: start first, no duplicates, dynamic targets in visit order |
| Colors.ChunkColor | src/utils/colors.ts:1-14 | the colour is one of the eight palette entries, namely entry `index mod 8` |
| Colors.ChunkColorPeriodic | src/utils/colors.ts:13 | the lookup has period 8 |
| Colors.ChunkColorsDistinct | src/utils/colors.ts:1-10 | ids 0 to 7 get pairwise different colours |
| Colors.MainChunkIsBlue | src/utils/colors.ts:2 | chunk 0 is `#3b82f6` |
| BundlerSpec.DisplayNames | src/engine/bundler.ts:129-132 | one display name per shared module |
| BundlerSpec.FindEntry | src/engine/bundler.ts:5 | no entry is found exactly when no node is flagged; otherwise the one found is the first flagged node |
| BundlerSpec.Enqueue | src/engine/bundler.ts:80-82 | one queue entry per target, tagged with the source chunk; entry `i` is target `i`, so the queue keeps the targets' order |
| BundlerSpec.SharedOf | src/engine/bundler.ts:120-125 | a key is shared exactly when it has two or more chunk ids; the list is duplicate-free when the key order is |
| BundlerSpec.StripShared | src/engine/bundler.ts:144-148 | every non-shared chunk loses the shared modules; the shared chunk is untouched |
| BundlerSpec.NonEmpty | src/engine/bundler.ts:156 | exactly the chunks with modules are kept |
| BundlerSpec.Unreachable | src/engine/bundler.ts:152-154 | lists exactly the node ids never visited |
| BundleFacts.UnreachableAppend | src/engine/bundler.ts:152-154 | the list for two node lists is the first's followed by the second's: one id per unvisited node, in node order |
| BundleFacts.UnreachableNoneVisited | src/engine/bundler.ts:152-154 | with no node visited the list is every node id, in node order |
| BundlerProps.IndexOfAppend | src/engine/bundler.ts:73-78 | recording one more chunk extends the index and the visited set |
| BundlerProps.ExpandSkip | src/engine/bundler.ts:88-89 | a target already processed is dropped from the queue |
| BundlerProps.ExpandNew | src/engine/bundler.ts:88-116 | a new target becomes the next async chunk and queues its boundary; the unprocessed targets shrink, so the loop terminates |
| BundlerProps.PreChunksUnfold | src/engine/bundler.ts:58-85 | the queue loop starts from the main chunk and its boundary |
| BundlerProps.RecordOne | src/engine/bundler.ts:75-77 | recording one module appends the chunk id to its list, creating the list when the module is new |
| BundlerProps.RecordSnoc | src/engine/bundler.ts:73-78 | recording a list is recording its prefix and then its last member |
| BundlerProps.RecordValid | src/engine/bundler.ts:73-78 | recording keeps the key order in step with the keys, as a JavaScript Map does |
| BundlerProps.RecordKeys | src/engine/bundler.ts:73-78 | recording adds exactly the recorded modules to the keys |
| BundlerProps.ValueAfterSnoc | src/engine/bundler.ts:75-77 | a module's list after recording a prefix and then one new module |
| BundlerProps.RecordValues | src/engine/bundler.ts:73-78 | recording a duplicate-free list appends the chunk id once to each member's list and changes no other list |
| BundlerProps.RecordSpec | src/engine/bundler.ts:107-112 | the key order stays valid, the recorded modules become keys and each gets the chunk id exactly once |
| BundlerProps.IndexOfSpec | src/engine/bundler.ts:73-112 | a module is a key exactly when some chunk lists it, and its list holds the ids of those chunks in order |
| BundlerProps.ChunksWithEmpty | src/engine/bundler.ts:73-112 | a module's id list is empty exactly when no chunk lists it |
| BundlerProps.ChunksWithTwo | src/engine/bundler.ts:122 | the id list has two or more entries exactly when two different chunks list the module |
| BundlerProps.SharedIff | src/engine/bundler.ts:120-125 | a module is shared exactly when two different chunks list it, and the shared list names each module once |
| BundlerProps.AsyncChunkShape | src/engine/bundler.ts:92-104 | an async chunk lists the closure of its target, target first, and its boundary is the closure's dynamic targets |
| BundlerProps.AsyncStartsSnoc | src/engine/bundler.ts:105 | a new async chunk adds its first module to the set of async starts |
| BundlerProps.AsyncStepFacts | src/engine/bundler.ts:92-116 | the new chunk starts at its target, and the queue receives exactly its boundary, tagged with its id |
| BundlerProps.ExpandShape | src/engine/bundler.ts:87-117 | the queue loop only appends chunks: chunk `i` has id `i` and colour `ChunkColor(i)`, and each async chunk is the closure of its first module |
| BundlerProps.PreShapeSnoc | src/engine/bundler.ts:92-105 | appending the next async chunk keeps that shape |
| BundlerProps.ExpandStartsDistinct | src/engine/bundler.ts:89-90 | each dynamic target yields at most one async chunk |
| BundlerProps.ExpandCovers | src/engine/bundler.ts:87-117 | when the loop ends, every dynamic target of every chunk starts an async chunk |
| BundlerProps.CoveredStep | src/engine/bundler.ts:88-116 | one turn keeps every boundary target processed or queued |
| BundlerProps.ExpandFromEarlier | src/engine/bundler.ts:80-81 | every async chunk starts at a dynamic target of an earlier chunk |
| BundlerProps.PendingSourcedStep | src/engine/bundler.ts:114-116 | after a turn, the queue still names the chunks its targets came from |
| BundlerProps.FromEarlierStep | src/engine/bundler.ts:88-105 | the new async chunk starts at a target of the chunk that queued it |
| BundlerProps.MainStepFacts | src/engine/bundler.ts:62-82 | the main chunk has id 0, the entry first, and queues its boundary |
| BundlerProps.PreChunksFacts | src/engine/bundler.ts:58-117 | before extraction: main chunk 0 is the closure of the entry; chunk `i` has id `i`; async starts are distinct and come from earlier chunks; every boundary target starts an async chunk |
| Bundler.RecordModules | src/engine/bundler.ts:73-78 | the loop computes `Record` and adds the modules to the global visited set |
| Bundler.EnqueueTargets | src/engine/bundler.ts:114-116 | the loop appends `Enqueue` of the targets |
| Bundler.CollectShared | src/engine/bundler.ts:120-125 | the loop over the Map computes `SharedOf` |
| Bundler.RemoveShared | src/engine/bundler.ts:144-148 | the in-place reassignment computes `StripShared` |
| Bundler.AddAsyncChunk | src/engine/bundler.ts:92-116 | appends the async chunk and queues its boundary; the index and the visited set stay those of the chunk list |
| Bundler.QueueTurn | src/engine/bundler.ts:88-116 | one turn keeps the loop invariant and the final chunks of `Expand`, and makes progress |
| Bundler.ProcessQueue | src/engine/bundler.ts:85-117 | the queue loop computes `Expand` from the main chunk's queue |
| Bundler.ExtractShared | src/engine/bundler.ts:119-149 | the extraction code computes `Extract` |
| Bundler.RunBundler | src/engine/bundler.ts:4-157 | `runBundler` computes `Bundle` |
| BundleFacts.PreChunksNumbered | src/engine/bundler.ts:63-93 | the chunks before extraction are numbered from 0, coloured by id and duplicate-free |
| BundleFacts.ExtractLayout | src/engine/bundler.ts:127-149 | with no shared module nothing changes; otherwise every chunk loses the shared modules and the shared chunk, with the next id, comes last |
| BundleFacts.ExtractSplit | src/engine/bundler.ts:120-149 | extraction is the split by the shared list |
| BundleFacts.SplitNumbered | src/engine/bundler.ts:128-138 | after the split, chunk `i` has id `i`, colour `ChunkColor(i)` and no duplicate |
| BundleFacts.SplitDisjoint | src/engine/bundler.ts:144-148 | after the split, no module is in two chunks |
| BundleFacts.SplitCoversAll | src/engine/bundler.ts:127-148 | every module of some chunk is still in some chunk |
| BundleFacts.SplitCoversOnly | src/engine/bundler.ts:127-148 | no module appears that was not in some chunk |
| BundleFacts.SplitKeepsSingles | src/engine/bundler.ts:146 | a module listed by one chunk only stays in it |
| BundleFacts.SplitSharedIff | src/engine/bundler.ts:127 | a shared chunk exists exactly when two chunks list a module |
| BundleFacts.SplitSharedLast | src/engine/bundler.ts:128-141 | the shared chunk is last and lists exactly the modules two chunks list; the other kinds are kept |
| BundleFacts.ExtractPartition | src/engine/bundler.ts:120-148 | extraction keeps the numbering; each module ends up in exactly one chunk; a module listed by one chunk stays there |
| BundleFacts.ExtractShared | src/engine/bundler.ts:127-141 | a shared chunk exists exactly when some module is in two chunks, and it lists exactly those modules |
| BundleFacts.NonEmptyFrom | src/engine/bundler.ts:156 | a kept chunk is a non-empty input chunk |
| BundleFacts.NonEmptyIncreasing | src/engine/bundler.ts:156 | the filter keeps ids increasing |
| BundleFacts.NonEmptyKeeps | src/engine/bundler.ts:156 | the filter keeps order, colours, disjointness and which modules some chunk lists |
| BundleFacts.IdsMembers | src/engine/bundler.ts:7 | the id list holds exactly the node ids |
| BundleFacts.ResultFacts | src/engine/bundler.ts:150-156 | a result built from the extracted chunks has the properties of `BundleChunks` |
| BundleFacts.BundleUnfold | src/engine/bundler.ts:4-157 | with an entry, the result is the filtered extraction plus the unreachable list |
| BundleFacts.BundleChunks | src/engine/bundler.ts:63-156 | ids strictly increase (gaps allowed); every chunk is non-empty, coloured by its id and duplicate-free; no module is in two chunks; the unreachable list holds exactly the node ids no chunk lists |
| BundleFacts.BundleUnreachableOrder | src/engine/bundler.ts:150-156 | the unreachable list is `Unreachable` of the modules the chunks list: one id per node no chunk lists, in node order, with or without an entry |
| BundleFacts.BundleNoEntry | src/engine/bundler.ts:5-8 | with no entry there are no chunks and every node id is unreachable, in node order |
| BundleFacts.FilterSharedKept | src/engine/bundler.ts:156 | a non-empty shared chunk survives the filter |
| BundleFacts.FilterSharedOnly | src/engine/bundler.ts:156 | the filter adds no shared chunk |
| BundleFacts.SharedResult | src/engine/bundler.ts:127-156 | the shared-chunk facts hold after the filter |
| BundleFacts.BundleShared | src/engine/bundler.ts:127-156 | the result has a shared chunk exactly when two pre-chunks list a module; its id follows theirs and it lists exactly those modules |
| BundleFacts.FilterKeeps | src/engine/bundler.ts:156 | a chunk that keeps a module survives the filter |
| BundleFacts.BundleKeepsSingles | src/engine/bundler.ts:146-156 | a module listed by one pre-chunk only stays in that chunk, under its id |
| BundleFacts.MainAllShared | src/engine/bundler.ts:92-125 | if an async chunk lists the entry, then every main-chunk module is listed twice |
| BundleFacts.EntryNotShared | src/engine/bundler.ts:62-125 | if no async chunk lists the entry, the entry is listed by the main chunk only |
| BundleFacts.MainEmptied | src/engine/bundler.ts:146 | a main chunk whose modules are all shared keeps nothing |
| BundleFacts.MainFilter | src/engine/bundler.ts:156 | a main chunk survives the filter exactly when it keeps a module |
| BundleFacts.ExtractKinds | src/engine/bundler.ts:66-136 | chunk 0 is main, then the async chunks, then at most one shared chunk |
| BundleFacts.ExtractKindsOf | src/engine/bundler.ts:127-148 | extraction keeps the kinds and adds only the shared chunk |
| BundleFacts.ExtractMain | src/engine/bundler.ts:144-148 | the extracted main chunk keeps exactly the modules no other chunk lists |
| BundleFacts.BundleMainKept | src/engine/bundler.ts:144-156 | the main chunk is missing from the result exactly when some async chunk lists the entry |
| LayoutSpec.Max | src/utils/layout.ts:57 | `Math.max` of two ranks |
| LayoutSpec.OutgoingMembers | src/utils/layout.ts:25-26 | a listed child is exactly the target of an edge from its parent |
| LayoutSpec.InCountZero | src/utils/layout.ts:27 | the in-count is zero exactly when no edge leads to the node |
| LayoutSpec.Roots | src/utils/layout.ts:35-40 | the roots are exactly the nodes with no incoming edge |
| LayoutSpec.AllZero | src/utils/layout.ts:38 | every root gets rank 0 |
| LayoutSpec.RootsSnoc | src/utils/layout.ts:35-40 | one more node joins the roots when nothing imports it |
| LayoutSpec.AllZeroSnoc | src/utils/layout.ts:38 | one more root at rank 0 |
| LayoutSpec.InDegreeOf | src/utils/layout.ts:19-28 | the in-degree table gives the in-count of every node |
| LayoutSpec.Visit | src/utils/layout.ts:50-59 | a visit ranks every child and queues exactly the children that had no rank |
| LayoutSpec.VisitShrinks | src/utils/layout.ts:50-59 | a visit either queues nothing or ranks a new id, so the loop terminates |
| LayoutSpec.ChildrenInAll | src/utils/layout.ts:50 | every child list is among all listed children |
| LayoutSpec.FullRank | src/utils/layout.ts:63-65 | every node gets a rank; the BFS ranks are kept and missing ones become 0 |
| LayoutSpec.Ranks | src/utils/layout.ts:31-65 | every node has a rank |
| LayoutSpec.LayerMembers | src/utils/layout.ts:68-73 | a layer holds exactly the nodes of its rank |
| LayoutSpec.LayerOrderMembers | src/utils/layout.ts:68-73 | the layer keys are exactly the ranks some node has |
| LayoutSpec.LastIndex | src/utils/layout.ts:83-87 | the last position of an id in its layer, where the last write lands |
| LayoutSpec.PlacedOf | src/utils/layout.ts:91-94 | a node list that puts every node at its place is the layout |
| LayoutSpec.LayoutAt | src/utils/layout.ts:91-94 | node `i` of the layout is node `i` of the input at its place |
| LayoutProps.VisitRanks | src/utils/layout.ts:51-58 | a new child gets its parent's rank + 1; an already ranked child gets the max of its rank and the parent's rank + 1; other ranks stay; the new children are distinct |
| LayoutProps.TurnFacts | src/utils/layout.ts:47-60 | one turn grows the queue with new, distinct, ranked ids and makes progress |
| LayoutProps.BfsQueue | src/utils/layout.ts:46-60 | the queue only grows, by distinct ids that had no rank before |
| LayoutProps.QueueStep | src/utils/layout.ts:47-60 | one turn of the `BfsQueue` induction |
| LayoutProps.BfsRanks | src/utils/layout.ts:51-58 | ranks only grow, none is dropped, and an id no edge leads to keeps its rank |
| LayoutProps.BfsQueueRanked | src/utils/layout.ts:47-49 | every queued id has a rank, so the `?? 0` fallback is never used |
| LayoutProps.RanksStep | src/utils/layout.ts:51-58 | one turn of the `BfsRanks` induction |
| LayoutProps.RootsNoDup | src/utils/layout.ts:35-40 | with distinct node ids, the roots are distinct |
| LayoutProps.NoRootSeed | src/utils/layout.ts:41-44 | with no root, the queue starts with `nodes[0]` alone, at rank 0 |
| LayoutProps.RootNotChild | src/utils/layout.ts:25-27 | no child list holds a node without incoming edges |
| LayoutProps.RootRankZero | src/utils/layout.ts:31-65 | a node with in-degree 0, counting edges of both kinds and from unknown sources, ends with rank 0 |
| LayoutProps.QueueOnce | src/utils/layout.ts:31-60 | with distinct node ids, no id enters the queue twice |
| LayoutProps.UnreachedRankZero | src/utils/layout.ts:63-65 | a node the BFS never reached gets rank 0 |
| LayoutProps.WidestBound | src/utils/layout.ts:77 | no layer is longer than the widest |
| LayoutProps.LayoutEmpty | src/utils/layout.ts:16 | an empty node list comes back as it is |
| LayoutProps.LayoutKeeps | src/utils/layout.ts:91-94 | same length and order; every field but the position is kept |
| LayoutProps.LayoutIdSet | src/utils/layout.ts:91-94 | the layout keeps the set of node ids |
| LayoutProps.PlaceBounds | src/utils/layout.ts:78-86 | `y` is rank times 140; `x` is at least 0 and the node ends within the total width |
| LayoutProps.PlaceDistinct | src/utils/layout.ts:68-89 | different ids get different places |
| LayoutProps.LayoutBounds | src/utils/layout.ts:76-89 | a node sits on the row of its rank, within the width of the widest layer |
| LayoutProps.LayoutDistinct | src/utils/layout.ts:68-89 | nodes with different ids get different positions |
| Layout.EdgeSnoc | src/utils/layout.ts:25-28 | one more edge extends its source's children, its target's in-count and the target set |
| Layout.ChildrenStep | src/utils/layout.ts:26 | line 26 keeps the children table equal to `Children` of the edges seen so far |
| Layout.InDegreeStep | src/utils/layout.ts:27 | line 27 keeps the in-degree table equal to `InDegree` of the edges seen so far |
| Layout.TablesStep | src/utils/layout.ts:25-28 | both tables after one more edge |
| Layout.BuildTables | src/utils/layout.ts:19-28 | the loops compute `Children` and `InDegree` |
| Layout.EmptyTables | src/utils/layout.ts:21-24 | every node gets an empty child list and in-degree 0 |
| Layout.CountEdges | src/utils/layout.ts:25-28 | the edge loop computes the tables for all the edges |
| Layout.TablesDone | src/utils/layout.ts:19-28 | after the last edge, the tables are `Children` and `InDegree` |
| Layout.SeedQueue | src/utils/layout.ts:31-44 | the roots at rank 0, or `nodes[0]` alone when there is no root |
| Layout.VisitChildren | src/utils/layout.ts:50-59 | the inner loop computes `Visit` |
| Layout.BfsTurn | src/utils/layout.ts:47-59 | one turn of the BFS loop |
| Layout.RankBreadthFirst | src/utils/layout.ts:46-60 | the `head` loop computes `Bfs` |
| Layout.RankTheRest | src/utils/layout.ts:63-65 | the loop computes `FullRank` |
| Layout.FreshLayerEmpty | src/utils/layout.ts:71 | a rank not yet seen has an empty layer |
| Layout.LayersSnoc | src/utils/layout.ts:69-73 | grouping one more node extends its rank's layer and, when the rank is new, the key order |
| Layout.LayerKeysStep | src/utils/layout.ts:70-71 | a new rank becomes the last key |
| Layout.LayerValuesStep | src/utils/layout.ts:72 | the node joins the layer of its rank |
| Layout.LayersStep | src/utils/layout.ts:70-72 | the layers after one more node |
| Layout.GroupLayers | src/utils/layout.ts:68-73 | the keys in insertion order are `LayerOrder`; each layer holds its rank's nodes in node order |
| Layout.WidestLayer | src/utils/layout.ts:77 | computes the length of the longest layer |
| Layout.PlaceRow | src/utils/layout.ts:83-88 | each id of a row gets `offsetX + 240 * column` at its last column; other entries stay |
| Layout.PlaceInLayer | src/utils/layout.ts:80-88 | the place of a layer member: centred column, row of its rank |
| Layout.PlaceLayer | src/utils/layout.ts:80-88 | one layer's ids get their places; other entries stay |
| Layout.PlaceLayers | src/utils/layout.ts:76-89 | exactly the nodes of the listed ranks get their places |
| Layout.RankAll | src/utils/layout.ts:19-65 | computes `Ranks` |
| Layout.PlaceAll | src/utils/layout.ts:68-89 | every node gets its place |
| Layout.GetLayoutedElements | src/utils/layout.ts:12-97 | `getLayoutedElements` returns `Layout` of the nodes and the edges unchanged |
| StoreSpec.DigitChar | src/store/useGraphStore.ts:63 | one decimal digit character |
| StoreSpec.Decimal | src/store/useGraphStore.ts:63 | the counter's decimal text is made of digits |
| StoreSpec.DecimalRoundTrip | src/store/useGraphStore.ts:63 | reading back the decimal text gives the number |
| StoreSpec.ModuleIdInjective | src/store/useGraphStore.ts:63 | different counter values give different module ids |
| StoreSpec.CounterAheadIds | src/store/useGraphStore.ts:155-158 | whether the counter is ahead depends only on the id set |
| StoreSpec.AddKeepsCounterAhead | src/store/useGraphStore.ts:62-71 | the next module id is free, and appending the module keeps the counter ahead |
| StoreSpec.Filter | src/store/useGraphStore.ts:75-76 | `filter` keeps exactly the elements that pass, and no more than it was given |
| StoreSpec.FilterAppend | src/store/useGraphStore.ts:75-76 | filtering a concatenation filters each part in turn, so the kept elements stay in input order |
| StoreSpec.RemoveNodeClosed | src/store/useGraphStore.ts:73-79 | the id leaves the nodes; exactly its incident edges go; a graph whose edges end at nodes keeps that property |
| StoreSpec.RemoveEdgeOnly | src/store/useGraphStore.ts:112-117 | exactly the edges with that id are dropped |
| StoreSpec.RenameOnlyFilename | src/store/useGraphStore.ts:81-87 | only the file names of nodes with that id change |
| StoreSpec.SameIds | src/store/useGraphStore.ts:83-94 | same ids position by position give the same id list |
| StoreSpec.RenameShowsName | src/store/useGraphStore.ts:81-87 | after a rename, the chunk reasons show the new name |
| StoreSpec.SetEntryExactly | src/store/useGraphStore.ts:89-96 | the entry flag holds exactly on nodes with that id and nothing else changes; the bundler then starts from that id |
| StoreSpec.ToggleFlips | src/store/useGraphStore.ts:102-107 | a toggle leaves a tagged edge with matching style; the bundler's reading flips, except that an untagged edge stays static |
| StoreSpec.ToggleTwice | src/store/useGraphStore.ts:102-107 | toggling a tagged edge twice restores it |
| StoreSpec.ToggleAllTwice | src/store/useGraphStore.ts:98-110 | only edges with that id change; toggling twice restores a list whose matching edges are tagged |
| StoreSpec.LastChunkWithIsLast | src/store/useGraphStore.ts:124-132 | `chunkMap.get` reports the last chunk listing the id, or nothing when none does |
| StoreProps.LastChunkIsOnly | src/store/useGraphStore.ts:124-132 | over disjoint chunks, the last chunk listing an id is the only one |
| StoreProps.AnnotateBundle | src/store/useGraphStore.ts:119-146 | each node keeps every other field, gets the id and colour of the chunk listing it, and is flagged unreachable exactly when no chunk lists it |
| Store.BuildChunkMap | src/store/useGraphStore.ts:124-129 | the map gives each module the colour and id of the last chunk listing it |
| Store.GraphStore.constructor | src/store/useGraphStore.ts:38-42 | an empty graph with counter 0 |
| Store.GraphStore.AddModule | src/store/useGraphStore.ts:62-71 | appends module `counter + 1`, the entry exactly when the list was empty, under an id not yet taken; nothing else changes |
| Store.GraphStore.RemoveNode | src/store/useGraphStore.ts:73-79 | drops the node and its edges and clears the result |
| Store.GraphStore.RenameNode | src/store/useGraphStore.ts:81-87 | renames; nothing else changes |
| Store.GraphStore.SetEntryPoint | src/store/useGraphStore.ts:89-96 | moves the entry flag; nothing else changes |
| Store.GraphStore.ToggleEdgeType | src/store/useGraphStore.ts:98-110 | toggles the edges with that id; nothing else changes |
| Store.GraphStore.RemoveEdge | src/store/useGraphStore.ts:112-117 | drops the edges with that id and clears the result |
| Store.GraphStore.RunBundler | src/store/useGraphStore.ts:119-146 | stores `Bundle` of the graph and annotates the nodes from it |
| Store.GraphStore.ClearGraph | src/store/useGraphStore.ts:148-151 | an empty graph; the counter is reset, and the result and highlight are cleared |
| Store.GraphStore.LoadExample | src/store/useGraphStore.ts:153-166 | the laid-out example; the counter is its node count; the result and highlight are cleared |
| Store.GraphStore.SetHighlightedChunkId | src/store/useGraphStore.ts:168-170 | sets the highlight; nothing else changes, and the counter invariant is kept |
| Examples.LazyAdjacency | src/data/examples.ts:67-134 | the static and dynamic lists of the lazy-routes graph |
| Examples.ClosureOfPair | src/engine/bundler.ts:33-56 | the closure of a module with one static import and nothing below it |
| Examples.ClosureOfLeaf | src/engine/bundler.ts:33-56 | the closure of a module that imports nothing |
| Examples.MainThenQueue | src/engine/bundler.ts:58-85 | the main chunk and the queue when the entry has one static import |
| Examples.ExpandTwo | src/engine/bundler.ts:87-117 | two queued leaf targets give async chunks 1 and 2, in queue order |
| Examples.TwoRoutes | src/engine/bundler.ts:58-117 | the chunks before extraction of any graph with the lazy-routes lists |
| Examples.LazyPreChunks | src/data/examples.ts:67-134 | the lazy-routes graph gives main {app, nav}, then {dashboard, chart}, then {settings} |
| Examples.LazyDisjoint | src/data/examples.ts:67-134 | those chunks are disjoint and hold every module |
| Examples.LazyBundleOf | src/engine/bundler.ts:120-156 | no shared chunk, and nothing unreachable |
| Examples.LazyBundle | src/data/examples.ts:67-134 | "Lazy-Loaded Routes": main {app, nav}, async 1 {dashboard, chart}, async 2 {settings} |
| Examples.VendorAdjacency | src/data/examples.ts:135-209 | the static and dynamic lists of the vendor graph |
| Examples.VendorMainClosure | src/engine/bundler.ts:33-56 | the entry's closure is app, home, utils, with profile as its boundary |
| Examples.VendorProfileClosure | src/engine/bundler.ts:33-56 | profile's closure is profile, api, utils: the last module pushed is popped first |
| Examples.ExpandLast | src/engine/bundler.ts:87-117 | a last new leaf target gives one more async chunk, and the queue runs dry |
| Examples.VendorPreChunks | src/data/examples.ts:135-209 | main {app, home, utils} and async {profile, api, utils} |
| Examples.SharedPair | src/engine/bundler.ts:120-125 | two chunks that share one module give that module as the shared list |
| Examples.ExtractPair | src/engine/bundler.ts:120-149 | that module moves to a shared chunk with id 2 and leaves both chunks |
| Examples.ExtractNone | src/engine/bundler.ts:127 | disjoint chunks are left alone |
| Examples.VendorBundleOf | src/engine/bundler.ts:120-156 | utils moves to shared chunk 2, and nothing is unreachable |
| Examples.VendorBundle | src/data/examples.ts:135-209 | "Shared Vendor Code": main {app, home}, async {profile, api}, shared {utils} with id 2 |
| Examples.ExamplesKeepCounterAhead | src/store/useGraphStore.ts:153-166 | loading either modelled example leaves the counter ahead of every id, because no example id is a generated `module-<n>` id |

## Left out

- **The React components.** They do only rendering, DOM events and styling.
  These are `App.tsx`, the graph-editor components, the chunk card and the
  context menu.
- **The store's `onNodesChange`, `onEdgesChange` and `onConnect`.** They
  hand the change to `@xyflow/react`, which is not part of this model. The
  `Date.now()` edge id of `onConnect` goes with them.
- **zustand's `create`/`set` mechanics.** `Store.GraphStore` keeps the state
  as fields. The module-level `nodeIdCounter` is a field too.
- Store.GraphStore.AddModule: the random default position is not modelled.
  `Math.random()` is replaced by the caller-supplied `scatter` position.
- **The open `[key: string]: unknown` fields and the xyflow base types.** A
  node has an id, a file name, an entry flag, a position and the three bundle
  annotations. An edge has an id, a source, a target, a style and an import
  tag. A node's renderer type `'module'` is constant and is not modelled.
- **The "Basic App" example.** Only the two examples whose bundles are stated
  are modelled.
- **The chunk reason text.** `BundlerSpec.ReasonText` renders it, but no
  property is stated about the exact wording.
- Store.GraphStore.LoadExample: sets the counter after the layout. The source sets the
  counter before calling the layout; the model sets it after. Nothing can
  observe the difference, because the layout does not read the counter.
- Store.GraphStore.LoadExample: the counter invariant is stated weaker. The contract does
  not promise that the counter is ahead of the example's ids. It states that
  this holds exactly when it holds of the example itself. An example that
  holds a `module-<n>` id with `n` greater than its node count breaks the
  invariant, and the source then generates that id a second time. The two
  modelled examples use no `module-` ids, so loading them keeps the invariant
  (`Examples.ExamplesKeepCounterAhead`).
- **The layout's rank guarantee.** `LayoutProps` does not claim that every
  child is ranked below every parent. A rank increase is not propagated to
  children already dequeued, so the code does not promise it.
- **Untagged and unrecognised edges.** The edge type declares only 'static'
  and 'dynamic' (`src/types/graph.ts:13`). `src/engine/bundler.ts:20-21`
  reads a missing tag as static and any other value as dynamic
  (`ImportGraph.IsStatic`).
- **Dangling targets.** The adjacency lists keep edges whose target is not a
  node, and the closures traverse them. Such ids can therefore appear in
  chunks, and the union of the chunks need not be a subset of the node ids.
  `BundleFacts.BundleChunks` is stated so that this case is allowed.
- **`sourceChunkId` is recorded but never read.** The model carries it, and
  `BundlerProps.ExpandFromEarlier` proves that it names an earlier chunk
  whose dynamic targets include the queued one.
