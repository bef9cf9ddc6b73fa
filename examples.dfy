/** Two of the editor's example graphs (examples.ts) and what the bundler
    makes of them. The graphs are written over their module ids, so that
    the proofs only need the ids to be distinct; the fixtures then fill in
    the ids of examples.ts. Positions are all (0, 0) in the fixtures. */
module Examples {
  import opened GraphTypes
  import opened Collections
  import opened ImportGraph
  import opened StaticClosure
  import opened Colors
  import opened BundlerSpec
  import opened BundlerProps
  import StoreSpec

  function Module(id: string, filename: string, isEntry: bool): ModuleNode
  {
    ModuleNode(id, filename, isEntry, Position(0, 0), None, None, None)
  }

  function Import(id: string, source: string, target: string, t: ImportType): ImportEdge
  {
    ImportEdge(id, source, target, Some(if t == Static then StaticImport else DynamicImport), Some(t))
  }

  predicate Distinct5(a: string, b: string, c: string, d: string, e: string)
  {
    a != b && a != c && a != d && a != e && b != c && b != d && b != e && c != d && c != e && d != e
  }

  // ---------------------------------------------------------------------------
  // Unrolling helpers

  /** What one edge adds to a target list. */
  function Pick(e: ImportEdge, source: string, f: EdgeFilter): seq<string>
  {
    if e.source == source && Keeps(f, e) then [e.target] else []
  }

  /** `Targets` on a list of four edges, unrolled. */
  lemma Targets4(es: seq<ImportEdge>, source: string, f: EdgeFilter)
    requires |es| == 4
    ensures Targets(es, source, f) == Pick(es[0], source, f) + Pick(es[1], source, f) + Pick(es[2], source, f) + Pick(es[3], source, f)
  {
    assert es[..1][..0] == [] && es[..2][..1] == es[..1] && es[..3][..2] == es[..2] && es[..3] == es[..|es| - 1];
    assert Targets(es[..1], source, f) == Pick(es[0], source, f);
    assert Targets(es[..2], source, f) == Pick(es[0], source, f) + Pick(es[1], source, f);
    assert Targets(es[..3], source, f) == Pick(es[0], source, f) + Pick(es[1], source, f) + Pick(es[2], source, f);
  }

  /** `Targets` on a list of five edges, unrolled. */
  lemma Targets5(es: seq<ImportEdge>, source: string, f: EdgeFilter)
    requires |es| == 5
    ensures Targets(es, source, f) == Pick(es[0], source, f) + Pick(es[1], source, f) + Pick(es[2], source, f)
                                      + Pick(es[3], source, f) + Pick(es[4], source, f)
  {
    Targets4(es[..4], source, f);
    assert es[..4] == es[..|es| - 1];
  }

  /** The successor list of node `i` of a graph with four or five edges. */
  lemma SuccOf(ns: seq<ModuleNode>, es: seq<ImportEdge>, f: EdgeFilter, i: nat, expected: seq<string>)
    requires i < |ns| && (|es| == 4 || |es| == 5)
    requires var v := ns[i].id;
             if |es| == 4 then Pick(es[0], v, f) + Pick(es[1], v, f) + Pick(es[2], v, f) + Pick(es[3], v, f) == expected
             else Pick(es[0], v, f) + Pick(es[1], v, f) + Pick(es[2], v, f) + Pick(es[3], v, f) + Pick(es[4], v, f) == expected
    ensures Succ(Adjacency(ns, es, f), ns[i].id) == expected
  {
    assert ns[i] in ns;
    AdjacencyLookup(ns, es, f, ns[i].id);
    if |es| == 4 { Targets4(es, ns[i].id, f); } else { Targets5(es, ns[i].id, f); }
  }

  /** A duplicate-free list whose only member is `x` is `[x]`. */
  lemma OnlyMember(s: seq<string>, x: string)
    requires NoDup(s) && forall m :: m in s <==> m == x
    ensures s == [x]
  {
    assert x in s;
    NoDupInit(s);
    var init := s[..|s| - 1];
    assert s[|s| - 1] == x by {
      assert s[|s| - 1] in s;
    }
    assert forall m :: m in init ==> m in s;
    assert forall m :: m !in init;
    EmptyIfNoMembers(init);
    assert s == init + [s[|s| - 1]];
  }

  /** A target not yet visited is pushed. */
  lemma UnvisitedOne(a: string, visited: set<string>)
    requires a !in visited
    ensures Unvisited([a], visited) == [a]
  {
    assert [a][..0] == [];
  }

  /** Two targets, neither visited, are both pushed, in order. */
  lemma UnvisitedPair(a: string, b: string, visited: set<string>)
    requires a !in visited && b !in visited
    ensures Unvisited([a, b], visited) == [a, b]
  {
    UnvisitedOne(a, visited);
    assert [a, b][..1] == [a];
  }

  /** One turn of the walk of lines 38-53 that visits a new module, with
      the next stack, visited set and result given. */
  lemma WalkVisit(s: Adj, d: Adj, u: set<string>, stack: seq<string>, visited: set<string>, acc: Collected,
                  stack': seq<string>, visited': set<string>, acc': Collected)
    requires AdjTargets(s) <= u && forall t :: t in stack ==> t in u
    requires stack != [] && stack[|stack| - 1] !in visited
    requires var current := stack[|stack| - 1];
             && visited' == visited + {current}
             && stack' == stack[..|stack| - 1] + Unvisited(Succ(s, current), visited')
             && acc' == Collected(acc.modules + [current], acc.dynamicTargets + Succ(d, current))
    ensures forall t :: t in stack' ==> t in u
    ensures Walk(s, d, u, stack, visited, acc) == Walk(s, d, u, stack', visited', acc')
  {
    SuccInAdjTargets(s, stack[|stack| - 1]);
    assert forall t :: t in stack[..|stack| - 1] ==> t in stack;
  }

  // ---------------------------------------------------------------------------
  // "Lazy-Loaded Routes" (examples.ts lines 67-134)

  function LazyNodesOf(app: string, nav: string, dashboard: string, chart: string, settings: string): seq<ModuleNode>
  {
    [Module(app, "App.tsx", true), Module(nav, "Nav.tsx", false), Module(dashboard, "Dashboard.tsx", false),
     Module(chart, "Chart.tsx", false), Module(settings, "Settings.tsx", false)]
  }

  function LazyEdgesOf(app: string, nav: string, dashboard: string, chart: string, settings: string): seq<ImportEdge>
  {
    [Import("app-nav", app, nav, Static), Import("app-dashboard", app, dashboard, Dynamic),
     Import("app-settings", app, settings, Dynamic), Import("dashboard-chart", dashboard, chart, Static)]
  }

  /** Lines 11-26 on the lazy-routes graph. */
  lemma LazyAdjacency(app: string, nav: string, dashboard: string, chart: string, settings: string)
    requires Distinct5(app, nav, dashboard, chart, settings)
    ensures var ns, es := LazyNodesOf(app, nav, dashboard, chart, settings), LazyEdgesOf(app, nav, dashboard, chart, settings);
            var s, d := Adjacency(ns, es, StaticOnly), Adjacency(ns, es, DynamicOnly);
            && Succ(s, app) == [nav] && Succ(s, nav) == [] && Succ(s, dashboard) == [chart]
            && Succ(s, chart) == [] && Succ(s, settings) == []
            && Succ(d, app) == [dashboard, settings] && Succ(d, nav) == [] && Succ(d, dashboard) == []
            && Succ(d, chart) == [] && Succ(d, settings) == []
  {
    LazyStatic(app, nav, dashboard, chart, settings);
    LazyDynamic(app, nav, dashboard, chart, settings);
  }

  lemma LazyStatic(app: string, nav: string, dashboard: string, chart: string, settings: string)
    requires Distinct5(app, nav, dashboard, chart, settings)
    ensures var s := Adjacency(LazyNodesOf(app, nav, dashboard, chart, settings), LazyEdgesOf(app, nav, dashboard, chart, settings), StaticOnly);
            && Succ(s, app) == [nav] && Succ(s, nav) == [] && Succ(s, dashboard) == [chart]
            && Succ(s, chart) == [] && Succ(s, settings) == []
  {
    var ns, es := LazyNodesOf(app, nav, dashboard, chart, settings), LazyEdgesOf(app, nav, dashboard, chart, settings);
    SuccOf(ns, es, StaticOnly, 0, [nav]);
    SuccOf(ns, es, StaticOnly, 1, []);
    SuccOf(ns, es, StaticOnly, 2, [chart]);
    SuccOf(ns, es, StaticOnly, 3, []);
    SuccOf(ns, es, StaticOnly, 4, []);
  }

  lemma LazyDynamic(app: string, nav: string, dashboard: string, chart: string, settings: string)
    requires Distinct5(app, nav, dashboard, chart, settings)
    ensures var d := Adjacency(LazyNodesOf(app, nav, dashboard, chart, settings), LazyEdgesOf(app, nav, dashboard, chart, settings), DynamicOnly);
            && Succ(d, app) == [dashboard, settings] && Succ(d, nav) == [] && Succ(d, dashboard) == []
            && Succ(d, chart) == [] && Succ(d, settings) == []
  {
    var ns, es := LazyNodesOf(app, nav, dashboard, chart, settings), LazyEdgesOf(app, nav, dashboard, chart, settings);
    SuccOf(ns, es, DynamicOnly, 0, [dashboard, settings]);
    SuccOf(ns, es, DynamicOnly, 1, []);
    SuccOf(ns, es, DynamicOnly, 2, []);
    SuccOf(ns, es, DynamicOnly, 3, []);
    SuccOf(ns, es, DynamicOnly, 4, []);
  }

  /** Lines 33-56 from a module with one static import and no dynamic one
      below it. */
  lemma ClosureOfPair(s: Adj, d: Adj, a: string, b: string, dynamic: seq<string>)
    requires a != b
    requires Succ(s, a) == [b] && Succ(s, b) == []
    requires Succ(d, a) == dynamic && Succ(d, b) == []
    ensures Closure(s, d, a) == Collected([a, b], dynamic)
  {
    var u := AdjTargets(s) + {a};
    UnvisitedOne(b, {a});
    WalkVisit(s, d, u, [a], {}, Collected([], []), [b], {a}, Collected([a], dynamic));
    WalkVisit(s, d, u, [b], {a}, Collected([a], dynamic), [], {a, b}, Collected([a, b], dynamic));
  }

  /** Lines 58-85 when the entry imports one module statically and nothing
      lies below it. */
  lemma MainThenQueue(ns: seq<ModuleNode>, es: seq<ImportEdge>, entry: string, b: string, dynamic: seq<string>)
    requires entry != b
    requires var s, d := Adjacency(ns, es, StaticOnly), Adjacency(ns, es, DynamicOnly);
             Succ(s, entry) == [b] && Succ(s, b) == [] && Succ(d, entry) == dynamic && Succ(d, b) == []
    ensures var s, d := Adjacency(ns, es, StaticOnly), Adjacency(ns, es, DynamicOnly);
            && (forall t :: t in dynamic ==> t in AdjTargets(d))
            && PreChunks(ns, es, entry)
               == Expand(ns, s, d, Enqueue(dynamic, 0), {}, [Chunk(0, Main, [entry, b], ChunkColor(0), EntryPoint)])
  {
    var s, d := Adjacency(ns, es, StaticOnly), Adjacency(ns, es, DynamicOnly);
    ClosureOfPair(s, d, entry, b, dynamic);
    PreChunksUnfold(ns, es, entry);
  }

  /** Lines 80-82 on two dynamic targets. */
  lemma EnqueueTwo(a: string, b: string, k: nat)
    ensures Enqueue([a, b], k) == [PendingImport(a, k), PendingImport(b, k)]
  {
    assert [a, b][..1] == [a] && [a][..0] == [];
  }

  /** Lines 33-56 from a module that imports nothing. */
  lemma ClosureOfLeaf(s: Adj, d: Adj, a: string)
    requires Succ(s, a) == [] && Succ(d, a) == []
    ensures Closure(s, d, a) == Collected([a], [])
  {
    WalkVisit(s, d, AdjTargets(s) + {a}, [a], {}, Collected([], []), [], {a}, Collected([a], []));
  }

  /** Lines 87-117 on a queue holding two distinct targets whose closures
      have no dynamic boundary: async chunks 1 and 2, in queue order. */
  lemma ExpandTwo(ns: seq<ModuleNode>, s: Adj, d: Adj, main: Chunk,
                  t1: string, modules1: seq<string>, t2: string, modules2: seq<string>)
    requires t1 != t2 && t1 in AdjTargets(d) && t2 in AdjTargets(d)
    requires Closure(s, d, t1) == Collected(modules1, []) && Closure(s, d, t2) == Collected(modules2, [])
    ensures Expand(ns, s, d, [PendingImport(t1, 0), PendingImport(t2, 0)], {}, [main])
         == [main, Chunk(1, Async, modules1, ChunkColor(1), LazyTarget(DisplayName(ns, t1))),
                   Chunk(2, Async, modules2, ChunkColor(2), LazyTarget(DisplayName(ns, t2)))]
  {
    var c1 := Chunk(1, Async, modules1, ChunkColor(1), LazyTarget(DisplayName(ns, t1)));
    ExpandFirst(ns, s, d, PendingImport(t1, 0), PendingImport(t2, 0), [main], modules1);
    assert {} + {t1} == {t1};
    ExpandLast(ns, s, d, PendingImport(t2, 0), {t1}, [main, c1], modules2);
  }

  /** The file names the chunk reasons of the lazy-routes graph show. */
  lemma LazyNames(app: string, nav: string, dashboard: string, chart: string, settings: string)
    requires Distinct5(app, nav, dashboard, chart, settings)
    ensures var ns := LazyNodesOf(app, nav, dashboard, chart, settings);
            DisplayName(ns, dashboard) == "Dashboard.tsx" && DisplayName(ns, settings) == "Settings.tsx"
  {
    var ns := LazyNodesOf(app, nav, dashboard, chart, settings);
    NameOf(ns, 2);
    NameOf(ns, 4);
  }

  /** Lines 58-117 on any graph with the successor lists and names of the
      lazy-routes graph. */
  lemma TwoRoutes(ns: seq<ModuleNode>, es: seq<ImportEdge>,
                  app: string, nav: string, dashboard: string, chart: string, settings: string)
    requires Distinct5(app, nav, dashboard, chart, settings)
    requires var s, d := Adjacency(ns, es, StaticOnly), Adjacency(ns, es, DynamicOnly);
             && Succ(s, app) == [nav] && Succ(s, nav) == [] && Succ(s, dashboard) == [chart]
             && Succ(s, chart) == [] && Succ(s, settings) == []
             && Succ(d, app) == [dashboard, settings] && Succ(d, nav) == [] && Succ(d, dashboard) == []
             && Succ(d, chart) == [] && Succ(d, settings) == []
    ensures PreChunks(ns, es, app)
            == [Chunk(0, Main, [app, nav], ChunkColor(0), EntryPoint),
                Chunk(1, Async, [dashboard, chart], ChunkColor(1), LazyTarget(DisplayName(ns, dashboard))),
                Chunk(2, Async, [settings], ChunkColor(2), LazyTarget(DisplayName(ns, settings)))]
  {
    var s, d := Adjacency(ns, es, StaticOnly), Adjacency(ns, es, DynamicOnly);
    var main := Chunk(0, Main, [app, nav], ChunkColor(0), EntryPoint);
    var queue := [PendingImport(dashboard, 0), PendingImport(settings, 0)];
    EnqueueTwo(dashboard, settings, 0);
    MainThenQueue(ns, es, app, nav, [dashboard, settings]);
    SuccInAdjTargets(d, app);
    ClosureOfPair(s, d, dashboard, chart, []);
    ClosureOfLeaf(s, d, settings);
    ExpandTwo(ns, s, d, main, dashboard, [dashboard, chart], settings, [settings]);
  }

  /** Lines 58-117: the main chunk, then one async chunk per dynamic import
      of app, in edge order. */
  lemma LazyPreChunks(app: string, nav: string, dashboard: string, chart: string, settings: string)
    requires Distinct5(app, nav, dashboard, chart, settings)
    ensures var ns, es := LazyNodesOf(app, nav, dashboard, chart, settings), LazyEdgesOf(app, nav, dashboard, chart, settings);
            PreChunks(ns, es, app)
            == [Chunk(0, Main, [app, nav], ChunkColor(0), EntryPoint),
                Chunk(1, Async, [dashboard, chart], ChunkColor(1), LazyTarget("Dashboard.tsx")),
                Chunk(2, Async, [settings], ChunkColor(2), LazyTarget("Settings.tsx"))]
  {
    var ns, es := LazyNodesOf(app, nav, dashboard, chart, settings), LazyEdgesOf(app, nav, dashboard, chart, settings);
    LazyAdjacency(app, nav, dashboard, chart, settings);
    LazyNames(app, nav, dashboard, chart, settings);
    TwoRoutes(ns, es, app, nav, dashboard, chart, settings);
  }

  /** The three chunks collected from the lazy-routes graph are disjoint and
      together hold every module. */
  lemma LazyDisjoint(app: string, nav: string, dashboard: string, chart: string, settings: string)
    requires Distinct5(app, nav, dashboard, chart, settings)
    ensures var pre := [Chunk(0, Main, [app, nav], ChunkColor(0), EntryPoint),
                        Chunk(1, Async, [dashboard, chart], ChunkColor(1), LazyTarget("Dashboard.tsx")),
                        Chunk(2, Async, [settings], ChunkColor(2), LazyTarget("Settings.tsx"))];
            var ns := LazyNodesOf(app, nav, dashboard, chart, settings);
            && (forall i :: 0 <= i < |pre| ==> NoDup(pre[i].modules))
            && (forall i, j, m :: 0 <= i < j < |pre| && m in pre[i].modules ==> m !in pre[j].modules)
            && (forall i :: 0 <= i < |ns| ==> ns[i].id in AllModules(pre))
  {
    var pre := [Chunk(0, Main, [app, nav], ChunkColor(0), EntryPoint),
                Chunk(1, Async, [dashboard, chart], ChunkColor(1), LazyTarget("Dashboard.tsx")),
                Chunk(2, Async, [settings], ChunkColor(2), LazyTarget("Settings.tsx"))];
    var ns := LazyNodesOf(app, nav, dashboard, chart, settings);
    forall i | 0 <= i < |pre| ensures NoDup(pre[i].modules) {
      if i == 0 { NoDup2(app, nav); } else if i == 1 { NoDup2(dashboard, chart); }
    }
    forall i, j, m | 0 <= i < j < |pre| && m in pre[i].modules ensures m !in pre[j].modules {
      if i == 0 {
        assert m == app || m == nav;
      } else {
        assert m == dashboard || m == chart;
      }
    }
    forall i | 0 <= i < |ns| ensures ns[i].id in AllModules(pre) {
      if i == 0 { InAllModules(pre, 0, app); }
      else if i == 1 { InAllModules(pre, 0, nav); }
      else if i == 2 { InAllModules(pre, 1, dashboard); }
      else if i == 3 { InAllModules(pre, 1, chart); }
      else { InAllModules(pre, 2, settings); }
    }
  }

  /** Lines 120-156: no module lies in two chunks, so there is no shared
      chunk; every module is reached. */
  lemma LazyBundleOf(app: string, nav: string, dashboard: string, chart: string, settings: string)
    requires Distinct5(app, nav, dashboard, chart, settings)
    ensures var ns, es := LazyNodesOf(app, nav, dashboard, chart, settings), LazyEdgesOf(app, nav, dashboard, chart, settings);
            Bundle(ns, es)
            == BundleResult([Chunk(0, Main, [app, nav], ChunkColor(0), EntryPoint),
                             Chunk(1, Async, [dashboard, chart], ChunkColor(1), LazyTarget("Dashboard.tsx")),
                             Chunk(2, Async, [settings], ChunkColor(2), LazyTarget("Settings.tsx"))],
                            [])
  {
    var ns, es := LazyNodesOf(app, nav, dashboard, chart, settings), LazyEdgesOf(app, nav, dashboard, chart, settings);
    var pre := [Chunk(0, Main, [app, nav], ChunkColor(0), EntryPoint),
                Chunk(1, Async, [dashboard, chart], ChunkColor(1), LazyTarget("Dashboard.tsx")),
                Chunk(2, Async, [settings], ChunkColor(2), LazyTarget("Settings.tsx"))];
    LazyPreChunks(app, nav, dashboard, chart, settings);
    BundleFromPre(ns, es, pre);
    LazyDisjoint(app, nav, dashboard, chart, settings);
    ExtractNone(ns, pre);
    NonEmptyThree(pre);
    NoneUnreachable(ns, AllModules(pre));
  }

  function LazyNodes(): seq<ModuleNode>
  {
    LazyNodesOf("app", "nav", "dashboard", "chart", "settings")
  }

  function LazyEdges(): seq<ImportEdge>
  {
    LazyEdgesOf("app", "nav", "dashboard", "chart", "settings")
  }

  /** The "Lazy-Loaded Routes" example bundles into main {app, nav} and one
      async chunk per lazy route, {dashboard, chart} and {settings}, with no
      shared chunk and nothing unreachable. */
  lemma LazyBundle()
    ensures Bundle(LazyNodes(), LazyEdges())
            == BundleResult([Chunk(0, Main, ["app", "nav"], ChunkColor(0), EntryPoint),
                             Chunk(1, Async, ["dashboard", "chart"], ChunkColor(1), LazyTarget("Dashboard.tsx")),
                             Chunk(2, Async, ["settings"], ChunkColor(2), LazyTarget("Settings.tsx"))],
                            [])
  {
    LazyBundleOf("app", "nav", "dashboard", "chart", "settings");
  }

  // ---------------------------------------------------------------------------
  // "Shared Vendor Code" (examples.ts lines 135-209)

  function VendorNodesOf(app: string, home: string, profile: string, utils: string, api: string): seq<ModuleNode>
  {
    [Module(app, "App.tsx", true), Module(home, "Home.tsx", false), Module(profile, "Profile.tsx", false),
     Module(utils, "utils.ts", false), Module(api, "api.ts", false)]
  }

  function VendorEdgesOf(app: string, home: string, profile: string, utils: string, api: string): seq<ImportEdge>
  {
    [Import("app-home", app, home, Static), Import("app-profile", app, profile, Dynamic),
     Import("home-utils", home, utils, Static), Import("profile-utils", profile, utils, Static),
     Import("profile-api", profile, api, Static)]
  }

  /** The static lists (line 22) and dynamic lists (line 24) of the graph. */
  lemma VendorAdjacency(app: string, home: string, profile: string, utils: string, api: string)
    requires Distinct5(app, home, profile, utils, api)
    ensures var ns, es := VendorNodesOf(app, home, profile, utils, api), VendorEdgesOf(app, home, profile, utils, api);
            var s, d := Adjacency(ns, es, StaticOnly), Adjacency(ns, es, DynamicOnly);
            && Succ(s, app) == [home] && Succ(s, home) == [utils] && Succ(s, profile) == [utils, api]
            && Succ(s, utils) == [] && Succ(s, api) == []
            && Succ(d, app) == [profile] && Succ(d, home) == [] && Succ(d, profile) == []
            && Succ(d, utils) == [] && Succ(d, api) == []
  {
    VendorStatic(app, home, profile, utils, api);
    VendorDynamic(app, home, profile, utils, api);
  }

  lemma VendorStatic(app: string, home: string, profile: string, utils: string, api: string)
    requires Distinct5(app, home, profile, utils, api)
    ensures var s := Adjacency(VendorNodesOf(app, home, profile, utils, api), VendorEdgesOf(app, home, profile, utils, api), StaticOnly);
            && Succ(s, app) == [home] && Succ(s, home) == [utils] && Succ(s, profile) == [utils, api]
            && Succ(s, utils) == [] && Succ(s, api) == []
  {
    var ns, es := VendorNodesOf(app, home, profile, utils, api), VendorEdgesOf(app, home, profile, utils, api);
    SuccOf(ns, es, StaticOnly, 0, [home]);
    SuccOf(ns, es, StaticOnly, 1, [utils]);
    SuccOf(ns, es, StaticOnly, 2, [utils, api]);
    SuccOf(ns, es, StaticOnly, 3, []);
    SuccOf(ns, es, StaticOnly, 4, []);
  }

  lemma VendorDynamic(app: string, home: string, profile: string, utils: string, api: string)
    requires Distinct5(app, home, profile, utils, api)
    ensures var d := Adjacency(VendorNodesOf(app, home, profile, utils, api), VendorEdgesOf(app, home, profile, utils, api), DynamicOnly);
            && Succ(d, app) == [profile] && Succ(d, home) == [] && Succ(d, profile) == []
            && Succ(d, utils) == [] && Succ(d, api) == []
  {
    var ns, es := VendorNodesOf(app, home, profile, utils, api), VendorEdgesOf(app, home, profile, utils, api);
    SuccOf(ns, es, DynamicOnly, 0, [profile]);
    SuccOf(ns, es, DynamicOnly, 1, []);
    SuccOf(ns, es, DynamicOnly, 2, []);
    SuccOf(ns, es, DynamicOnly, 3, []);
    SuccOf(ns, es, DynamicOnly, 4, []);
  }

  /** Lines 33-56 from the entry: app, then home, then utils; profile is the
      one dynamic boundary. */
  lemma VendorMainClosure(s: Adj, d: Adj, app: string, home: string, profile: string, utils: string)
    requires app != home && app != utils && home != utils
    requires Succ(s, app) == [home] && Succ(s, home) == [utils] && Succ(s, utils) == []
    requires Succ(d, app) == [profile] && Succ(d, home) == [] && Succ(d, utils) == []
    ensures Closure(s, d, app) == Collected([app, home, utils], [profile])
  {
    var u := AdjTargets(s) + {app};
    UnvisitedOne(home, {app});
    WalkVisit(s, d, u, [app], {}, Collected([], []), [home], {app}, Collected([app], [profile]));
    UnvisitedOne(utils, {app, home});
    WalkVisit(s, d, u, [home], {app}, Collected([app], [profile]), [utils], {app, home}, Collected([app, home], [profile]));
    WalkVisit(s, d, u, [utils], {app, home}, Collected([app, home], [profile]), [], {app, home, utils},
              Collected([app, home, utils], [profile]));
  }

  /** Lines 33-56 from profile: profile, then api (the last one pushed is
      popped first), then utils; no dynamic boundary. */
  lemma VendorProfileClosure(s: Adj, d: Adj, profile: string, utils: string, api: string)
    requires profile != utils && profile != api && utils != api
    requires Succ(s, profile) == [utils, api] && Succ(s, utils) == [] && Succ(s, api) == []
    requires Succ(d, profile) == [] && Succ(d, utils) == [] && Succ(d, api) == []
    ensures Closure(s, d, profile) == Collected([profile, api, utils], [])
  {
    var u := AdjTargets(s) + {profile};
    UnvisitedPair(utils, api, {profile});
    WalkVisit(s, d, u, [profile], {}, Collected([], []), [utils, api], {profile}, Collected([profile], []));
    WalkVisit(s, d, u, [utils, api], {profile}, Collected([profile], []), [utils], {profile, api}, Collected([profile, api], []));
    WalkVisit(s, d, u, [utils], {profile, api}, Collected([profile, api], []), [], {profile, api, utils},
              Collected([profile, api, utils], []));
  }

  /** Lines 87-117 on a queue holding one new target whose closure has no
      dynamic boundary: one more async chunk, and the queue runs dry. */
  lemma ExpandLast(ns: seq<ModuleNode>, s: Adj, d: Adj, p: PendingImport, processed: set<string>,
                   chunks: seq<Chunk>, modules: seq<string>)
    requires p.targetId in AdjTargets(d) && p.targetId !in processed
    requires Closure(s, d, p.targetId) == Collected(modules, [])
    ensures Expand(ns, s, d, [p], processed, chunks)
         == chunks + [Chunk(|chunks|, Async, modules, ChunkColor(|chunks|), LazyTarget(DisplayName(ns, p.targetId)))]
  {
    ExpandNew(ns, s, d, [p], processed, chunks);
    assert [p][1..] + Enqueue([], |chunks|) == [];
  }

  /** Lines 87-117 on a queue of two targets, the first one new with no
      dynamic boundary below it: the first gets the next async chunk. */
  lemma ExpandFirst(ns: seq<ModuleNode>, s: Adj, d: Adj, p: PendingImport, q: PendingImport,
                    chunks: seq<Chunk>, modules: seq<string>)
    requires p.targetId in AdjTargets(d) && q.targetId in AdjTargets(d)
    requires Closure(s, d, p.targetId) == Collected(modules, [])
    ensures Expand(ns, s, d, [p, q], {}, chunks)
         == Expand(ns, s, d, [q], {} + {p.targetId},
                   chunks + [Chunk(|chunks|, Async, modules, ChunkColor(|chunks|), LazyTarget(DisplayName(ns, p.targetId)))])
  {
    ExpandNew(ns, s, d, [p, q], {}, chunks);
    assert [p, q][1..] + Enqueue([], |chunks|) == [q];
  }

  /** The same with the main chunk alone before it: async chunk 1. */
  lemma ExpandOne(ns: seq<ModuleNode>, s: Adj, d: Adj, main: Chunk, t: string, modules: seq<string>)
    requires t in AdjTargets(d)
    requires Closure(s, d, t) == Collected(modules, [])
    ensures Expand(ns, s, d, [PendingImport(t, 0)], {}, [main])
         == [main, Chunk(1, Async, modules, ChunkColor(1), LazyTarget(DisplayName(ns, t)))]
  {
    ExpandLast(ns, s, d, PendingImport(t, 0), {}, [main], modules);
  }

  /** The display name of module `i` of a graph of distinct ids. */
  lemma NameOf(ns: seq<ModuleNode>, i: nat)
    requires i < |ns| && forall j :: 0 <= j < i ==> ns[j].id != ns[i].id
    ensures DisplayName(ns, ns[i].id) == ns[i].filename
  {
    assert ns[i] in ns;
    var r := FindNode(ns, ns[i].id);
    var k :| 0 <= k < |ns| && ns[k] == r.value && forall j :: 0 <= j < k ==> ns[j].id != ns[i].id;
    assert k == i by {
      assert !(i < k);
    }
  }

  /** The file names the chunk reasons of the vendor graph show. */
  lemma VendorNames(app: string, home: string, profile: string, utils: string, api: string)
    requires Distinct5(app, home, profile, utils, api)
    ensures var ns := VendorNodesOf(app, home, profile, utils, api);
            DisplayName(ns, profile) == "Profile.tsx" && DisplayName(ns, utils) == "utils.ts"
  {
    var ns := VendorNodesOf(app, home, profile, utils, api);
    NameOf(ns, 2);
    NameOf(ns, 3);
  }

  /** Lines 58-117: the main chunk and one async chunk for profile. */
  lemma VendorPreChunks(app: string, home: string, profile: string, utils: string, api: string)
    requires Distinct5(app, home, profile, utils, api)
    ensures var ns, es := VendorNodesOf(app, home, profile, utils, api), VendorEdgesOf(app, home, profile, utils, api);
            PreChunks(ns, es, app)
            == [Chunk(0, Main, [app, home, utils], ChunkColor(0), EntryPoint),
                Chunk(1, Async, [profile, api, utils], ChunkColor(1), LazyTarget("Profile.tsx"))]
  {
    var ns, es := VendorNodesOf(app, home, profile, utils, api), VendorEdgesOf(app, home, profile, utils, api);
    var s, d := Adjacency(ns, es, StaticOnly), Adjacency(ns, es, DynamicOnly);
    VendorAdjacency(app, home, profile, utils, api);
    VendorMainClosure(s, d, app, home, profile, utils);
    VendorProfileClosure(s, d, profile, utils, api);
    PreChunksUnfold(ns, es, app);
    assert Enqueue([profile], 0) == [PendingImport(profile, 0)];
    SuccInAdjTargets(d, app);
    VendorNames(app, home, profile, utils, api);
    ExpandOne(ns, s, d, Chunk(0, Main, [app, home, utils], ChunkColor(0), EntryPoint), profile, [profile, api, utils]);
  }

  // ---------------------------------------------------------------------------
  // Lines 120-156 on two or three chunks

  /** Lines 120-125 on two chunks that share exactly one module `u`: the
      shared list is `[u]`. */
  lemma SharedPair(c0: Chunk, c1: Chunk, u: string)
    requires NoDup(c0.modules) && NoDup(c1.modules)
    requires forall m :: m in c0.modules && m in c1.modules <==> m == u
    ensures var index := IndexOf([c0, c1]);
            SharedOf(index.chunksOf, index.order) == [u]
  {
    var pre := [c0, c1];
    SharedIff(pre);
    var index := IndexOf(pre);
    var shared := SharedOf(index.chunksOf, index.order);
    forall m ensures m in shared <==> m == u {
      if m in c0.modules && m in c1.modules {
        assert m in pre[0].modules && m in pre[1].modules;
      }
    }
    OnlyMember(shared, u);
  }

  /** Lines 120-149 on two chunks that share exactly one module `u`: `u`
      moves to a shared chunk with id 2 and leaves both. */
  lemma ExtractPair(ns: seq<ModuleNode>, c0: Chunk, c1: Chunk, u: string)
    requires c0.kind != Shared && c1.kind != Shared
    requires NoDup(c0.modules) && NoDup(c1.modules)
    requires forall m :: m in c0.modules && m in c1.modules <==> m == u
    ensures Extract(ns, [c0, c1])
         == [c0.(modules := Without(c0.modules, [u])), c1.(modules := Without(c1.modules, [u])),
             Chunk(2, Shared, [u], ChunkColor(2), SharedModules([DisplayName(ns, u)]))]
  {
    SharedPair(c0, c1, u);
    assert DisplayNames(ns, [u]) == [DisplayName(ns, u)] by {
      assert [u][..0] == [];
    }
    var sharedChunk := Chunk(2, Shared, [u], ChunkColor(2), SharedModules([DisplayName(ns, u)]));
    StripPair(c0, c1, sharedChunk, [u]);
    assert Extract(ns, [c0, c1]) == StripShared([c0, c1] + [sharedChunk], [u]);
  }

  /** Lines 144-148 on two chunks and a shared one. */
  lemma StripPair(c0: Chunk, c1: Chunk, sharedChunk: Chunk, shared: seq<string>)
    requires c0.kind != Shared && c1.kind != Shared && sharedChunk.kind == Shared
    ensures StripShared([c0, c1] + [sharedChunk], shared)
         == [c0.(modules := Without(c0.modules, shared)), c1.(modules := Without(c1.modules, shared)), sharedChunk]
  {
    var x := StripShared([c0, c1] + [sharedChunk], shared);
    assert ([c0, c1] + [sharedChunk])[0] == c0 && ([c0, c1] + [sharedChunk])[1] == c1;
    assert x[2] == sharedChunk;
  }

  /** Lines 120-149 on chunks that share no module: nothing changes. */
  lemma ExtractNone(ns: seq<ModuleNode>, chunks: seq<Chunk>)
    requires forall i :: 0 <= i < |chunks| ==> NoDup(chunks[i].modules)
    requires forall i, j, m :: 0 <= i < j < |chunks| && m in chunks[i].modules ==> m !in chunks[j].modules
    ensures Extract(ns, chunks) == chunks
  {
    SharedIff(chunks);
    var index := IndexOf(chunks);
    EmptyIfNoMembers(SharedOf(index.chunksOf, index.order));
  }

  /** `Without(s, [c])` on three members, the last being `c`. */
  lemma DropLast(a: string, b: string, c: string)
    requires a != c && b != c
    ensures Without([a, b, c], [c]) == [a, b]
  {
    assert [a][..0] == [];
    assert Without([a], [c]) == [a];
    assert [a, b][..1] == [a];
    assert Without([a, b], [c]) == [a, b];
    assert [a, b, c][..2] == [a, b];
  }

  /** Line 156 on three chunks, none of them empty. */
  lemma NonEmptyThree(x: seq<Chunk>)
    requires |x| == 3 && |x[0].modules| > 0 && |x[1].modules| > 0 && |x[2].modules| > 0
    ensures NonEmpty(x) == x
  {
    assert x[..1][..0] == [];
    assert NonEmpty(x[..1]) == x[..1];
    assert x[..2][..1] == x[..1];
    assert NonEmpty(x[..2]) == x[..2];
    assert x[..2] == x[..|x| - 1];
    assert x == x[..2] + [x[2]];
  }

  /** Lines 152-154 when every node was visited. */
  lemma NoneUnreachable(ns: seq<ModuleNode>, visited: set<string>)
    requires forall i :: 0 <= i < |ns| ==> ns[i].id in visited
    ensures Unreachable(ns, visited) == []
  {
    forall id | id in IdSet(ns) ensures id in visited {
      var n :| n in ns && n.id == id;
      var i :| 0 <= i < |ns| && ns[i] == n;
    }
    EmptyIfNoMembers(Unreachable(ns, visited));
  }

  /** Line 5-8 and 150-156 around the chunks collected from the entry. */
  lemma BundleFromPre(ns: seq<ModuleNode>, es: seq<ImportEdge>, pre: seq<Chunk>)
    requires |ns| > 0 && ns[0].isEntry && PreChunks(ns, es, ns[0].id) == pre
    ensures Bundle(ns, es) == BundleResult(NonEmpty(Extract(ns, pre)), Unreachable(ns, AllModules(pre)))
  {
  }

  /** A module of one of the chunks is among all their modules. */
  lemma InAllModules(chunks: seq<Chunk>, k: nat, m: string)
    requires k < |chunks| && m in chunks[k].modules
    ensures m in AllModules(chunks)
  {
    assert chunks[k] in chunks;
  }

  /** Two distinct members form a duplicate-free list. */
  lemma NoDup2(a: string, b: string)
    requires a != b
    ensures NoDup([a, b])
  {
  }

  /** Three distinct members form a duplicate-free list. */
  lemma NoDup3(a: string, b: string, c: string)
    requires a != b && a != c && b != c
    ensures NoDup([a, b, c])
  {
  }

  /** The two chunks collected from the vendor graph share utils only, and
      together hold every module. */
  lemma VendorOverlap(app: string, home: string, profile: string, utils: string, api: string)
    requires Distinct5(app, home, profile, utils, api)
    ensures var c0 := Chunk(0, Main, [app, home, utils], ChunkColor(0), EntryPoint);
            var c1 := Chunk(1, Async, [profile, api, utils], ChunkColor(1), LazyTarget("Profile.tsx"));
            var ns := VendorNodesOf(app, home, profile, utils, api);
            && NoDup(c0.modules) && NoDup(c1.modules)
            && (forall m :: m in c0.modules && m in c1.modules <==> m == utils)
            && (forall i :: 0 <= i < |ns| ==> ns[i].id in AllModules([c0, c1]))
  {
    var c0 := Chunk(0, Main, [app, home, utils], ChunkColor(0), EntryPoint);
    var c1 := Chunk(1, Async, [profile, api, utils], ChunkColor(1), LazyTarget("Profile.tsx"));
    var ns := VendorNodesOf(app, home, profile, utils, api);
    NoDup3(app, home, utils);
    NoDup3(profile, api, utils);
    forall i | 0 <= i < |ns| ensures ns[i].id in AllModules([c0, c1]) {
      if i == 0 { InAllModules([c0, c1], 0, app); }
      else if i == 1 { InAllModules([c0, c1], 0, home); }
      else if i == 2 { InAllModules([c0, c1], 1, profile); }
      else if i == 3 { InAllModules([c0, c1], 0, utils); }
      else { InAllModules([c0, c1], 1, api); }
    }
  }

  /** Lines 120-156: utils lies in both chunks and moves to a shared chunk
      with id 2; every module is reached. */
  lemma VendorBundleOf(app: string, home: string, profile: string, utils: string, api: string)
    requires Distinct5(app, home, profile, utils, api)
    ensures var ns, es := VendorNodesOf(app, home, profile, utils, api), VendorEdgesOf(app, home, profile, utils, api);
            Bundle(ns, es)
            == BundleResult([Chunk(0, Main, [app, home], ChunkColor(0), EntryPoint),
                             Chunk(1, Async, [profile, api], ChunkColor(1), LazyTarget("Profile.tsx")),
                             Chunk(2, Shared, [utils], ChunkColor(2), SharedModules(["utils.ts"]))],
                            [])
  {
    var ns, es := VendorNodesOf(app, home, profile, utils, api), VendorEdgesOf(app, home, profile, utils, api);
    var c0 := Chunk(0, Main, [app, home, utils], ChunkColor(0), EntryPoint);
    var c1 := Chunk(1, Async, [profile, api, utils], ChunkColor(1), LazyTarget("Profile.tsx"));
    VendorPreChunks(app, home, profile, utils, api);
    VendorNames(app, home, profile, utils, api);
    BundleFromPre(ns, es, [c0, c1]);
    VendorOverlap(app, home, profile, utils, api);
    DropLast(app, home, utils);
    DropLast(profile, api, utils);
    ExtractPair(ns, c0, c1, utils);
    NonEmptyThree(Extract(ns, [c0, c1]));
    NoneUnreachable(ns, AllModules([c0, c1]));
  }

  function VendorNodes(): seq<ModuleNode>
  {
    VendorNodesOf("app", "home", "profile", "utils", "api")
  }

  function VendorEdges(): seq<ImportEdge>
  {
    VendorEdgesOf("app", "home", "profile", "utils", "api")
  }

  /** The "Shared Vendor Code" example bundles into main {app, home}, async
      {profile, api} and shared {utils} with id 2, and leaves nothing
      unreachable. */
  lemma VendorBundle()
    ensures Bundle(VendorNodes(), VendorEdges())
            == BundleResult([Chunk(0, Main, ["app", "home"], ChunkColor(0), EntryPoint),
                             Chunk(1, Async, ["profile", "api"], ChunkColor(1), LazyTarget("Profile.tsx")),
                             Chunk(2, Shared, ["utils"], ChunkColor(2), SharedModules(["utils.ts"]))],
                            [])
  {
    VendorBundleOf("app", "home", "profile", "utils", "api");
  }

  // ---------------------------------------------------------------------------
  // Loading an example (useGraphStore.ts lines 153-166)

  /** Every generated id starts with 'm' and no example id does, so loading
      either example leaves the module counter ahead of the ids. */
  lemma ExamplesKeepCounterAhead()
    ensures StoreSpec.CounterAhead(LazyNodes(), |LazyNodes()|)
    ensures StoreSpec.CounterAhead(VendorNodes(), |VendorNodes()|)
  {
    forall k: nat
      ensures StoreSpec.ModuleId(k) !in IdSet(LazyNodes())
      ensures StoreSpec.ModuleId(k) !in IdSet(VendorNodes())
    {
      var id := StoreSpec.ModuleId(k);
      assert id[0] == 'm';
      assert forall n :: n in LazyNodes() ==> n.id[0] != 'm';
      assert forall n :: n in VendorNodes() ==> n.id[0] != 'm';
    }
  }
}
