/** `collectStaticReachable` (bundler.ts lines 32-56): a depth-first walk over
    static edges from one start module, with an explicit stack and a visited
    set, that also collects the dynamic-import targets of every module it
    visits. */
module StaticClosure {
  import opened GraphTypes
  import opened Collections
  import opened ImportGraph

  /** The walk's result: modules in visit order and the dynamic boundary. */
  datatype Collected = Collected(modules: seq<string>, dynamicTargets: seq<string>)

  /** The members of `ts` not in `visited`, order and repetitions kept: what
      the inner loop pushes on the stack. */
  function Unvisited(ts: seq<string>, visited: set<string>): (r: seq<string>)
    ensures forall t :: t in r <==> t in ts && t !in visited
  {
    if ts == [] then []
    else Unvisited(ts[..|ts| - 1], visited) + (if ts[|ts| - 1] in visited then [] else [ts[|ts| - 1]])
  }

  /** The dynamic lists of `ms`, concatenated in the order of `ms`. */
  function DynamicOf(dynamicAdj: Adj, ms: seq<string>): seq<string>
  {
    if ms == [] then [] else DynamicOf(dynamicAdj, ms[..|ms| - 1]) + Succ(dynamicAdj, ms[|ms| - 1])
  }

  /** The loop of lines 38-53 from a given stack, visited set and partial
      result. It pops from the end of the stack and pushes the unvisited
      static successors in list order. `universe` bounds every id the walk can
      meet, which makes the walk terminate. */
  function Walk(staticAdj: Adj, dynamicAdj: Adj, universe: set<string>,
                stack: seq<string>, visited: set<string>, acc: Collected): (r: Collected)
    requires forall t :: t in stack ==> t in universe
    requires AdjTargets(staticAdj) <= universe
    ensures acc.modules <= r.modules
    ensures acc.dynamicTargets <= r.dynamicTargets
    ensures forall t :: t in r.dynamicTargets ==> t in acc.dynamicTargets || t in AdjTargets(dynamicAdj)
    decreases |universe - visited|, |stack|
  {
    if stack == [] then acc
    else
      var current := stack[|stack| - 1];
      var rest := stack[..|stack| - 1];
      if current in visited then Walk(staticAdj, dynamicAdj, universe, rest, visited, acc)
      else
        var visited' := visited + {current};
        SuccInAdjTargets(staticAdj, current);
        SuccInAdjTargets(dynamicAdj, current);
        Shrink(universe, visited, current);
        Walk(staticAdj, dynamicAdj, universe,
             rest + Unvisited(Succ(staticAdj, current), visited'), visited',
             Collected(acc.modules + [current], acc.dynamicTargets + Succ(dynamicAdj, current)))
  }

  /** The targets of the dynamic edges leaving the modules of `ms`. */
  function Boundary(dynamicAdj: Adj, ms: seq<string>): set<string>
  {
    set m, t | m in ms && t in Succ(dynamicAdj, m) :: t
  }

  /** The concatenated dynamic lists hold exactly the boundary. */
  lemma {:induction false} DynamicOfIsBoundary(dynamicAdj: Adj, ms: seq<string>)
    ensures forall t :: t in DynamicOf(dynamicAdj, ms) <==> t in Boundary(dynamicAdj, ms)
  {
    if ms != [] {
      var init := ms[..|ms| - 1];
      DynamicOfIsBoundary(dynamicAdj, init);
      assert forall m :: m in ms <==> m in init || m == ms[|ms| - 1] by {
        assert ms == init + [ms[|ms| - 1]];
      }
    }
  }

  /** `collectStaticReachable(startId, new Set())`. */
  function Closure(staticAdj: Adj, dynamicAdj: Adj, start: string): (r: Collected)
    ensures forall t :: t in r.dynamicTargets ==> t in AdjTargets(dynamicAdj)
  {
    Walk(staticAdj, dynamicAdj, AdjTargets(staticAdj) + {start}, [start], {}, Collected([], []))
  }

  /** `p` follows static edges from `p[0]` to its last element. */
  ghost predicate IsPath(staticAdj: Adj, p: seq<string>)
  {
    |p| > 0 && forall i :: 0 < i < |p| ==> p[i] in Succ(staticAdj, p[i - 1])
  }

  ghost predicate Reachable(staticAdj: Adj, from: string, to: string)
  {
    exists p :: IsPath(staticAdj, p) && p[0] == from && p[|p| - 1] == to
  }

  lemma ReachableStep(staticAdj: Adj, from: string, mid: string, to: string)
    requires Reachable(staticAdj, from, mid) && to in Succ(staticAdj, mid)
    ensures Reachable(staticAdj, from, to)
  {
    var p :| IsPath(staticAdj, p) && p[0] == from && p[|p| - 1] == mid;
    assert IsPath(staticAdj, p + [to]);
  }

  /** No module of `s` has a static successor outside `s`. */
  ghost predicate ClosedUnderStatic(staticAdj: Adj, s: seq<string>)
  {
    forall m, t :: m in s && t in Succ(staticAdj, m) ==> t in s
  }

  /** The walk never visits a module twice. */
  lemma {:induction false} WalkNoDup(staticAdj: Adj, dynamicAdj: Adj, universe: set<string>,
                                     stack: seq<string>, visited: set<string>, acc: Collected)
    requires forall t :: t in stack ==> t in universe
    requires AdjTargets(staticAdj) <= universe
    requires visited == Elems(acc.modules) && NoDup(acc.modules)
    ensures NoDup(Walk(staticAdj, dynamicAdj, universe, stack, visited, acc).modules)
    decreases |universe - visited|, |stack|
  {
    if stack != [] {
      var current := stack[|stack| - 1];
      var rest := stack[..|stack| - 1];
      if current in visited {
        WalkNoDup(staticAdj, dynamicAdj, universe, rest, visited, acc);
      } else {
        var visited' := visited + {current};
        SuccInAdjTargets(staticAdj, current);
        Shrink(universe, visited, current);
        var ms := acc.modules + [current];
        ElemsSnoc(acc.modules, current);
        NoDupSnoc(acc.modules, current);
        WalkNoDup(staticAdj, dynamicAdj, universe, rest + Unvisited(Succ(staticAdj, current), visited'), visited',
                  Collected(ms, acc.dynamicTargets + Succ(dynamicAdj, current)));
      }
    }
  }

  /** The dynamic boundary is the dynamic lists of the visited modules, in
      visit order. */
  lemma {:induction false} WalkDynamic(staticAdj: Adj, dynamicAdj: Adj, universe: set<string>,
                                       stack: seq<string>, visited: set<string>, acc: Collected)
    requires forall t :: t in stack ==> t in universe
    requires AdjTargets(staticAdj) <= universe
    requires acc.dynamicTargets == DynamicOf(dynamicAdj, acc.modules)
    ensures var r := Walk(staticAdj, dynamicAdj, universe, stack, visited, acc);
            r.dynamicTargets == DynamicOf(dynamicAdj, r.modules)
    decreases |universe - visited|, |stack|
  {
    if stack != [] {
      var current := stack[|stack| - 1];
      var rest := stack[..|stack| - 1];
      if current in visited {
        WalkDynamic(staticAdj, dynamicAdj, universe, rest, visited, acc);
      } else {
        var visited' := visited + {current};
        SuccInAdjTargets(staticAdj, current);
        Shrink(universe, visited, current);
        var ms := acc.modules + [current];
        assert ms[..|ms| - 1] == acc.modules;
        WalkDynamic(staticAdj, dynamicAdj, universe, rest + Unvisited(Succ(staticAdj, current), visited'), visited',
                    Collected(ms, acc.dynamicTargets + Succ(dynamicAdj, current)));
      }
    }
  }

  /** Every static successor of a visited module is visited or still on the
      stack; once the stack is empty the result is closed. */
  lemma {:induction false} WalkClosed(staticAdj: Adj, dynamicAdj: Adj, universe: set<string>,
                                      stack: seq<string>, visited: set<string>, acc: Collected)
    requires forall t :: t in stack ==> t in universe
    requires AdjTargets(staticAdj) <= universe
    requires visited == Elems(acc.modules)
    requires forall m, t :: m in visited && t in Succ(staticAdj, m) ==> t in visited || t in stack
    ensures ClosedUnderStatic(staticAdj, Walk(staticAdj, dynamicAdj, universe, stack, visited, acc).modules)
    decreases |universe - visited|, |stack|
  {
    if stack == [] {
      assert forall m :: m in acc.modules <==> m in visited;
    } else {
      var current := stack[|stack| - 1];
      var rest := stack[..|stack| - 1];
      assert forall t :: t in stack <==> t in rest || t == current;
      if current in visited {
        WalkClosed(staticAdj, dynamicAdj, universe, rest, visited, acc);
      } else {
        var visited' := visited + {current};
        SuccInAdjTargets(staticAdj, current);
        Shrink(universe, visited, current);
        var ms := acc.modules + [current];
        var stack' := rest + Unvisited(Succ(staticAdj, current), visited');
        ElemsSnoc(acc.modules, current);
        forall m, t | m in visited' && t in Succ(staticAdj, m)
          ensures t in visited' || t in stack'
        {
          if m != current && t !in visited' {
            assert t in rest;
          }
        }
        WalkClosed(staticAdj, dynamicAdj, universe, stack', visited',
                   Collected(ms, acc.dynamicTargets + Succ(dynamicAdj, current)));
      }
    }
  }

  /** Everything the walk visits is statically reachable from `start`, when
      everything visited or stacked so far is. */
  lemma {:induction false} WalkSound(staticAdj: Adj, dynamicAdj: Adj, universe: set<string>,
                                     stack: seq<string>, visited: set<string>, acc: Collected, start: string)
    requires forall t :: t in stack ==> t in universe
    requires AdjTargets(staticAdj) <= universe
    requires visited == Elems(acc.modules)
    requires forall m :: m in visited ==> Reachable(staticAdj, start, m)
    requires forall t :: t in stack ==> Reachable(staticAdj, start, t)
    ensures forall m :: m in Walk(staticAdj, dynamicAdj, universe, stack, visited, acc).modules ==> Reachable(staticAdj, start, m)
    decreases |universe - visited|, |stack|
  {
    if stack == [] {
      assert forall m :: m in acc.modules <==> m in visited;
    } else {
      var current := stack[|stack| - 1];
      var rest := stack[..|stack| - 1];
      assert forall t :: t in rest ==> t in stack;
      if current in visited {
        WalkSound(staticAdj, dynamicAdj, universe, rest, visited, acc, start);
      } else {
        var visited' := visited + {current};
        SuccInAdjTargets(staticAdj, current);
        Shrink(universe, visited, current);
        var ms := acc.modules + [current];
        var pushed := Unvisited(Succ(staticAdj, current), visited');
        forall t | t in pushed ensures Reachable(staticAdj, start, t) {
          ReachableStep(staticAdj, start, current, t);
        }
        ElemsSnoc(acc.modules, current);
        WalkSound(staticAdj, dynamicAdj, universe, rest + pushed, visited',
                  Collected(ms, acc.dynamicTargets + Succ(dynamicAdj, current)), start);
      }
    }
  }

  /** A set closed under static edges that holds the start of a path holds
      its end. */
  lemma {:induction false} PathStaysInClosed(staticAdj: Adj, s: seq<string>, p: seq<string>)
    requires ClosedUnderStatic(staticAdj, s)
    requires IsPath(staticAdj, p) && p[0] in s
    ensures p[|p| - 1] in s
    decreases |p|
  {
    if |p| > 1 {
      var q := p[..|p| - 1];
      assert IsPath(staticAdj, q);
      PathStaysInClosed(staticAdj, s, q);
      assert p[|p| - 1] in Succ(staticAdj, q[|q| - 1]);
    }
  }

  /** The first iteration of the walk from a fresh visited set. */
  lemma ClosureFirstStep(staticAdj: Adj, dynamicAdj: Adj, start: string)
    ensures SuccInAdjTargetsFact(staticAdj, start)
    ensures Closure(staticAdj, dynamicAdj, start)
         == Walk(staticAdj, dynamicAdj, AdjTargets(staticAdj) + {start},
                 Unvisited(Succ(staticAdj, start), {start}), {start},
                 Collected([start], Succ(dynamicAdj, start)))
  {
    var universe := AdjTargets(staticAdj) + {start};
    SuccInAdjTargets(staticAdj, start);
    var stack1 := Unvisited(Succ(staticAdj, start), {start});
    assert [start][..0] + stack1 == stack1 && {} + {start} == {start};
    assert [] + [start] == [start] && [] + Succ(dynamicAdj, start) == Succ(dynamicAdj, start);
  }

  /** Stated as a predicate so that it can guard the first step's call of `Walk`. */
  ghost predicate SuccInAdjTargetsFact(staticAdj: Adj, v: string)
  {
    forall t :: t in Succ(staticAdj, v) ==> t in AdjTargets(staticAdj)
  }

  /** The closure lists `start` first and every module once. */
  lemma ClosureStartsAndNoDup(staticAdj: Adj, dynamicAdj: Adj, start: string)
    ensures var c := Closure(staticAdj, dynamicAdj, start);
            |c.modules| > 0 && c.modules[0] == start && NoDup(c.modules)
  {
    ClosureFirstStep(staticAdj, dynamicAdj, start);
    assert Elems([start]) == {start};
    WalkNoDup(staticAdj, dynamicAdj, AdjTargets(staticAdj) + {start},
              Unvisited(Succ(staticAdj, start), {start}), {start}, Collected([start], Succ(dynamicAdj, start)));
  }

  /** The closure's dynamic boundary is the dynamic lists of its modules, in
      visit order. */
  lemma ClosureBoundary(staticAdj: Adj, dynamicAdj: Adj, start: string)
    ensures var c := Closure(staticAdj, dynamicAdj, start);
            c.dynamicTargets == DynamicOf(dynamicAdj, c.modules)
  {
    ClosureFirstStep(staticAdj, dynamicAdj, start);
    assert DynamicOf(dynamicAdj, [start]) == Succ(dynamicAdj, start) by {
      assert [start][..0] == [];
    }
    WalkDynamic(staticAdj, dynamicAdj, AdjTargets(staticAdj) + {start},
                Unvisited(Succ(staticAdj, start), {start}), {start}, Collected([start], Succ(dynamicAdj, start)));
  }

  /** The closure holds exactly the modules statically reachable from `start`. */
  lemma ClosureIsReachableSet(staticAdj: Adj, dynamicAdj: Adj, start: string)
    ensures var c := Closure(staticAdj, dynamicAdj, start);
            ClosedUnderStatic(staticAdj, c.modules)
            && forall t :: t in c.modules <==> Reachable(staticAdj, start, t)
  {
    var universe := AdjTargets(staticAdj) + {start};
    var c := Closure(staticAdj, dynamicAdj, start);
    var stack1 := Unvisited(Succ(staticAdj, start), {start});
    var acc1 := Collected([start], Succ(dynamicAdj, start));
    ClosureFirstStep(staticAdj, dynamicAdj, start);
    ClosureStartsAndNoDup(staticAdj, dynamicAdj, start);
    assert Elems([start]) == {start};
    WalkClosed(staticAdj, dynamicAdj, universe, stack1, {start}, acc1);
    assert IsPath(staticAdj, [start]);
    forall t | t in stack1 ensures Reachable(staticAdj, start, t) {
      ReachableStep(staticAdj, start, start, t);
    }
    WalkSound(staticAdj, dynamicAdj, universe, stack1, {start}, acc1, start);
    forall t | Reachable(staticAdj, start, t) ensures t in c.modules {
      var p :| IsPath(staticAdj, p) && p[0] == start && p[|p| - 1] == t;
      PathStaysInClosed(staticAdj, c.modules, p);
    }
  }

  /** One iteration of the walk's loop. */
  lemma WalkPop(staticAdj: Adj, dynamicAdj: Adj, universe: set<string>,
                stack: seq<string>, visited: set<string>, acc: Collected)
    requires forall t :: t in stack ==> t in universe
    requires AdjTargets(staticAdj) <= universe
    requires stack != []
    ensures var current, rest := stack[|stack| - 1], stack[..|stack| - 1];
            var visited' := visited + {current};
            && (forall t :: t in rest + Unvisited(Succ(staticAdj, current), visited') ==> t in universe)
            && Walk(staticAdj, dynamicAdj, universe, stack, visited, acc)
               == if current in visited then Walk(staticAdj, dynamicAdj, universe, rest, visited, acc)
                  else Walk(staticAdj, dynamicAdj, universe, rest + Unvisited(Succ(staticAdj, current), visited'), visited',
                            Collected(acc.modules + [current], acc.dynamicTargets + Succ(dynamicAdj, current)))
  {
    SuccInAdjTargets(staticAdj, stack[|stack| - 1]);
  }

  /** Lines 44-48: push every listed target not yet visited. */
  method PushUnvisited(stack: seq<string>, targets: seq<string>, visited: set<string>) returns (s: seq<string>)
    ensures s == stack + Unvisited(targets, visited)
    ensures forall t :: t in s <==> t in stack || (t in targets && t !in visited)
  {
    s := stack;
    for k := 0 to |targets|
      invariant s == stack + Unvisited(targets[..k], visited)
    {
      assert targets[..k + 1][..k] == targets[..k];
      if targets[k] !in visited {
        s := s + [targets[k]];
      }
    }
    assert targets[..|targets|] == targets;
  }

  /** bundler.ts lines 33-56, called with a fresh visited set as at both call
      sites (lines 62 and 92). */
  method CollectStaticReachable(staticAdj: Adj, dynamicAdj: Adj, startId: string) returns (r: Collected)
    ensures r == Closure(staticAdj, dynamicAdj, startId)
    ensures |r.modules| > 0 && r.modules[0] == startId && NoDup(r.modules)
    ensures r.dynamicTargets == DynamicOf(dynamicAdj, r.modules)
  {
    ghost var universe := AdjTargets(staticAdj) + {startId};
    ghost var goal := Closure(staticAdj, dynamicAdj, startId);
    var modules: seq<string> := [];
    var dynamicTargets: seq<string> := [];
    var stack := [startId];
    var visited: set<string> := {};
    while stack != []
      invariant forall t :: t in stack ==> t in universe
      invariant Walk(staticAdj, dynamicAdj, universe, stack, visited, Collected(modules, dynamicTargets)) == goal
      decreases |universe - visited|, |stack|
    {
      WalkPop(staticAdj, dynamicAdj, universe, stack, visited, Collected(modules, dynamicTargets));
      var current := stack[|stack| - 1];
      stack := stack[..|stack| - 1];
      if current in visited {
        continue;
      }
      Shrink(universe, visited, current);
      visited := visited + {current};
      modules := modules + [current];
      stack := PushUnvisited(stack, Succ(staticAdj, current), visited);
      dynamicTargets := dynamicTargets + Succ(dynamicAdj, current);
    }
    r := Collected(modules, dynamicTargets);
    assert |r.modules| > 0 && r.modules[0] == startId && NoDup(r.modules) by {
      ClosureStartsAndNoDup(staticAdj, dynamicAdj, startId);
    }
    assert r.dynamicTargets == DynamicOf(dynamicAdj, r.modules) by {
      ClosureBoundary(staticAdj, dynamicAdj, startId);
    }
  }
}
