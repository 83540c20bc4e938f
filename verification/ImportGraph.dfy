/**
 Static test selection over the import graph (scripts/select_tests.py).
 */
module ImportGraph {

  datatype Node = Node(path: string, isTest: bool)

  /** `edges` lists what each module imports, in sorted order. */
  datatype Graph = Graph(modules: map<string, Node>, edges: map<string, seq<string>>)

  function Imports(g: Graph, m: string): seq<string>
  {
    if m in g.edges then g.edges[m] else []
  }

  /** A chain of imports that leads from `start` to `goal`. */
  ghost predicate IsPath(g: Graph, c: seq<string>, start: string, goal: string)
  {
    && c != [] && c[0] == start && c[|c| - 1] == goal
    && forall i | 0 <= i < |c| - 1 :: c[i + 1] in Imports(g, c[i])
  }

  ghost predicate Reachable(g: Graph, start: string, goal: string)
  {
    exists c :: IsPath(g, c, start, goal)
  }

  ghost predicate IsShortestPath(g: Graph, c: seq<string>, start: string, goal: string)
  {
    IsPath(g, c, start, goal) && forall d | IsPath(g, d, start, goal) :: |c| <= |d|
  }

  /** The modules within n imports of `start`. */
  ghost function Ball(g: Graph, start: string, n: nat): set<string>
  {
    if n == 0 then {start}
    else Ball(g, start, n - 1) + set v, w | v in Ball(g, start, n - 1) && w in Imports(g, v) :: w
  }

  lemma {:induction false} PathEndsInBall(g: Graph, c: seq<string>, start: string, goal: string, n: nat)
    requires IsPath(g, c, start, goal) && |c| <= n + 1
    ensures goal in Ball(g, start, n)
    decreases n
  {
    if n > 0 {
      if |c| == n + 1 {
        PathEndsInBall(g, c[..n], start, c[n - 1], n - 1);
        assert c[n] in Imports(g, c[n - 1]);
      } else {
        PathEndsInBall(g, c, start, goal, n - 1);
      }
    }
  }

  ghost function Universe(g: Graph, start: string): set<string>
  {
    {start} + set m, t | m in g.edges && t in g.edges[m] :: t
  }

  /** What is left to look at from m is already seen. */
  ghost predicate Expanded(g: Graph, m: string, seen: set<string>)
  {
    forall t | t in Imports(g, m) :: t in seen
  }

  ghost predicate Queued(queue: seq<seq<string>>, upTo: nat, m: string)
  {
    exists i :: 0 <= i < upTo && i < |queue| && queue[i] != [] && queue[i][|queue[i]| - 1] == m
  }

  /** The queue: chains from `start` of level+1 modules, then of level+2. */
  ghost predicate Layered(g: Graph, start: string, queue: seq<seq<string>>, level: nat, split: nat)
  {
    && split <= |queue|
    && forall i | 0 <= i < |queue| ::
         && queue[i] != []
         && IsPath(g, queue[i], start, queue[i][|queue[i]| - 1])
         && |queue[i]| == level + if i < split then 1 else 2
  }

  /** Everything within `level` imports is seen; what is seen but not expanded is queued, and
      in the first layer if it is that close.  `busy` is the module being expanded. */
  ghost predicate Frontier(g: Graph, start: string, queue: seq<seq<string>>, seen: set<string>,
                           level: nat, split: nat, busy: set<string>)
  {
    && Ball(g, start, level) <= seen
    && (forall m | m in seen && m !in busy :: Expanded(g, m, seen) || Queued(queue, |queue|, m))
    && (forall m | m in Ball(g, start, level) && m !in busy :: Expanded(g, m, seen) || Queued(queue, split, m))
  }

  /** What holds whenever the search looks at its queue. */
  ghost predicate Searching(g: Graph, start: string, goal: string, queue: seq<seq<string>>, seen: set<string>,
                            level: nat, split: nat, busy: set<string>)
  {
    && start in seen && goal !in seen && seen <= Universe(g, start)
    && Layered(g, start, queue, level, split)
    && Frontier(g, start, queue, seen, level, split, busy)
  }

  /** The body of the search: queue every module the head of the queue imports that was not
      seen before, unless one of them is the goal. */
  method Expand(g: Graph, start: string, goal: string, head: seq<string>, seen0: set<string>, queue0: seq<seq<string>>,
                ghost level: nat, ghost split: nat)
    returns (seen: set<string>, queue: seq<seq<string>>, found: seq<string>)
    requires head != [] && IsPath(g, head, start, head[|head| - 1]) && |head| == level + 1
    requires Searching(g, start, goal, queue0, seen0, level, split, {head[|head| - 1]})
    ensures seen0 <= seen <= Universe(g, start) && (seen == seen0 ==> queue == queue0)
    ensures found != [] ==> IsShortestPath(g, found, start, goal)
    ensures found == [] ==> Searching(g, start, goal, queue, seen, level, split, {})
  {
    seen, queue, found := seen0, queue0, [];
    var current := head[|head| - 1];
    var targets := Imports(g, current);
    for i := 0 to |targets|
      invariant seen0 <= seen && (seen == seen0 ==> queue == queue0)
      invariant Searching(g, start, goal, queue, seen, level, split, {current})
      invariant forall j | 0 <= j < i :: targets[j] in seen
    {
      var target := targets[i];
      if target !in seen {
        var extended := head + [target];
        ExtendPath(g, head, start, current, target);
        if target == goal {
          NothingShorter(g, start, goal, seen, level);
          found := extended;
          return;
        }
        PushKeepsFrontier(g, start, queue, seen, level, split, current, extended);
        seen, queue := seen + {target}, queue + [extended];
      }
    }
    assert Expanded(g, current, seen);
  }

  /** Breadth-first search: a shortest import chain, or [] exactly when there is none. */
  method ShortestChain(g: Graph, start: string, goal: string) returns (chain: seq<string>)
    ensures chain == [] <==> !Reachable(g, start, goal)
    ensures chain != [] ==> IsShortestPath(g, chain, start, goal)
  {
    if start == goal {
      assert IsPath(g, [start], start, goal);
      return [start];
    }
    var seen, queue := {start}, [[start]];
    ghost var level: nat, split: nat := 0, 1;
    SearchStarts(g, start, goal);
    while queue != []
      invariant Searching(g, start, goal, queue, seen, level, split, {})
      decreases |Universe(g, start) - seen|, |queue|
    {
      var head := queue[0];
      level, split := TakeHead(g, start, goal, queue, seen, level, split);
      ghost var seenBefore := seen;
      seen, queue, chain := Expand(g, start, goal, head, seen, queue[1..], level, split);
      if chain != [] { return; }
      FewerUnseen(Universe(g, start), seenBefore, seen);
    }
    AllExpanded(g, start, goal, seen, level, split);
    chain := [];
  }

  /** The head of the queue is a chain of the current layer, or starts the next one. */
  lemma TakeHead(g: Graph, start: string, goal: string, queue: seq<seq<string>>, seen: set<string>, level: nat,
                 split: nat)
    returns (level': nat, split': nat)
    requires Searching(g, start, goal, queue, seen, level, split, {}) && queue != []
    ensures var head := queue[0];
            && head != [] && IsPath(g, head, start, head[|head| - 1]) && |head| == level' + 1
            && Searching(g, start, goal, queue[1..], seen, level', split', {head[|head| - 1]})
  {
    level', split' := level, split;
    if split == 0 {
      NextLayer(g, start, queue, seen, level);
      level', split' := level + 1, |queue|;
    }
    PopKeepsFrontier(g, start, queue, seen, level', split');
    split' := split' - 1;
  }

  lemma SearchStarts(g: Graph, start: string, goal: string)
    requires start != goal
    ensures Searching(g, start, goal, [[start]], {start}, 0, 1, {})
  {
    var queue := [[start]];
    assert queue[0] == [start];
    assert Queued(queue, 1, start) && Queued(queue, |queue|, start);
  }

  lemma AllExpanded(g: Graph, start: string, goal: string, seen: set<string>, level: nat, split: nat)
    requires Searching(g, start, goal, [], seen, level, split, {})
    ensures !Reachable(g, start, goal)
  {
    NothingLeft(g, start, goal, seen);
  }

  lemma ExtendPath(g: Graph, chain: seq<string>, start: string, current: string, target: string)
    requires IsPath(g, chain, start, current) && target in Imports(g, current)
    ensures IsPath(g, chain + [target], start, target) && target in Universe(g, start)
  {
  }

  lemma FewerUnseen(universe: set<string>, before: set<string>, seen: set<string>)
    requires before <= seen <= universe
    ensures |universe - seen| <= |universe - before|
    ensures |universe - seen| == |universe - before| ==> seen == before
  {
    SetShrinks(universe - seen, universe - before);
    assert seen == universe - (universe - seen) && before == universe - (universe - before);
  }

  lemma {:induction false} SetShrinks(a: set<string>, b: set<string>)
    requires a <= b
    ensures |a| <= |b| && (|a| == |b| ==> a == b)
  {
    if a != {} {
      var x :| x in a;
      SetShrinks(a - {x}, b - {x});
    }
  }

  lemma NextLayer(g: Graph, start: string, queue: seq<seq<string>>, seen: set<string>, level: nat)
    requires Layered(g, start, queue, level, 0) && Frontier(g, start, queue, seen, level, 0, {})
    ensures Layered(g, start, queue, level + 1, |queue|)
    ensures Frontier(g, start, queue, seen, level + 1, |queue|, {})
  {
    forall m | m in Ball(g, start, level + 1) ensures m in seen {
      if m !in Ball(g, start, level) {
        var v :| v in Ball(g, start, level) && m in Imports(g, v);
        assert Expanded(g, v, seen);
      }
    }
  }

  lemma PopKeepsFrontier(g: Graph, start: string, queue: seq<seq<string>>, seen: set<string>, level: nat, split: nat)
    requires queue != [] && split > 0
    requires Layered(g, start, queue, level, split) && Frontier(g, start, queue, seen, level, split, {})
    ensures var current := queue[0][|queue[0]| - 1];
            && Layered(g, start, queue[1..], level, split - 1)
            && Frontier(g, start, queue[1..], seen, level, split - 1, {current})
  {
    var rest, current := queue[1..], queue[0][|queue[0]| - 1];
    forall m, k: nat | m != current && k <= |queue| && k > 0 && Queued(queue, k, m) ensures Queued(rest, k - 1, m) {
      var i :| 0 <= i < k && queue[i] != [] && queue[i][|queue[i]| - 1] == m;
      assert rest[i - 1] == queue[i];
    }
  }

  lemma PushKeepsFrontier(g: Graph, start: string, queue: seq<seq<string>>, seen: set<string>, level: nat, split: nat,
                          current: string, extended: seq<string>)
    requires extended != [] && IsPath(g, extended, start, extended[|extended| - 1]) && |extended| == level + 2
    requires Layered(g, start, queue, level, split) && Frontier(g, start, queue, seen, level, split, {current})
    ensures var target := extended[|extended| - 1];
            && Layered(g, start, queue + [extended], level, split)
            && Frontier(g, start, queue + [extended], seen + {target}, level, split, {current})
  {
    var more := queue + [extended];
    forall m, k: nat | k <= |queue| && Queued(queue, k, m) ensures Queued(more, k, m) && Queued(more, |more|, m) {
      var i :| 0 <= i < k && queue[i] != [] && queue[i][|queue[i]| - 1] == m;
      assert more[i] == queue[i];
    }
    assert more[|queue|] == extended;
  }

  lemma NothingShorter(g: Graph, start: string, goal: string, seen: set<string>, level: nat)
    requires Ball(g, start, level) <= seen && goal !in seen
    ensures forall d | IsPath(g, d, start, goal) :: level + 2 <= |d|
  {
    forall d | IsPath(g, d, start, goal) ensures level + 2 <= |d| {
      if |d| <= level + 1 { PathEndsInBall(g, d, start, goal, level); }
    }
  }

  lemma NothingLeft(g: Graph, start: string, goal: string, seen: set<string>)
    requires start in seen && goal !in seen && forall m | m in seen :: Expanded(g, m, seen)
    ensures !Reachable(g, start, goal)
  {
    forall c | c != [] && c[0] == start && forall i | 0 <= i < |c| - 1 :: c[i + 1] in Imports(g, c[i])
      ensures c[|c| - 1] in seen
    {
      StaysIn(g, c, seen);
    }
  }

  lemma {:induction false} StaysIn(g: Graph, c: seq<string>, seen: set<string>)
    requires c != [] && c[0] in seen && forall i | 0 <= i < |c| - 1 :: c[i + 1] in Imports(g, c[i])
    requires forall m | m in seen :: Expanded(g, m, seen)
    ensures c[|c| - 1] in seen
  {
    if |c| > 1 {
      assert c[1] in Imports(g, c[0]) && Expanded(g, c[0], seen);
      StaysIn(g, c[1..], seen);
    }
  }

  // ----- Selection -----

  /** `chain` is why the test was selected; empty for a changed test file. */
  datatype Selected = Selected(target: string, via: string, chain: seq<string>)

  datatype Changed = Changed(name: string, path: string, isTest: bool)

  /** The test imports the module itself, and is not the module. */
  predicate ImportsDirectly(g: Graph, test: string, m: string)
  {
    test != m && m in Imports(g, test)
  }

  lemma TwoModuleChain(g: Graph, chain: seq<string>, start: string, goal: string)
    requires chain == [] <==> !Reachable(g, start, goal)
    requires chain != [] ==> IsShortestPath(g, chain, start, goal)
    ensures |chain| == 2 <==> ImportsDirectly(g, start, goal)
  {
    if ImportsDirectly(g, start, goal) {
      assert IsPath(g, [start, goal], start, goal);
    }
  }

  function DirectPaths(g: Graph, m: string): set<string>
  {
    set n | n in g.modules && g.modules[n].isTest && ImportsDirectly(g, n, m) :: g.modules[n].path
  }

  method DirectImportingTests(g: Graph, m: Changed) returns (targets: map<string, Selected>)
    ensures targets.Keys == DirectPaths(g, m.name)
    ensures forall p | p in targets :: targets[p].target == p && targets[p].via == m.path && |targets[p].chain| == 2
  {
    targets := map[];
    var rest := g.modules.Keys;
    while rest != {}
      invariant rest <= g.modules.Keys
      invariant targets.Keys ==
                set n | n in g.modules.Keys - rest && g.modules[n].isTest && ImportsDirectly(g, n, m.name) :: g.modules[n].path
      invariant forall p | p in targets ::
                  targets[p].target == p && targets[p].via == m.path && |targets[p].chain| == 2
      decreases |rest|
    {
      var n :| n in rest;
      rest := rest - {n};
      if g.modules[n].isTest {
        var chain := ShortestChain(g, n, m.name);
        TwoModuleChain(g, chain, n, m.name);
        if |chain| == 2 {
          targets := targets[g.modules[n].path := Selected(g.modules[n].path, m.path, chain)];
        }
      }
    }
  }

  /** A test module that reaches some changed module, and how closely. */
  ghost predicate ReachesSome(g: Graph, n: string, changed: seq<Changed>)
  {
    exists k :: 0 <= k < |changed| && Reachable(g, n, changed[k].name)
  }

  /** `best` is a shortest chain from n to any of the changed modules. */
  ghost predicate Nearest(g: Graph, n: string, changed: seq<Changed>, best: Selected)
  {
    && (exists k :: 0 <= k < |changed| && best.via == changed[k].path && IsPath(g, best.chain, n, changed[k].name))
    && forall k, c | 0 <= k < |changed| && IsPath(g, c, n, changed[k].name) :: |best.chain| <= |c|
  }

  /** The reason one test is selected, or none: the inner loop of legacy selection. */
  method NearestChange(g: Graph, n: string, path: string, changed: seq<Changed>) returns (found: bool, best: Selected)
    ensures found <==> ReachesSome(g, n, changed)
    ensures found ==> best.target == path && Nearest(g, n, changed, best)
  {
    found, best := false, Selected("", "", []);
    for k := 0 to |changed|
      invariant found <==> ReachesSome(g, n, changed[..k])
      invariant found ==> best.target == path && Nearest(g, n, changed[..k], best)
    {
      assert changed[..k + 1] == changed[..k] + [changed[k]];
      var chain := ShortestChain(g, n, changed[k].name);
      NearestSoFar(g, n, changed, k, found, best, chain, path);
      if chain != [] && (!found || |chain| < |best.chain|) {
        found, best := true, Selected(path, changed[k].path, chain);
      }
    }
    assert changed[..|changed|] == changed;
  }

  lemma NearestSoFar(g: Graph, n: string, changed: seq<Changed>, k: nat, found: bool, best: Selected,
                     chain: seq<string>, path: string)
    requires k < |changed| && changed[..k + 1] == changed[..k] + [changed[k]]
    requires found <==> ReachesSome(g, n, changed[..k])
    requires found ==> Nearest(g, n, changed[..k], best)
    requires chain == [] <==> !Reachable(g, n, changed[k].name)
    requires chain != [] ==> IsShortestPath(g, chain, n, changed[k].name)
    ensures (found || chain != []) <==> ReachesSome(g, n, changed[..k + 1])
    ensures found && (chain == [] || |best.chain| <= |chain|) ==> Nearest(g, n, changed[..k + 1], best)
    ensures chain != [] && (!found || |chain| < |best.chain|) ==>
              Nearest(g, n, changed[..k + 1], Selected(path, changed[k].path, chain))
  {
    var upTo := changed[..k + 1];
    assert upTo[k] == changed[k];
    assert forall j | 0 <= j < k :: upTo[j] == changed[..k][j];
    forall j, c | 0 <= j < k + 1 && IsPath(g, c, n, upTo[j].name)
      ensures j < k ==> found && |best.chain| <= |c|
      ensures j == k ==> chain != [] && |chain| <= |c|
    {
      assert Reachable(g, n, upTo[j].name);
    }
  }

  ghost function ReachingPaths(g: Graph, changed: seq<Changed>): set<string>
  {
    set n | n in g.modules && g.modules[n].isTest && ReachesSome(g, n, changed) :: g.modules[n].path
  }

  /** Some test module at `path` has `best` as its nearest change. */
  ghost predicate HasReason(g: Graph, changed: seq<Changed>, path: string, best: Selected)
  {
    exists n :: n in g.modules && g.modules[n].isTest && g.modules[n].path == path && Nearest(g, n, changed, best)
  }

  lemma ReasonsReach(g: Graph, changed: seq<Changed>, path: string, best: Selected)
    requires HasReason(g, changed, path, best)
    ensures path in ReachingPaths(g, changed)
  {
    var n :| n in g.modules && g.modules[n].isTest && g.modules[n].path == path && Nearest(g, n, changed, best);
    var k :| 0 <= k < |changed| && IsPath(g, best.chain, n, changed[k].name);
    assert Reachable(g, n, changed[k].name);
    assert ReachesSome(g, n, changed);
  }

  /** Legacy static selection: exactly the changed tests and the tests that reach a changed
      module, each of the latter with a nearest change as its reason. */
  method SelectStatic(g: Graph, changed: seq<Changed>, changedTests: seq<string>)
    returns (targets: map<string, Selected>)
    ensures targets.Keys == (set p | p in changedTests) + ReachingPaths(g, changed)
    ensures forall p | p in targets && p !in changedTests :: HasReason(g, changed, p, targets[p])
  {
    targets := map[];
    for i := 0 to |changedTests|
      invariant targets.Keys == set j | 0 <= j < i :: changedTests[j]
    {
      targets := targets[changedTests[i] := Selected(changedTests[i], changedTests[i], [])];
    }
    ghost var fixed := targets.Keys;
    assert fixed == set p | p in changedTests;
    var rest := g.modules.Keys;
    while rest != {}
      invariant rest <= g.modules.Keys && fixed <= targets.Keys
      invariant forall n | n in g.modules && n !in rest && g.modules[n].isTest && ReachesSome(g, n, changed) ::
                  g.modules[n].path in targets
      invariant forall p | p in targets && p !in fixed :: HasReason(g, changed, p, targets[p])
      decreases |rest|
    {
      var n :| n in rest;
      rest := rest - {n};
      if g.modules[n].isTest {
        var path := g.modules[n].path;
        var found, best := NearestChange(g, n, path, changed);
        if found && path !in targets {
          targets := targets[path := best];
        }
      }
    }
    forall p | p in targets && p !in fixed ensures p in ReachingPaths(g, changed) {
      ReasonsReach(g, changed, p, targets[p]);
    }
  }

  /** The stale-map fallback: the changed tests and the direct importers of each changed
      source module. */
  method SelectDirect(g: Graph, changed: seq<Changed>, changedTests: seq<string>)
    returns (targets: map<string, Selected>)
    ensures targets.Keys == (set p | p in changedTests) + DirectFallback(g, changed)
  {
    targets := map[];
    for i := 0 to |changedTests|
      invariant targets.Keys == set j | 0 <= j < i :: changedTests[j]
    {
      targets := targets[changedTests[i] := Selected(changedTests[i], changedTests[i], [])];
    }
    for k := 0 to |changed|
      invariant targets.Keys == (set p | p in changedTests) + DirectFallback(g, changed[..k])
    {
      assert changed[..k + 1][..k] == changed[..k];
      if !changed[k].isTest {
        var direct := DirectImportingTests(g, changed[k]);
        targets := direct + targets;
      }
    }
    assert changed[..|changed|] == changed;
  }

  function DirectFallback(g: Graph, changed: seq<Changed>): set<string>
  {
    if changed == [] then {}
    else
      var last := changed[|changed| - 1];
      DirectFallback(g, changed[..|changed| - 1]) + if last.isTest then {} else DirectPaths(g, last.name)
  }

  /** The fallback never selects a test legacy selection would not. */
  lemma {:induction false} DirectIsASubset(g: Graph, changed: seq<Changed>)
    ensures DirectFallback(g, changed) <= ReachingPaths(g, changed)
  {
    if changed != [] {
      var before, last := changed[..|changed| - 1], changed[|changed| - 1];
      DirectIsASubset(g, before);
      forall n | n in g.modules && g.modules[n].isTest && ReachesSome(g, n, before) ensures ReachesSome(g, n, changed) {
        var k :| 0 <= k < |before| && Reachable(g, n, before[k].name);
        assert changed[k] == before[k];
      }
      forall n | n in g.modules && ImportsDirectly(g, n, last.name) ensures ReachesSome(g, n, changed) {
        assert IsPath(g, [n, last.name], n, last.name);
      }
    }
  }
}
