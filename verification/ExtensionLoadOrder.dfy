/** What the result of sorting means in terms of the manifests and the given paths alone. */
module ExtensionLoadOrder {
  import opened Text
  import opened DependencyGraph
  import opened ExtensionSort

  // ----- What the manifests say

  /** The last path with this id is the one that counts. */
  ghost predicate KeptAt(m: Manifests, paths: seq<string>, id: string, k: int)
  {
    0 <= k < |paths| && paths[k] in m && m[paths[k]].id == id
    && forall j | k < j < |paths| && paths[j] in m :: m[paths[j]].id != id
  }

  ghost predicate Installed(m: Manifests, paths: seq<string>, id: string)
  {
    exists k :: KeptAt(m, paths, id, k)
  }

  ghost predicate Declares(m: Manifests, paths: seq<string>, i: string, d: string)
  {
    exists k :: KeptAt(m, paths, i, k) && d in m[paths[k]].dependencies
  }

  ghost predicate Needs(m: Manifests, paths: seq<string>, i: string, d: string)
  {
    d != i && Installed(m, paths, d) && Declares(m, paths, i, d)
  }

  /** Each id needs the next. */
  ghost predicate Chain(m: Manifests, paths: seq<string>, p: seq<string>)
  {
    forall k | 0 <= k < |p| - 1 :: Needs(m, paths, p[k], p[k + 1])
  }

  /** A chain of needs from `i` comes back to an id on it. */
  ghost predicate Stuck(m: Manifests, paths: seq<string>, i: string)
  {
    exists p: seq<string> ::
      Chain(m, paths, p) && |p| >= 2 && p[0] == i && p[|p| - 1] in p[..|p| - 1]
  }

  /** Place `n` of the result holds the path of `i`. */
  ghost predicate LoadsAt(m: Manifests, paths: seq<string>, sortedPaths: seq<string>, n: int, i: string)
  {
    Unmanifested(m, paths, |paths|) <= n < |sortedPaths|
    && exists k :: KeptAt(m, paths, i, k) && sortedPaths[n] == paths[k]
  }

  /** How many of the first `n` paths have no manifest. */
  function Unmanifested(m: Manifests, paths: seq<string>, n: nat): nat
    requires n <= |paths|
  {
    |set k | 0 <= k < n && paths[k] !in m|
  }

  // ----- The graph is the one declared

  lemma {:induction false} KeptIsMapped(m: Manifests, paths: seq<string>, id: string, k: int)
    requires KeptAt(m, paths, id, k)
    ensures id in PathById(m, paths) && PathById(m, paths)[id] == paths[k]
  {
    LastPathWins(m, paths, id);
  }

  lemma {:induction false} MappedIsKept(m: Manifests, paths: seq<string>, id: string) returns (k: int)
    requires id in PathById(m, paths)
    ensures KeptAt(m, paths, id, k) && PathById(m, paths)[id] == paths[k]
  {
    var n := |paths| - 1;
    if paths[n] in m && m[paths[n]].id == id {
      k := n;
    } else {
      k := MappedIsKept(m, paths[..n], id);
      assert forall j | 0 <= j < n :: paths[..n][j] == paths[j];
    }
  }

  lemma InstalledIsMapped(m: Manifests, paths: seq<string>, id: string)
    ensures Installed(m, paths, id) <==> id in GraphOf(m, paths).ids
  {
    hide PathById;
    if k :| KeptAt(m, paths, id, k) { KeptIsMapped(m, paths, id, k); }
    if id in PathById(m, paths) { var k := MappedIsKept(m, paths, id); }
  }

  lemma DeclaresIsMapped(m: Manifests, paths: seq<string>, i: string, d: string)
    ensures var g := GraphOf(m, paths); Declares(m, paths, i, d) <==> i in g.ids && d in g.deps[i]
  {
    if k :| KeptAt(m, paths, i, k) && d in m[paths[k]].dependencies { KeptIsMapped(m, paths, i, k); }
    if i in PathById(m, paths) { var k := MappedIsKept(m, paths, i); }
    hide PathById, KeptAt;
  }

  /** An edge of the graph that is sorted is a need declared by the manifests. */
  lemma EdgeIsNeed(m: Manifests, paths: seq<string>, d: string, i: string)
    ensures Edge(GraphOf(m, paths), d, i) <==> Needs(m, paths, i, d)
  {
    hide PathById, GraphOf, Installed, Declares;
    InstalledIsMapped(m, paths, d);
    DeclaresIsMapped(m, paths, i, d);
  }

  /** What reaches a cycle of the graph is what is stuck. */
  lemma StuckReachesCycle(m: Manifests, paths: seq<string>, i: string)
    ensures Stuck(m, paths, i) <==> ReachesCycle(GraphOf(m, paths), i)
  {
    hide *;
    if Stuck(m, paths, i) { ChainIsPath(m, paths, i); }
    if ReachesCycle(GraphOf(m, paths), i) { PathIsChain(m, paths, i); }
  }

  lemma Stretch(g: Graph, p: seq<string>, a: nat, b: nat)
    requires a <= b < |p| && |p| >= 2 && forall k | 0 <= k < |p| - 1 :: Edge(g, p[k + 1], p[k])
    ensures PathBetween(g, p[a..b + 1], p[a], p[b])
  {
    var q := p[a..b + 1];
    forall k | 0 <= k < |q| - 1 ensures Edge(g, q[k + 1], q[k]) { assert Edge(g, p[a + k + 1], p[a + k]); }
    assert if a < |p| - 1 then Edge(g, p[a + 1], p[a]) else Edge(g, p[a], p[a - 1]);
  }

  lemma ChainIsPath(m: Manifests, paths: seq<string>, i: string)
    requires Stuck(m, paths, i)
    ensures ReachesCycle(GraphOf(m, paths), i)
  {
    hide GraphOf, Needs, PathBetween;
    var g := GraphOf(m, paths);
    var p: seq<string> :| Chain(m, paths, p) && |p| >= 2 && p[0] == i && p[|p| - 1] in p[..|p| - 1];
    forall k | 0 <= k < |p| - 1 ensures Edge(g, p[k + 1], p[k]) { EdgeIsNeed(m, paths, p[k + 1], p[k]); }
    var n :| 0 <= n < |p| - 1 && p[n] == p[|p| - 1];
    Stretch(g, p, 0, n);
    Stretch(g, p, n, |p| - 1);
  }

  lemma CyclePaths(g: Graph, i: string) returns (back: seq<string>, round: seq<string>)
    requires ReachesCycle(g, i)
    ensures |round| >= 2 && IsPath(g, back) && IsPath(g, round)
    ensures back[0] == i && back[|back| - 1] == round[0] == round[|round| - 1]
  {
    hide IsPath;
    var c;
    c, back :| PathBetween(g, back, i, c) && OnCycle(g, c);
    round :| |round| >= 2 && PathBetween(g, round, c, c);
  }

  lemma PathsJoin(g: Graph, back: seq<string>, round: seq<string>, k: nat)
    requires |round| >= 2 && IsPath(g, back) && IsPath(g, round) && back[|back| - 1] == round[0]
    requires k < |back + round[1..]| - 1
    ensures var p := back + round[1..]; Edge(g, p[k + 1], p[k])
  {
    hide Edge;
    var p, n := back + round[1..], |back| - 1;
    if k < n {
      assert p[k] == back[k] && p[k + 1] == back[k + 1];
    } else {
      assert p[k] == round[k - n] && p[k + 1] == round[k - n + 1];
    }
  }

  lemma PathIsChain(m: Manifests, paths: seq<string>, i: string)
    requires ReachesCycle(GraphOf(m, paths), i)
    ensures Stuck(m, paths, i)
  {
    hide GraphOf, Needs, ReachesCycle, IsPath, Edge;
    var g := GraphOf(m, paths);
    var back, round := CyclePaths(g, i);
    NotEmptyPath(g, back);
    var p, n := back + round[1..], |back| - 1;
    forall k | 0 <= k < |p| - 1 ensures Needs(m, paths, p[k], p[k + 1]) {
      PathsJoin(g, back, round, k);
      EdgeIsNeed(m, paths, p[k + 1], p[k]);
    }
    assert p[..|p| - 1][n] == p[|p| - 1];
  }

  lemma NotEmptyPath(g: Graph, p: seq<string>)
    requires IsPath(g, p)
    ensures p != []
  {
  }

  // ----- Where everything goes

  ghost predicate Sorts(m: Manifests, paths: seq<string>, sortedPaths: seq<string>, warnings: seq<Warning>)
  {
    exists emitted, leftover :: ResultFor(m, paths, emitted, leftover, sortedPaths, warnings)
  }

  lemma {:induction false} ManifestlessAt(m: Manifests, paths: seq<string>, k: nat)
    requires k <= |paths|
    ensures |WithoutManifest(m, paths)| == Unmanifested(m, paths, |paths|)
    ensures k < |paths| && paths[k] !in m ==>
              Unmanifested(m, paths, k) < |WithoutManifest(m, paths)|
              && WithoutManifest(m, paths)[Unmanifested(m, paths, k)] == paths[k]
  {
    if paths != [] {
      var n := |paths| - 1;
      ManifestlessAt(m, paths[..n], if k < n then k else n);
      assert (set j | 0 <= j < n && paths[..n][j] !in m) == (set j | 0 <= j < n && paths[j] !in m);
      assert (set j | 0 <= j < n + 1 && paths[j] !in m)
             == (set j | 0 <= j < n && paths[j] !in m) + if paths[n] in m then {} else {n};
      if k < n {
        assert (set j | 0 <= j < k && paths[..n][j] !in m) == (set j | 0 <= j < k && paths[j] !in m);
      }
    }
  }

  /** The paths without a manifest come first, each after exactly those given before it. */
  lemma ManifestlessComeFirst(m: Manifests, paths: seq<string>, sortedPaths: seq<string>, warnings: seq<Warning>,
                              k: nat)
    requires Sorts(m, paths, sortedPaths, warnings) && k < |paths| && paths[k] !in m
    ensures Unmanifested(m, paths, k) < Unmanifested(m, paths, |paths|) <= |sortedPaths|
    ensures sortedPaths[Unmanifested(m, paths, k)] == paths[k]
  {
    hide LoadOrder, WithoutManifest, Unmanifested, PathsOf;
    ManifestlessAt(m, paths, k);
  }

  /** The result, from the load order. */
  ghost predicate Places(m: Manifests, paths: seq<string>, emitted: seq<string>, leftover: seq<string>,
                         sortedPaths: seq<string>)
  {
    var skip := Unmanifested(m, paths, |paths|);
    && LoadOrder(GraphOf(m, paths), emitted, leftover)
    && |sortedPaths| == skip + |emitted| + |leftover|
    && forall n, i :: LoadsAt(m, paths, sortedPaths, n, i) <==>
                      0 <= n - skip < |emitted + leftover| && (emitted + leftover)[n - skip] == i
  }

  lemma PlaceOf(m: Manifests, paths: seq<string>, order: seq<string>, sortedPaths: seq<string>, n: int, i: string)
    requires sortedPaths == WithoutManifest(m, paths) + PathsOf(PathById(m, paths), order)
    requires |WithoutManifest(m, paths)| == Unmanifested(m, paths, |paths|)
    requires forall v | v in order :: v in PathById(m, paths)
    ensures var k := n - Unmanifested(m, paths, |paths|);
            LoadsAt(m, paths, sortedPaths, n, i) <==> 0 <= k < |order| && order[k] == i
  {
    hide WithoutManifest, Unmanifested, PathById;
    var k := n - Unmanifested(m, paths, |paths|);
    if 0 <= k < |order| {
      assert order[k] in order && sortedPaths[n] == PathById(m, paths)[order[k]];
      var kept := MappedIsKept(m, paths, order[k]);
    }
  }

  lemma ResultPlaces(m: Manifests, paths: seq<string>, emitted: seq<string>, leftover: seq<string>,
                     sortedPaths: seq<string>, warnings: seq<Warning>)
    requires ResultFor(m, paths, emitted, leftover, sortedPaths, warnings)
    ensures Places(m, paths, emitted, leftover, sortedPaths)
  {
    hide LoadOrder, WithoutManifest, Unmanifested, PathById, MissingWarnings, CycleWarnings, Distinct, LoadsAt;
    ManifestlessAt(m, paths, |paths|);
    EveryIdOnce(GraphOf(m, paths), emitted, leftover);
    assert GraphOf(m, paths).ids == PathById(m, paths).Keys;
    hide GraphOf;
    forall n, i
      ensures var k := n - Unmanifested(m, paths, |paths|);
              LoadsAt(m, paths, sortedPaths, n, i) <==> 0 <= k < |emitted + leftover| && (emitted + leftover)[k] == i
    {
      PlaceOf(m, paths, emitted + leftover, sortedPaths, n, i);
    }
  }

  lemma PlaceHoldsItsId(m: Manifests, paths: seq<string>, sortedPaths: seq<string>, n: int, i: string)
    requires LoadsAt(m, paths, sortedPaths, n, i)
    ensures sortedPaths[n] in m && m[sortedPaths[n]].id == i
  {
  }

  /** Every id that a manifest among the given paths has takes exactly one place after those, and
      every such place is some id's. */
  lemma EveryIdHasItsPlace(m: Manifests, paths: seq<string>, sortedPaths: seq<string>, warnings: seq<Warning>)
    requires Sorts(m, paths, sortedPaths, warnings)
    ensures forall i :: Installed(m, paths, i) <==> exists n :: LoadsAt(m, paths, sortedPaths, n, i)
    ensures forall n, n', i | LoadsAt(m, paths, sortedPaths, n, i) && LoadsAt(m, paths, sortedPaths, n', i) :: n == n'
    ensures forall n | Unmanifested(m, paths, |paths|) <= n < |sortedPaths| ::
              sortedPaths[n] in m && LoadsAt(m, paths, sortedPaths, n, m[sortedPaths[n]].id)
  {
    hide ResultFor, LoadsAt, GraphOf, Installed, LoadOrder, Unmanifested, KeptAt;
    var emitted, leftover :| ResultFor(m, paths, emitted, leftover, sortedPaths, warnings);
    var order, skip := emitted + leftover, Unmanifested(m, paths, |paths|);
    ResultPlaces(m, paths, emitted, leftover, sortedPaths, warnings);
    EveryIdOnce(GraphOf(m, paths), emitted, leftover);
    forall i ensures Installed(m, paths, i) <==> exists n :: LoadsAt(m, paths, sortedPaths, n, i) {
      InstalledIsMapped(m, paths, i);
      if i in order {
        var k :| 0 <= k < |order| && order[k] == i;
        assert LoadsAt(m, paths, sortedPaths, skip + k, i);
      }
    }
    forall n | skip <= n < |sortedPaths|
      ensures sortedPaths[n] in m && LoadsAt(m, paths, sortedPaths, n, m[sortedPaths[n]].id)
    {
      assert LoadsAt(m, paths, sortedPaths, n, order[n - skip]);
      PlaceHoldsItsId(m, paths, sortedPaths, n, order[n - skip]);
    }
  }

  /** The ids that are not stuck come first, and each after all it needs. */
  lemma EmittedIsFree(m: Manifests, paths: seq<string>, emitted: seq<string>, leftover: seq<string>)
    requires LoadOrder(GraphOf(m, paths), emitted, leftover)
    ensures forall i | i in emitted :: !Stuck(m, paths, i)
    ensures forall i | i in leftover :: Stuck(m, paths, i)
  {
    hide GraphOf, Stuck, ReachesCycle, Topological;
    SortIsLeastTopological(m, paths, emitted, leftover);
    KahnIsTopological(GraphOf(m, paths), emitted);
    forall i ensures Stuck(m, paths, i) <==> ReachesCycle(GraphOf(m, paths), i) { StuckReachesCycle(m, paths, i); }
    forall i | i in emitted ensures !ReachesCycle(GraphOf(m, paths), i) {
      EmittedAvoidsCycles(GraphOf(m, paths), emitted, i);
    }
  }

  lemma Part(emitted: seq<string>, leftover: seq<string>, k: int)
    requires 0 <= k < |emitted + leftover|
    ensures var id := (emitted + leftover)[k];
            if k < |emitted| then id == emitted[k] && id in emitted
            else id == leftover[k - |emitted|] && id in leftover
  {
  }

  /** What an id that is not stuck needs comes before it. */
  lemma DependenciesLoadFirst(m: Manifests, paths: seq<string>, sortedPaths: seq<string>, warnings: seq<Warning>,
                              n: int, i: string, d: string)
    requires Sorts(m, paths, sortedPaths, warnings) && LoadsAt(m, paths, sortedPaths, n, i)
    requires Needs(m, paths, i, d) && !Stuck(m, paths, i)
    ensures exists n' :: n' < n && LoadsAt(m, paths, sortedPaths, n', d)
  {
    hide ResultFor, LoadsAt, GraphOf, LoadOrder, Unmanifested, Needs, Stuck, Edge;
    var emitted, leftover :| ResultFor(m, paths, emitted, leftover, sortedPaths, warnings);
    var order, skip := emitted + leftover, Unmanifested(m, paths, |paths|);
    ResultPlaces(m, paths, emitted, leftover, sortedPaths, warnings);
    EmittedIsFree(m, paths, emitted, leftover);
    EveryIdOnce(GraphOf(m, paths), emitted, leftover);
    EdgeIsNeed(m, paths, d, i);
    Part(emitted, leftover, n - skip);
    var k :| 0 <= k < |order[..n - skip]| && order[..n - skip][k] == d;
    assert LoadsAt(m, paths, sortedPaths, skip + k, d);
  }

  /** Stuck ids come after all others, in alphabetical order. */
  lemma StuckLoadLast(m: Manifests, paths: seq<string>, sortedPaths: seq<string>, warnings: seq<Warning>,
                      n: int, i: string, n': int, j: string)
    requires Sorts(m, paths, sortedPaths, warnings) && n < n'
    requires LoadsAt(m, paths, sortedPaths, n, i) && LoadsAt(m, paths, sortedPaths, n', j) && Stuck(m, paths, i)
    ensures Stuck(m, paths, j) && Less(i, j)
  {
    hide ResultFor, LoadsAt, GraphOf, KahnOrder, Unmanifested, Stuck, Less;
    var emitted, leftover :| ResultFor(m, paths, emitted, leftover, sortedPaths, warnings);
    var order, skip := emitted + leftover, Unmanifested(m, paths, |paths|);
    ResultPlaces(m, paths, emitted, leftover, sortedPaths, warnings);
    EmittedIsFree(m, paths, emitted, leftover);
    Part(emitted, leftover, n - skip);
    Part(emitted, leftover, n' - skip);
  }

  /** Of two ids that could both go next, the alphabetically first does. */
  lemma FirstOfThoseThatCouldGo(m: Manifests, paths: seq<string>, sortedPaths: seq<string>, warnings: seq<Warning>,
                                n: int, i: string, n': int, j: string)
    requires Sorts(m, paths, sortedPaths, warnings) && n < n'
    requires LoadsAt(m, paths, sortedPaths, n, i) && LoadsAt(m, paths, sortedPaths, n', j) && !Stuck(m, paths, j)
    requires forall d | Needs(m, paths, j, d) :: exists k :: k < n && LoadsAt(m, paths, sortedPaths, k, d)
    ensures Less(i, j)
  {
    hide ResultFor, LoadsAt, GraphOf, Unmanifested, Stuck, Less, Needs, Edge, LoadOrder;
    var emitted, leftover :| ResultFor(m, paths, emitted, leftover, sortedPaths, warnings);
    var g, order, skip := GraphOf(m, paths), emitted + leftover, Unmanifested(m, paths, |paths|);
    ResultPlaces(m, paths, emitted, leftover, sortedPaths, warnings);
    EmittedIsFree(m, paths, emitted, leftover);
    Part(emitted, leftover, n - skip);
    Part(emitted, leftover, n' - skip);
    forall d | Edge(g, d, j) ensures d in emitted[..n - skip] {
      EdgeIsNeed(m, paths, d, j);
      var k :| k < n && LoadsAt(m, paths, sortedPaths, k, d);
      assert order[k - skip] == d == emitted[k - skip];
    }
    LeastGoesFirst(g, emitted, leftover, n - skip, n' - skip);
  }

  lemma LeastGoesFirst(g: Graph, emitted: seq<string>, leftover: seq<string>, k: nat, l: nat)
    requires LoadOrder(g, emitted, leftover) && k < l < |emitted|
    requires forall d | Edge(g, d, emitted[l]) :: d in emitted[..k]
    ensures Less(emitted[k], emitted[l])
  {
    hide Edge, Less;
    GreedyIsDistinct(g, emitted);
    assert LeastReady(g, emitted[..k], emitted[k]);
    assert emitted[l] in emitted && Ready(g, emitted[..k], emitted[l]);
    LessIsTotal(emitted[k], emitted[l]);
  }

  // ----- The warnings

  /** What the kept path of `i` declares. */
  ghost function Declarations(m: Manifests, paths: seq<string>, i: string): seq<string>
  {
    if k :| KeptAt(m, paths, i, k) then m[paths[k]].dependencies else []
  }

  lemma DeclarationsAreMapped(m: Manifests, paths: seq<string>, i: string)
    ensures var g := GraphOf(m, paths); Declarations(m, paths, i) == if i in g.ids then g.deps[i] else []
  {
    if k :| KeptAt(m, paths, i, k) { KeptIsMapped(m, paths, i, k); }
    if i in PathById(m, paths) { var k := MappedIsKept(m, paths, i); }
    forall k | KeptAt(m, paths, i, k) ensures i in PathById(m, paths) && PathById(m, paths)[i] == paths[k] {
      KeptIsMapped(m, paths, i, k);
    }
    hide PathById, KeptAt;
  }

  /** Nothing but warnings of one kind. */
  lemma {:induction false} MissingAreMissing(g: Graph, order: seq<string>, w: Warning)
    requires w in MissingWarnings(g, order)
    ensures w.MissingDependency?
  {
    var n := |order| - 1;
    var deps := if order[n] in g.deps then g.deps[order[n]] else [];
    if w in MissingWarnings(g, order[..n]) {
      MissingAreMissing(g, order[..n], w);
    } else {
      MissingAmongCounts(g.ids, deps, order[n], w);
    }
    hide MissingAmong;
  }

  lemma {:induction false} CyclesAreCycles(g: Graph, left: seq<string>, order: seq<string>, w: Warning)
    requires w in CycleWarnings(g, left, order)
    ensures w.DependencyCycle?
  {
    var n := |order| - 1;
    var deps := if order[n] in g.deps then g.deps[order[n]] else [];
    if w in CycleWarnings(g, left, order[..n]) {
      CyclesAreCycles(g, left, order[..n], w);
    } else {
      CyclesAmongCounts(left, deps, order[n], w);
    }
    hide CyclesAmong;
  }

  lemma CountsOf(missing: seq<Warning>, cycles: seq<Warning>, i: string, d: string)
    requires (forall w | w in missing :: w.MissingDependency?) && forall w | w in cycles :: w.DependencyCycle?
    ensures multiset(missing + cycles)[MissingDependency(i, d)] == multiset(missing)[MissingDependency(i, d)]
    ensures multiset(missing + cycles)[DependencyCycle(i, d)] == multiset(cycles)[DependencyCycle(i, d)]
    ensures forall k, l | 0 <= k < l < |missing + cycles| && (missing + cycles)[l].MissingDependency? ::
              (missing + cycles)[k].MissingDependency?
  {
    AppendCounts(missing, cycles, MissingDependency(i, d));
    AppendCounts(missing, cycles, DependencyCycle(i, d));
    assert DependencyCycle(i, d) !in missing && MissingDependency(i, d) !in cycles;
    forall n | 0 <= n < |missing + cycles| ensures (missing + cycles)[n].MissingDependency? <==> n < |missing| {
      assert (missing + cycles)[n] in if n < |missing| then missing else cycles;
    }
  }

  /** One warning for every declaration of an id that is not installed, and for every declaration
      between two stuck ids; those about missing ids come first. */
  lemma WarningsAreOfDeclarations(m: Manifests, paths: seq<string>, sortedPaths: seq<string>,
                                  warnings: seq<Warning>, i: string, d: string)
    requires Sorts(m, paths, sortedPaths, warnings)
    ensures multiset(warnings)[MissingDependency(i, d)] ==
            if Installed(m, paths, d) || d == i then 0 else multiset(Declarations(m, paths, i))[d]
    ensures multiset(warnings)[DependencyCycle(i, d)] ==
            if Stuck(m, paths, i) && Stuck(m, paths, d) && d != i then multiset(Declarations(m, paths, i))[d] else 0
    ensures forall k, l | 0 <= k < l < |warnings| && warnings[l].MissingDependency? :: warnings[k].MissingDependency?
  {
    hide LoadOrder, MissingWarnings, CycleWarnings, Installed, Stuck, Declarations, PathsOf, WithoutManifest, PathById;
    var emitted, leftover :| ResultFor(m, paths, emitted, leftover, sortedPaths, warnings);
    var g, ids := GraphOf(m, paths), IdsInOrder(m, paths);
    InstalledIsMapped(m, paths, d);
    DeclarationsAreMapped(m, paths, i);
    LeftoverIsStuck(m, paths, emitted, leftover, i);
    LeftoverIsStuck(m, paths, emitted, leftover, d);
    MissingWarningsCount(g, ids, i, d);
    CycleWarningsCount(g, leftover, leftover, i, d);
    forall w | w in MissingWarnings(g, ids) ensures w.MissingDependency? { MissingAreMissing(g, ids, w); }
    forall w | w in CycleWarnings(g, leftover, leftover) ensures w.DependencyCycle? {
      CyclesAreCycles(g, leftover, leftover, w);
    }
    CountsOf(MissingWarnings(g, ids), CycleWarnings(g, leftover, leftover), i, d);
  }

  lemma LeftoverIsStuck(m: Manifests, paths: seq<string>, emitted: seq<string>, leftover: seq<string>, i: string)
    requires LoadOrder(GraphOf(m, paths), emitted, leftover)
    ensures Distinct(leftover) && (i in leftover ==> i in GraphOf(m, paths).ids)
    ensures i in leftover <==> Stuck(m, paths, i)
  {
    hide GraphOf, Stuck, KahnOrder;
    EmittedIsFree(m, paths, emitted, leftover);
    AscendingIsDistinct(leftover);
    if Stuck(m, paths, i) { StuckIsInstalled(m, paths, i); }
  }

  lemma StuckIsInstalled(m: Manifests, paths: seq<string>, i: string)
    requires Stuck(m, paths, i)
    ensures i in GraphOf(m, paths).ids
  {
    hide GraphOf, Needs;
    var p: seq<string> :| Chain(m, paths, p) && |p| >= 2 && p[0] == i && p[|p| - 1] in p[..|p| - 1];
    EdgeIsNeed(m, paths, p[1], p[0]);
  }

  // ----- The order of the warnings

  /** The id is first seen at path `n`. */
  ghost predicate FirstAt(m: Manifests, paths: seq<string>, id: string, n: int)
  {
    0 <= n < |paths| && paths[n] in m && m[paths[n]].id == id
    && forall j | 0 <= j < n && paths[j] in m :: m[paths[j]].id != id
  }

  lemma {:induction false} IdsAreFirstSeen(m: Manifests, paths: seq<string>, k: nat) returns (n: int)
    requires k < |IdsInOrder(m, paths)|
    ensures FirstAt(m, paths, IdsInOrder(m, paths)[k], n)
  {
    var last := |paths| - 1;
    var before := IdsInOrder(m, paths[..last]);
    if k < |before| {
      n := IdsAreFirstSeen(m, paths[..last], k);
      assert forall j | 0 <= j < last :: paths[..last][j] == paths[j];
    } else {
      n := last;
      var id := m[paths[last]].id;
      LastPathWins(m, paths[..last], id);
      assert forall j | 0 <= j < last :: paths[..last][j] == paths[j];
    }
  }

  lemma {:induction false} IdsAreInOrder(m: Manifests, paths: seq<string>, k: nat, l: nat, p: int, q: int)
    requires k < l < |IdsInOrder(m, paths)|
    requires FirstAt(m, paths, IdsInOrder(m, paths)[k], p) && FirstAt(m, paths, IdsInOrder(m, paths)[l], q)
    ensures p < q
  {
    var last := |paths| - 1;
    var before := IdsInOrder(m, paths[..last]);
    assert forall j | 0 <= j < last :: paths[..last][j] == paths[j];
    if l < |before| {
      var p' := IdsAreFirstSeen(m, paths[..last], k);
      var q' := IdsAreFirstSeen(m, paths[..last], l);
      IdsAreInOrder(m, paths[..last], k, l, p', q');
    } else {
      var p' := IdsAreFirstSeen(m, paths[..last], k);
      LastPathWins(m, paths[..last], m[paths[last]].id);
    }
  }

  /** `d` is declared before `e`. */
  ghost predicate DeclaredBefore(deps: seq<string>, d: string, e: string)
  {
    exists a, b :: 0 <= a < b < |deps| && deps[a] == d && deps[b] == e
  }

  lemma {:induction false} MissingIsDeclared(ids: set<string>, deps: seq<string>, i: string, k: nat)
    requires k < |MissingAmong(ids, deps, i)|
    ensures var w := MissingAmong(ids, deps, i)[k]; w.MissingDependency? && w.declaringId == i && w.missingId in deps
  {
    var n := |deps| - 1;
    if k < |MissingAmong(ids, deps[..n], i)| { MissingIsDeclared(ids, deps[..n], i, k); }
  }

  lemma {:induction false} MissingByDeclaration(ids: set<string>, deps: seq<string>, i: string, k: nat, l: nat)
    requires k < l < |MissingAmong(ids, deps, i)|
    ensures var w := MissingAmong(ids, deps, i); DeclaredBefore(deps, w[k].missingId, w[l].missingId)
  {
    var n := |deps| - 1;
    var before := MissingAmong(ids, deps[..n], i);
    if l < |before| {
      MissingByDeclaration(ids, deps[..n], i, k, l);
      var a, b :| 0 <= a < b < n && deps[..n][a] == before[k].missingId && deps[..n][b] == before[l].missingId;
      assert deps[a] == before[k].missingId && deps[b] == before[l].missingId;
    } else {
      MissingIsDeclared(ids, deps[..n], i, k);
      var a :| 0 <= a < n && deps[..n][a] == before[k].missingId;
      assert deps[a] == before[k].missingId && deps[n] == MissingAmong(ids, deps, i)[l].missingId;
    }
  }

  /** Place `a` of a list of ids comes before place `b`, or the same id declares one before the other. */
  ghost predicate InTurn(g: Graph, order: seq<string>, v: Warning, w: Warning)
  {
    (v.declaringId == w.declaringId && v.declaringId in g.deps
     && DeclaredBefore(g.deps[v.declaringId], v.missingId, w.missingId))
    || exists a, b :: 0 <= a < b < |order| && order[a] == v.declaringId && order[b] == w.declaringId
  }

  lemma InTurnStays(g: Graph, order: seq<string>, id: string, v: Warning, w: Warning)
    requires InTurn(g, order, v, w)
    ensures InTurn(g, order + [id], v, w)
  {
    if a, b :| 0 <= a < b < |order| && order[a] == v.declaringId && order[b] == w.declaringId {
      assert (order + [id])[a] == v.declaringId && (order + [id])[b] == w.declaringId;
    }
    hide DeclaredBefore;
  }

  lemma {:induction false} MissingIsOfOrder(g: Graph, order: seq<string>, k: nat)
    requires k < |MissingWarnings(g, order)|
    ensures MissingWarnings(g, order)[k].declaringId in order
  {
    var n := |order| - 1;
    var deps := if order[n] in g.deps then g.deps[order[n]] else [];
    var before := MissingWarnings(g, order[..n]);
    if k < |before| {
      MissingIsOfOrder(g, order[..n], k);
    } else {
      MissingIsDeclared(g.ids, deps, order[n], k - |before|);
    }
    hide MissingAmong;
  }

  lemma {:induction false} MissingInTurn(g: Graph, order: seq<string>, k: nat, l: nat)
    requires k < l < |MissingWarnings(g, order)|
    ensures InTurn(g, order, MissingWarnings(g, order)[k], MissingWarnings(g, order)[l])
  {
    hide MissingAmong, DeclaredBefore;
    var n := |order| - 1;
    var deps := if order[n] in g.deps then g.deps[order[n]] else [];
    var before, w := MissingWarnings(g, order[..n]), MissingWarnings(g, order);
    assert order == order[..n] + [order[n]] && w == before + MissingAmong(g.ids, deps, order[n]);
    if l < |before| {
      MissingInTurn(g, order[..n], k, l);
      InTurnStays(g, order[..n], order[n], w[k], w[l]);
    } else {
      MissingIsDeclared(g.ids, deps, order[n], l - |before|);
      if k < |before| {
        MissingIsOfOrder(g, order[..n], k);
        var a :| 0 <= a < n && order[..n][a] == w[k].declaringId;
        assert order[a] == w[k].declaringId && order[n] == w[l].declaringId;
      } else {
        MissingIsDeclared(g.ids, deps, order[n], k - |before|);
        MissingByDeclaration(g.ids, deps, order[n], k - |before|, l - |before|);
      }
    }
  }

  lemma {:induction false} CycleIsDeclared(left: seq<string>, deps: seq<string>, i: string, k: nat)
    requires k < |CyclesAmong(left, deps, i)|
    ensures var w := CyclesAmong(left, deps, i)[k]; w.DependencyCycle? && w.declaringId == i && w.missingId in deps
  {
    var n := |deps| - 1;
    if k < |CyclesAmong(left, deps[..n], i)| { CycleIsDeclared(left, deps[..n], i, k); }
  }

  lemma {:induction false} CyclesByDeclaration(left: seq<string>, deps: seq<string>, i: string, k: nat, l: nat)
    requires k < l < |CyclesAmong(left, deps, i)|
    ensures var w := CyclesAmong(left, deps, i); DeclaredBefore(deps, w[k].missingId, w[l].missingId)
  {
    var n := |deps| - 1;
    var before := CyclesAmong(left, deps[..n], i);
    if l < |before| {
      CyclesByDeclaration(left, deps[..n], i, k, l);
      var a, b :| 0 <= a < b < n && deps[..n][a] == before[k].missingId && deps[..n][b] == before[l].missingId;
      assert deps[a] == before[k].missingId && deps[b] == before[l].missingId;
    } else {
      CycleIsDeclared(left, deps[..n], i, k);
      var a :| 0 <= a < n && deps[..n][a] == before[k].missingId;
      assert deps[a] == before[k].missingId && deps[n] == CyclesAmong(left, deps, i)[l].missingId;
    }
  }

  lemma {:induction false} CycleIsOfOrder(g: Graph, left: seq<string>, order: seq<string>, k: nat)
    requires k < |CycleWarnings(g, left, order)|
    ensures CycleWarnings(g, left, order)[k].declaringId in order
  {
    var n := |order| - 1;
    var deps := if order[n] in g.deps then g.deps[order[n]] else [];
    var before := CycleWarnings(g, left, order[..n]);
    if k < |before| {
      CycleIsOfOrder(g, left, order[..n], k);
    } else {
      CycleIsDeclared(left, deps, order[n], k - |before|);
    }
    hide CyclesAmong;
  }

  lemma {:induction false} CyclesInTurn(g: Graph, left: seq<string>, order: seq<string>, k: nat, l: nat)
    requires k < l < |CycleWarnings(g, left, order)|
    ensures InTurn(g, order, CycleWarnings(g, left, order)[k], CycleWarnings(g, left, order)[l])
  {
    hide CyclesAmong, DeclaredBefore;
    var n := |order| - 1;
    var deps := if order[n] in g.deps then g.deps[order[n]] else [];
    var before, w := CycleWarnings(g, left, order[..n]), CycleWarnings(g, left, order);
    assert order == order[..n] + [order[n]] && w == before + CyclesAmong(left, deps, order[n]);
    if l < |before| {
      CyclesInTurn(g, left, order[..n], k, l);
      InTurnStays(g, order[..n], order[n], w[k], w[l]);
    } else {
      CycleIsDeclared(left, deps, order[n], l - |before|);
      if k < |before| {
        CycleIsOfOrder(g, left, order[..n], k);
        var a :| 0 <= a < n && order[..n][a] == w[k].declaringId;
        assert order[a] == w[k].declaringId && order[n] == w[l].declaringId;
      } else {
        CycleIsDeclared(left, deps, order[n], k - |before|);
        CyclesByDeclaration(left, deps, order[n], k - |before|, l - |before|);
      }
    }
  }

  /** The warnings of one kind about different ids come in the order in which those ids were first
      seen, or for cycles alphabetically; those about one id in the order of its declarations. */
  lemma WarningsAreInOrder(m: Manifests, paths: seq<string>, sortedPaths: seq<string>, warnings: seq<Warning>,
                           k: nat, l: nat)
    requires Sorts(m, paths, sortedPaths, warnings) && k < l < |warnings|
    requires warnings[k].MissingDependency? == warnings[l].MissingDependency?
    ensures var v, w := warnings[k], warnings[l];
            if v.declaringId == w.declaringId
            then DeclaredBefore(Declarations(m, paths, v.declaringId), v.missingId, w.missingId)
            else if v.MissingDependency?
            then exists p, q :: p < q && FirstAt(m, paths, v.declaringId, p) && FirstAt(m, paths, w.declaringId, q)
            else Less(v.declaringId, w.declaringId)
  {
    hide MissingWarnings, CycleWarnings, InTurn, DeclaredBefore, FirstAt, Declarations, PathsOf, WithoutManifest,
         KahnOrder, Less;
    var emitted, leftover :| ResultFor(m, paths, emitted, leftover, sortedPaths, warnings);
    var g, ids := GraphOf(m, paths), IdsInOrder(m, paths);
    var missing, cycles := MissingWarnings(g, ids), CycleWarnings(g, leftover, leftover);
    var v, w := warnings[k], warnings[l];
    forall u | u in missing ensures u.MissingDependency? { MissingAreMissing(g, ids, u); }
    forall u | u in cycles ensures u.DependencyCycle? { CyclesAreCycles(g, leftover, leftover, u); }
    DeclarationsAreMapped(m, paths, v.declaringId);
    assert g.Valid();
    hide GraphOf, PathById;
    if l < |missing| {
      assert missing[k] == v && missing[l] == w;
      MissingInTurn(g, ids, k, l);
      if v.declaringId == w.declaringId { InTurnSame(g, ids, v, w); } else { InTurnOfIds(m, paths, g, v, w); }
    } else {
      KindsApart(missing, cycles, k, l);
      assert w == cycles[l - |missing|] && w in cycles;
      CyclesInTurn(g, leftover, leftover, k - |missing|, l - |missing|);
      AscendingIsDistinct(leftover);
      if v.declaringId == w.declaringId { InTurnSame(g, leftover, v, w); } else { InTurnAscending(g, leftover, v, w); }
    }
  }

  lemma KindsApart(missing: seq<Warning>, cycles: seq<Warning>, k: nat, l: nat)
    requires (forall w | w in missing :: w.MissingDependency?) && forall w | w in cycles :: w.DependencyCycle?
    requires k < l < |missing + cycles|
    requires (missing + cycles)[k].MissingDependency? == (missing + cycles)[l].MissingDependency?
    ensures l < |missing| || k >= |missing|
  {
    assert k < |missing| ==> (missing + cycles)[k] in missing;
    assert l >= |missing| ==> (missing + cycles)[l] in cycles;
  }

  lemma InTurnOfIds(m: Manifests, paths: seq<string>, g: Graph, v: Warning, w: Warning)
    requires InTurn(g, IdsInOrder(m, paths), v, w) && v.declaringId != w.declaringId
    ensures exists p, q :: p < q && FirstAt(m, paths, v.declaringId, p) && FirstAt(m, paths, w.declaringId, q)
  {
    hide FirstAt, IdsInOrder, DeclaredBefore;
    var ids := IdsInOrder(m, paths);
    var a, b :| 0 <= a < b < |ids| && ids[a] == v.declaringId && ids[b] == w.declaringId;
    var p := IdsAreFirstSeen(m, paths, a);
    var q := IdsAreFirstSeen(m, paths, b);
    IdsAreInOrder(m, paths, a, b, p, q);
  }

  lemma InTurnSame(g: Graph, order: seq<string>, v: Warning, w: Warning)
    requires InTurn(g, order, v, w) && Distinct(order) && v.declaringId == w.declaringId
    ensures v.declaringId in g.deps && DeclaredBefore(g.deps[v.declaringId], v.missingId, w.missingId)
  {
    hide DeclaredBefore;
  }

  lemma InTurnAscending(g: Graph, order: seq<string>, v: Warning, w: Warning)
    requires InTurn(g, order, v, w) && Ascending(order) && v.declaringId != w.declaringId
    ensures Less(v.declaringId, w.declaringId)
  {
    hide DeclaredBefore, Less;
  }
}
