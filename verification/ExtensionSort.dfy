/** src/extension-sort.ts: extensions are loaded dependencies first, alphabetically among
    those that could go next; whatever waits for a cycle follows alphabetically. */
module ExtensionSort {
  import opened Text
  import opened DependencyGraph

  datatype Manifest = Manifest(id: string, dependencies: seq<string>)

  /** What is read from disk for each entry path; a path outside the map has no manifest. */
  type Manifests = map<string, Manifest>

  /** The two kinds of warning; the message text follows from the kind and the two ids. */
  datatype Warning =
    | MissingDependency(declaringId: string, missingId: string)
    | DependencyCycle(declaringId: string, missingId: string)

  // ----- Step 1: ids and paths

  function WithoutManifest(m: Manifests, paths: seq<string>): seq<string>
  {
    if paths == [] then []
    else
      var n := |paths| - 1;
      WithoutManifest(m, paths[..n]) + if paths[n] in m then [] else [paths[n]]
  }

  /** Later paths replace earlier ones with the same id. */
  function PathById(m: Manifests, paths: seq<string>): (r: map<string, string>)
    ensures forall id | id in r :: r[id] in m && m[r[id]].id == id && r[id] in paths
  {
    if paths == [] then map[]
    else
      var n := |paths| - 1;
      var r := PathById(m, paths[..n]);
      if paths[n] in m then r[m[paths[n]].id := paths[n]] else r
  }

  /** Ids in the order in which they first appear, which is how a JavaScript Map iterates. */
  function IdsInOrder(m: Manifests, paths: seq<string>): (r: seq<string>)
    ensures Distinct(r)
    ensures forall id :: id in r <==> id in PathById(m, paths)
  {
    if paths == [] then []
    else
      var n := |paths| - 1;
      var r := IdsInOrder(m, paths[..n]);
      if paths[n] in m && m[paths[n]].id !in r then r + [m[paths[n]].id] else r
  }

  /** `ids` lists `all`, each once. */
  ghost predicate Enumerates(ids: seq<string>, all: set<string>)
  {
    Distinct(ids) && forall id :: id in ids <==> id in all
  }

  lemma EnumeratesAt(ids: seq<string>, all: set<string>, n: nat)
    requires Enumerates(ids, all) && n < |ids|
    ensures ids[n] in all && ids[n] !in ids[..n]
    ensures ids[..n + 1] == ids[..n] + [ids[n]] && ids[..n + 1][..n] == ids[..n]
  {
  }

  function GraphOf(m: Manifests, paths: seq<string>): (g: Graph)
    ensures g.Valid()
  {
    var byId := PathById(m, paths);
    Graph(byId.Keys, map id | id in byId :: m[byId[id]].dependencies)
  }

  method BuildIdMap(m: Manifests, paths: seq<string>)
    returns (pathsWithoutId: seq<string>, ids: seq<string>, idToPath: map<string, string>)
    ensures pathsWithoutId == WithoutManifest(m, paths)
    ensures ids == IdsInOrder(m, paths) && idToPath == PathById(m, paths)
  {
    pathsWithoutId, ids, idToPath := [], [], map[];
    for i := 0 to |paths|
      invariant pathsWithoutId == WithoutManifest(m, paths[..i])
      invariant ids == IdsInOrder(m, paths[..i]) && idToPath == PathById(m, paths[..i])
    {
      assert paths[..i + 1][..i] == paths[..i];
      if paths[i] !in m {
        pathsWithoutId := pathsWithoutId + [paths[i]];
      } else {
        var id := m[paths[i]].id;
        if id !in idToPath { ids := ids + [id]; }
        idToPath := idToPath[id := paths[i]];
      }
    }
    assert paths[..|paths|] == paths;
  }

  // ----- Step 2: the graph, with one unit of in-degree for each declaration

  /** How many of `i`'s declarations are of installed ids, other than itself, not in `done`. */
  function Waiting(ids: set<string>, deps: seq<string>, i: string, done: seq<string>): nat
  {
    if deps == [] then 0
    else
      var n := |deps| - 1;
      var last := if deps[n] in ids && deps[n] != i && deps[n] !in done then 1 else 0;
      Waiting(ids, deps[..n], i, done) + last
  }

  /** How often `d` appears as a usable dependency among `deps`, declared by `i`. */
  function Declared(ids: set<string>, deps: seq<string>, d: string, i: string): nat
  {
    if d in ids && d != i then multiset(deps)[d] else 0
  }

  lemma {:induction false} WaitingIsZero(ids: set<string>, deps: seq<string>, i: string, done: seq<string>)
    ensures Waiting(ids, deps, i, done) == 0
            <==> forall d | d in deps && d in ids && d != i :: d in done
  {
    if deps != [] {
      var n := |deps| - 1;
      WaitingIsZero(ids, deps[..n], i, done);
      assert deps == deps[..n] + [deps[n]];
    }
  }

  lemma {:induction false} WaitingDrops(ids: set<string>, deps: seq<string>, i: string, done: seq<string>, d: string)
    requires d !in done
    ensures Waiting(ids, deps, i, done)
         == Waiting(ids, deps, i, done + [d]) + Declared(ids, deps, d, i)
  {
    if deps != [] {
      var n := |deps| - 1;
      WaitingDrops(ids, deps[..n], i, done, d);
      assert deps == deps[..n] + [deps[n]];
      assert deps[n] in done + [d] <==> deps[n] in done || deps[n] == d;
    }
  }

  function MissingAmong(ids: set<string>, deps: seq<string>, i: string): seq<Warning>
  {
    if deps == [] then []
    else
      var n := |deps| - 1;
      MissingAmong(ids, deps[..n], i)
      + if deps[n] in ids || deps[n] == i then [] else [MissingDependency(i, deps[n])]
  }

  lemma NoneMissing(ids: set<string>, i: string)
    ensures MissingAmong(ids, [], i) == []
  {
  }

  lemma MissingPush(ids: set<string>, deps: seq<string>, k: nat, i: string)
    requires k < |deps|
    ensures MissingAmong(ids, deps[..k + 1], i) == MissingAmong(ids, deps[..k], i)
         + if deps[k] in ids || deps[k] == i then [] else [MissingDependency(i, deps[k])]
  {
    assert deps[..k + 1][..k] == deps[..k];
  }

  function MissingWarnings(g: Graph, order: seq<string>): seq<Warning>
  {
    if order == [] then []
    else
      var n := |order| - 1;
      var deps := if order[n] in g.deps then g.deps[order[n]] else [];
      MissingWarnings(g, order[..n]) + MissingAmong(g.ids, deps, order[n])
  }

  /** The counts of Step 2, when `taken[i]` is the part of `i`'s declarations handled so far:
      in-degrees count usable declarations, adjacency lists record each of them once. */
  ghost predicate Counted(ids: set<string>, taken: map<string, seq<string>>,
                          inDegree: map<string, int>, dependents: map<string, seq<string>>)
  {
    DegreesCounted(ids, taken, inDegree) && DependentsCounted(ids, taken, dependents)
  }

  ghost predicate DegreesCounted(ids: set<string>, taken: map<string, seq<string>>, inDegree: map<string, int>)
  {
    && taken.Keys == inDegree.Keys == ids
    && forall i {:trigger inDegree[i]} | i in ids :: inDegree[i] == Waiting(ids, taken[i], i, [])
  }

  ghost predicate DependentsCounted(ids: set<string>, taken: map<string, seq<string>>,
                                    dependents: map<string, seq<string>>)
  {
    && taken.Keys == dependents.Keys == ids
    && forall d, i {:trigger multiset(dependents[d])[i]} | d in ids ::
         multiset(dependents[d])[i] == if i in ids then Declared(ids, taken[i], d, i) else 0
  }

  function NoDegrees(ids: set<string>): map<string, int>
  {
    map id | id in ids :: 0
  }

  function NoDependents(ids: set<string>): map<string, seq<string>>
  {
    map id | id in ids :: []
  }

  lemma CountNone(g: Graph)
    requires g.Valid()
    ensures Counted(g.ids, Handled(g, []), NoDegrees(g.ids), NoDependents(g.ids))
  {
  }

  lemma CountOne(ids: set<string>, taken: map<string, seq<string>>, id: string, x: string,
                 inDegree: map<string, int>, dependents: map<string, seq<string>>)
    requires Counted(ids, taken, inDegree, dependents) && id in ids
    ensures var after := taken[id := taken[id] + [x]];
      if x in ids && x != id
      then Counted(ids, after, inDegree[id := inDegree[id] + 1], dependents[x := dependents[x] + [id]])
      else Counted(ids, after, inDegree, dependents)
  {
    CountDegree(ids, taken, id, x, inDegree);
    CountDependent(ids, taken, id, x, dependents);
    hide DegreesCounted, DependentsCounted;
  }

  lemma CountDegree(ids: set<string>, taken: map<string, seq<string>>, id: string, x: string,
                    inDegree: map<string, int>)
    requires DegreesCounted(ids, taken, inDegree) && id in ids
    ensures DegreesCounted(ids, taken[id := taken[id] + [x]],
                           if x in ids && x != id then inDegree[id := inDegree[id] + 1] else inDegree)
  {
    assert (taken[id] + [x])[..|taken[id]|] == taken[id];
  }

  lemma CountDependent(ids: set<string>, taken: map<string, seq<string>>, id: string, x: string,
                       dependents: map<string, seq<string>>)
    requires DependentsCounted(ids, taken, dependents) && id in ids
    ensures DependentsCounted(ids, taken[id := taken[id] + [x]],
                              if x in ids && x != id then dependents[x := dependents[x] + [id]] else dependents)
  {
  }

  method BuildGraph(g: Graph, ids: seq<string>)
    returns (inDegree: map<string, int>, dependents: map<string, seq<string>>, warnings: seq<Warning>)
    requires g.Valid() && Enumerates(ids, g.ids)
    ensures Counted(g.ids, g.deps, inDegree, dependents)
    ensures warnings == MissingWarnings(g, ids)
  {
    inDegree, dependents := NoDegrees(g.ids), NoDependents(g.ids);
    warnings := [];
    ghost var taken := Handled(g, []);
    CountNone(g);
    NoMissingWarnings(g);
    hide *;
    for n := 0 to |ids|
      invariant Counted(g.ids, taken, inDegree, dependents)
      invariant taken == Handled(g, ids[..n])
      invariant warnings == MissingWarnings(g, ids[..n])
    {
      var id := ids[n];
      EnumeratesAt(ids, g.ids, n);
      HandledPush(g, ids, n);
      var missing;
      inDegree, dependents, missing := AddDeclarations(g, id, taken, inDegree, dependents);
      warnings := warnings + missing;
      taken := taken[id := g.deps[id]];
      assert id in g.deps;
      MissingWarningsPush(g, ids, n);
    }
    assert ids[..|ids|] == ids;
    HandledAll(g, ids);
  }

  /** The declarations of the ids in `order`, and none of the others'. */
  ghost function Handled(g: Graph, order: seq<string>): map<string, seq<string>>
    requires g.Valid()
  {
    map i | i in g.ids :: if i in order then g.deps[i] else []
  }

  lemma HandledPush(g: Graph, order: seq<string>, n: nat)
    requires g.Valid() && n < |order| && order[n] in g.ids && order[n] !in order[..n]
    ensures order[n] in Handled(g, order[..n]) && Handled(g, order[..n])[order[n]] == []
    ensures Handled(g, order[..n + 1]) == Handled(g, order[..n])[order[n] := g.deps[order[n]]]
  {
    assert order[..n + 1] == order[..n] + [order[n]];
  }

  lemma HandledAll(g: Graph, order: seq<string>)
    requires g.Valid() && Enumerates(order, g.ids)
    ensures Handled(g, order) == g.deps
  {
  }

  lemma NoMissingWarnings(g: Graph)
    ensures MissingWarnings(g, []) == []
  {
  }

  lemma MissingWarningsPush(g: Graph, order: seq<string>, n: nat)
    requires n < |order| && order[n] in g.deps
    ensures MissingWarnings(g, order[..n + 1])
         == MissingWarnings(g, order[..n]) + MissingAmong(g.ids, g.deps[order[n]], order[n])
  {
    assert order[..n + 1][..n] == order[..n];
  }

  lemma CountNext(ids: set<string>, taken: map<string, seq<string>>, id: string, deps: seq<string>, k: nat,
                  inDegree: map<string, int>, dependents: map<string, seq<string>>)
    requires id in ids && k < |deps| && Counted(ids, taken[id := deps[..k]], inDegree, dependents)
    ensures inDegree.Keys == dependents.Keys == ids
    ensures var x := deps[k]; var after := taken[id := deps[..k + 1]];
      if x in ids && x != id
      then Counted(ids, after, inDegree[id := inDegree[id] + 1], dependents[x := dependents[x] + [id]])
      else Counted(ids, after, inDegree, dependents)
  {
    var before := taken[id := deps[..k]];
    CountOne(ids, before, id, deps[k], inDegree, dependents);
    TakeOne(taken, id, deps, k);
    assert inDegree.Keys == dependents.Keys == ids;
    hide *;
  }

  lemma TakeOne(taken: map<string, seq<string>>, id: string, deps: seq<string>, k: nat)
    requires k < |deps|
    ensures var before := taken[id := deps[..k]];
      before[id := before[id] + [deps[k]]] == taken[id := deps[..k + 1]]
  {
    assert deps[..k + 1] == deps[..k] + [deps[k]];
  }

  /** The inner loop: one unit of in-degree and one adjacency entry for each usable declaration. */
  method AddDeclarations(g: Graph, id: string, ghost taken: map<string, seq<string>>,
                         degrees: map<string, int>, lists: map<string, seq<string>>)
    returns (inDegree: map<string, int>, dependents: map<string, seq<string>>, warnings: seq<Warning>)
    requires g.Valid() && id in g.ids && Counted(g.ids, taken, degrees, lists) && id in taken && taken[id] == []
    ensures Counted(g.ids, taken[id := g.deps[id]], inDegree, dependents)
    ensures warnings == MissingAmong(g.ids, g.deps[id], id)
  {
    inDegree, dependents, warnings := degrees, lists, [];
    var deps := g.deps[id];
    NoneMissing(g.ids, id);
    hide *;
    assert taken[id := []] == taken;
    for k := 0 to |deps|
      invariant Counted(g.ids, taken[id := deps[..k]], inDegree, dependents)
      invariant warnings == MissingAmong(g.ids, deps[..k], id)
    {
      var depId := deps[k];
      MissingPush(g.ids, deps, k, id);
      CountNext(g.ids, taken, id, deps, k, inDegree, dependents);
      if depId == id {
        // a self-dependency is ignored
      } else if depId !in g.ids {
        warnings := warnings + [MissingDependency(id, depId)];
      } else {
        inDegree := inDegree[id := inDegree[id] + 1];
        dependents := dependents[depId := dependents[depId] + [id]];
      }
    }
    assert deps[..|deps|] == deps;
  }

  // ----- Step 3: Kahn's algorithm

  /** The path of each id; the ids that are sorted all have one. */
  function PathsOf(byId: map<string, string>, order: seq<string>): seq<string>
  {
    seq(|order|, k requires 0 <= k < |order| => if order[k] in byId then byId[order[k]] else "")
  }

  lemma PathsOfAppend(byId: map<string, string>, a: seq<string>, b: seq<string>)
    ensures PathsOf(byId, a + b) == PathsOf(byId, a) + PathsOf(byId, b)
    ensures PathsOf(byId, []) == []
  {
  }

  lemma PathsOfOne(byId: map<string, string>, a: seq<string>, id: string)
    requires id in byId
    ensures PathsOf(byId, a + [id]) == PathsOf(byId, a) + [byId[id]]
  {
  }

  /** The in-degrees count the declarations that still wait for something outside `done`,
      less one for each entry of `given`. */
  ghost predicate Degrees(g: Graph, inDegree: map<string, int>, done: seq<string>, given: seq<string>)
  {
    && g.Valid() && inDegree.Keys == g.ids
    && forall v {:trigger inDegree[v]} | v in g.ids ::
         inDegree[v] == Waiting(g.ids, g.deps[v], v, done) - multiset(given)[v]
  }

  /** `ready` is, in ascending order, what has no unit of in-degree left and is not loaded. */
  ghost predicate Queue(inDegree: map<string, int>, done: seq<string>, ready: seq<string>)
  {
    && Ascending(ready)
    && forall v :: v in ready <==> v in inDegree && v !in done && inDegree[v] == 0
  }

  lemma QueueIsReady(g: Graph, inDegree: map<string, int>, done: seq<string>, ready: seq<string>)
    requires Degrees(g, inDegree, done, []) && Queue(inDegree, done, ready)
    ensures forall v :: v in ready <==> Ready(g, done, v)
    ensures ready != [] ==> LeastReady(g, done, ready[0])
  {
    forall v ensures v in ready <==> Ready(g, done, v) {
      if v in g.ids { WaitingIsZero(g.ids, g.deps[v], v, done); }
    }
    if ready != [] {
      forall w | Ready(g, done, w) ensures !Less(w, ready[0]) {
        HeadIsLeast(ready, w);
        LessIsTotal(ready[0], w);
      }
    }
  }

  /** Taking the first id of the queue extends the greedy order. */
  lemma TakeFirst(g: Graph, inDegree: map<string, int>, done: seq<string>, ready: seq<string>)
    requires Greedy(g, done) && Degrees(g, inDegree, done, []) && Queue(inDegree, done, ready) && ready != []
    ensures ready[0] in g.ids && ready[0] !in done && |done| < |g.ids|
    ensures Greedy(g, done + [ready[0]])
    ensures Queue(inDegree, done + [ready[0]], ready[1..])
  {
    QueueIsReady(g, inDegree, done, ready);
    GreedyStep(g, done, ready[0]);
    GreedyIsDistinct(g, done + [ready[0]]);
    DistinctFits(done + [ready[0]], g.ids);
    AscendingIsDistinct(ready);
    forall v ensures v in ready[1..] <==> v in inDegree && v !in done + [ready[0]] && inDegree[v] == 0 {
      TailMembers(ready, v);
    }
  }

  lemma QueueExhausted(g: Graph, inDegree: map<string, int>, done: seq<string>)
    requires Greedy(g, done) && Degrees(g, inDegree, done, []) && Queue(inDegree, done, [])
    ensures KahnOrder(g, done)
  {
    QueueIsReady(g, inDegree, done, []);
  }

  method Kahn(g: Graph, ids: seq<string>, byId: map<string, string>,
              degrees: map<string, int>, dependents: map<string, seq<string>>)
    returns (sorted: seq<string>, inDegree: map<string, int>, ghost emitted: seq<string>)
    requires g.Valid() && byId.Keys == g.ids && Enumerates(ids, g.ids)
    requires Counted(g.ids, g.deps, degrees, dependents)
    ensures KahnOrder(g, emitted)
    ensures sorted == PathsOf(byId, emitted)
    ensures Degrees(g, inDegree, emitted, [])
  {
    FirstDegrees(g, degrees, dependents);
    PathsOfAppend(byId, [], []);
    assert degrees.Keys == dependents.Keys == g.ids;
    hide *;
    inDegree := degrees;
    sorted, emitted := [], [];
    var ready := ZeroDegree(ids, inDegree);
    while ready != []
      invariant Greedy(g, emitted)
      invariant sorted == PathsOf(byId, emitted)
      invariant Degrees(g, inDegree, emitted, []) && Queue(inDegree, emitted, ready)
      decreases |g.ids| - |emitted|
    {
      TakeFirst(g, inDegree, emitted, ready);
      var id := ready[0];
      ready := ready[1..];
      PathsOfOne(byId, emitted, id);
      sorted := sorted + [byId[id]];
      EachUnitIsListed(g, degrees, dependents, id);
      inDegree, ready := Release(g, id, emitted, dependents[id], inDegree, ready);
      emitted := emitted + [id];
    }
    QueueExhausted(g, inDegree, emitted);
  }

  lemma FirstDegrees(g: Graph, degrees: map<string, int>, dependents: map<string, seq<string>>)
    requires g.Valid() && Counted(g.ids, g.deps, degrees, dependents)
    ensures Degrees(g, degrees, [], []) && Greedy(g, [])
  {
  }

  /** `waiting` lists every usable declaration of `id`, under the id that made it. */
  ghost predicate Lists(g: Graph, id: string, waiting: seq<string>)
  {
    forall v {:trigger multiset(waiting)[v]} ::
      multiset(waiting)[v] == if v in g.ids && v in g.deps then Declared(g.ids, g.deps[v], id, v) else 0
  }

  lemma EachUnitIsListed(g: Graph, degrees: map<string, int>, dependents: map<string, seq<string>>, id: string)
    requires g.Valid() && Counted(g.ids, g.deps, degrees, dependents) && id in g.ids
    ensures Lists(g, id, dependents[id])
  {
  }

  /** The ids that wait for nothing, in alphabetical order. */
  method ZeroDegree(ids: seq<string>, inDegree: map<string, int>) returns (ready: seq<string>)
    requires Enumerates(ids, inDegree.Keys)
    ensures Queue(inDegree, [], ready)
  {
    var zero := [];
    for i := 0 to |ids|
      invariant Distinct(zero)
      invariant forall v :: v in zero <==> v in ids[..i] && inDegree[v] == 0
    {
      assert ids[i] !in ids[..i];
      if inDegree[ids[i]] == 0 { zero := zero + [ids[i]]; }
    }
    SortedIsAscending(zero);
    ready := Sorted(zero);
    assert ids[..|ids|] == ids;
  }

  /** The inner loop: give back one unit of in-degree for each declaration of `id`. */
  method Release(g: Graph, ghost id: string, ghost done: seq<string>, waiting: seq<string>,
                 degrees: map<string, int>, queue: seq<string>)
    returns (inDegree: map<string, int>, ready: seq<string>)
    requires id in g.ids && id !in done && Greedy(g, done) && Lists(g, id, waiting)
    requires Degrees(g, degrees, done, [])
    requires Queue(degrees, done + [id], queue)
    ensures Degrees(g, inDegree, done + [id], [])
    ensures Queue(inDegree, done + [id], ready)
  {
    inDegree, ready := degrees, queue;
    hide *;
    for k := 0 to |waiting|
      invariant Degrees(g, inDegree, done, waiting[..k])
      invariant Queue(inDegree, done + [id], ready)
    {
      var depId := waiting[k];
      ReleaseOne(g, id, done, waiting, k, inDegree, ready);
      var newDegree := inDegree[depId] - 1;
      inDegree := inDegree[depId := newDegree];
      if newDegree == 0 {
        ready := Insert(ready, depId);
      }
    }
    assert waiting[..|waiting|] == waiting;
    AllGiven(g, id, done, waiting, inDegree);
  }

  lemma ReleaseOne(g: Graph, id: string, done: seq<string>, waiting: seq<string>, k: nat,
                   inDegree: map<string, int>, ready: seq<string>)
    requires id in g.ids && id !in done && Greedy(g, done) && Lists(g, id, waiting) && k < |waiting|
    requires Degrees(g, inDegree, done, waiting[..k])
    requires Queue(inDegree, done + [id], ready)
    ensures waiting[k] in inDegree
    ensures var x := waiting[k]; var after := inDegree[x := inDegree[x] - 1];
      && Degrees(g, after, done, waiting[..k + 1])
      && Queue(after, done + [id], if after[x] == 0 then Insert(ready, x) else ready)
  {
    var x := waiting[k];
    assert waiting[..k + 1] == waiting[..k] + [x];
    assert waiting == waiting[..k + 1] + waiting[k + 1..];
    assert multiset(waiting)[x] > multiset(waiting[..k])[x];
    assert Edge(g, id, x);
    WaitingDrops(g.ids, g.deps[x], x, done, id);
    NotYetLoaded(g, done, id, x);
    assert x !in ready;
    InsertKeepsAscending(ready, x);
  }

  lemma AllGiven(g: Graph, id: string, done: seq<string>, waiting: seq<string>, inDegree: map<string, int>)
    requires id !in done && Lists(g, id, waiting) && Degrees(g, inDegree, done, waiting)
    ensures Degrees(g, inDegree, done + [id], [])
  {
    forall v | v in g.ids ensures inDegree[v] == Waiting(g.ids, g.deps[v], v, done + [id]) {
      WaitingDrops(g.ids, g.deps[v], v, done, id);
    }
  }

  lemma NotYetLoaded(g: Graph, done: seq<string>, id: string, v: string)
    requires Greedy(g, done) && id !in done && Edge(g, id, v)
    ensures v !in done + [id]
  {
    GreedyIsDistinct(g, done);
    assert forall k | 0 <= k < |done| && Edge(g, id, done[k]) :: id in done[..k];
  }

  // ----- Step 4: what is left over

  function CyclesAmong(left: seq<string>, deps: seq<string>, i: string): seq<Warning>
  {
    if deps == [] then []
    else
      var n := |deps| - 1;
      CyclesAmong(left, deps[..n], i)
      + if deps[n] != i && deps[n] in left then [DependencyCycle(i, deps[n])] else []
  }

  lemma CyclesPush(left: seq<string>, deps: seq<string>, k: nat, i: string)
    requires k < |deps|
    ensures CyclesAmong(left, deps[..k + 1], i) == CyclesAmong(left, deps[..k], i)
         + if deps[k] != i && deps[k] in left then [DependencyCycle(i, deps[k])] else []
  {
    assert deps[..k + 1][..k] == deps[..k];
  }

  function CycleWarnings(g: Graph, left: seq<string>, order: seq<string>): seq<Warning>
  {
    if order == [] then []
    else
      var n := |order| - 1;
      var deps := if order[n] in g.deps then g.deps[order[n]] else [];
      CycleWarnings(g, left, order[..n]) + CyclesAmong(left, deps, order[n])
  }

  lemma NoCycleWarnings(g: Graph, left: seq<string>)
    ensures CycleWarnings(g, left, []) == []
  {
  }

  lemma CycleWarningsPush(g: Graph, left: seq<string>, order: seq<string>, n: nat)
    requires n < |order| && order[n] in g.deps
    ensures CycleWarnings(g, left, order[..n + 1])
         == CycleWarnings(g, left, order[..n]) + CyclesAmong(left, g.deps[order[n]], order[n])
  {
    assert order[..n + 1][..n] == order[..n];
  }

  /** `order` lists the installed ids: greedily while possible, then the rest ascending. */
  ghost predicate LoadOrder(g: Graph, emitted: seq<string>, leftover: seq<string>)
  {
    && KahnOrder(g, emitted)
    && Ascending(leftover)
    && forall v :: v in leftover <==> v in g.ids && v !in emitted
  }

  /** The ids that still wait for something, in alphabetical order. */
  method Leftover(g: Graph, ids: seq<string>, inDegree: map<string, int>, ghost emitted: seq<string>)
    returns (cycleIds: seq<string>)
    requires Degrees(g, inDegree, emitted, []) && KahnOrder(g, emitted)
    requires Enumerates(ids, g.ids)
    ensures LoadOrder(g, emitted, cycleIds)
  {
    var left := WithDegree(ids, inDegree);
    SortedIsAscending(left);
    cycleIds := Sorted(left);
    forall v ensures v in cycleIds <==> v in g.ids && v !in emitted {
      if v in g.ids { LeftoverHasDegree(g, emitted, v); }
    }
  }

  method WithDegree(ids: seq<string>, inDegree: map<string, int>) returns (left: seq<string>)
    requires Enumerates(ids, inDegree.Keys)
    ensures Distinct(left) && forall v :: v in left <==> v in inDegree && inDegree[v] > 0
  {
    left := [];
    for i := 0 to |ids|
      invariant Distinct(left)
      invariant forall v :: v in left <==> v in ids[..i] && inDegree[v] > 0
    {
      assert ids[i] !in ids[..i];
      if inDegree[ids[i]] > 0 { left := left + [ids[i]]; }
    }
    assert ids[..|ids|] == ids;
  }

  method AppendLeftover(g: Graph, byId: map<string, string>, cycleIds: seq<string>,
                        sortedSoFar: seq<string>, warningsSoFar: seq<Warning>)
    returns (sorted: seq<string>, warnings: seq<Warning>)
    requires g.Valid() && byId.Keys == g.ids && forall id | id in cycleIds :: id in byId
    ensures sorted == sortedSoFar + PathsOf(byId, cycleIds)
    ensures warnings == warningsSoFar + CycleWarnings(g, cycleIds, cycleIds)
  {
    sorted, warnings := sortedSoFar, warningsSoFar;
    NoCycleWarnings(g, cycleIds);
    PathsOfAppend(byId, [], []);
    hide CycleWarnings, CyclesAmong, PathsOf;
    for n := 0 to |cycleIds|
      invariant sorted == sortedSoFar + PathsOf(byId, cycleIds[..n])
      invariant warnings == warningsSoFar + CycleWarnings(g, cycleIds, cycleIds[..n])
    {
      var id := cycleIds[n];
      var warned := WarnOfCycles(cycleIds, g.deps[id], id);
      warnings := warnings + warned;
      sorted := sorted + [byId[id]];
      CycleWarningsPush(g, cycleIds, cycleIds, n);
      assert cycleIds[..n + 1] == cycleIds[..n] + [id];
      PathsOfOne(byId, cycleIds[..n], id);
    }
    assert cycleIds[..|cycleIds|] == cycleIds;
  }

  method WarnOfCycles(cycleIds: seq<string>, deps: seq<string>, id: string) returns (warnings: seq<Warning>)
    ensures warnings == CyclesAmong(cycleIds, deps, id)
  {
    warnings := [];
    for k := 0 to |deps|
      invariant warnings == CyclesAmong(cycleIds, deps[..k], id)
    {
      CyclesPush(cycleIds, deps, k, id);
      if deps[k] != id && deps[k] in cycleIds {
        warnings := warnings + [DependencyCycle(id, deps[k])];
      }
    }
    assert deps[..|deps|] == deps;
  }

  lemma LeftoverHasDegree(g: Graph, s: seq<string>, v: string)
    requires g.Valid() && KahnOrder(g, s) && v in g.ids
    ensures v !in s <==> Waiting(g.ids, g.deps[v], v, s) > 0
  {
    WaitingIsZero(g.ids, g.deps[v], v, s);
    if v in s {
      GreedyIsDistinct(g, s);
      var k :| 0 <= k < |s| && s[k] == v;
      assert forall d | d in g.deps[v] && d in g.ids && d != v :: Edge(g, d, s[k]) && d in s[..k];
    } else {
      var d := LeftoverWaits(g, s, v);
    }
  }

  // ----- The whole function

  /** The paths without a manifest in input order, then those of the load order; and the warnings. */
  ghost predicate ResultFor(m: Manifests, paths: seq<string>, emitted: seq<string>, leftover: seq<string>,
                            sortedPaths: seq<string>, warnings: seq<Warning>)
  {
    var g := GraphOf(m, paths);
    && LoadOrder(g, emitted, leftover)
    && sortedPaths == WithoutManifest(m, paths) + PathsOf(PathById(m, paths), emitted + leftover)
    && warnings == MissingWarnings(g, IdsInOrder(m, paths)) + CycleWarnings(g, leftover, leftover)
  }

  method SortExtensionPaths(m: Manifests, paths: seq<string>)
    returns (sortedPaths: seq<string>, warnings: seq<Warning>)
    ensures exists emitted, leftover :: ResultFor(m, paths, emitted, leftover, sortedPaths, warnings)
  {
    var pathsWithoutId, ids, idToPath := BuildIdMap(m, paths);
    var g := GraphOf(m, paths);
    var inDegree, dependents;
    inDegree, dependents, warnings := BuildGraph(g, ids);
    var sorted;
    ghost var emitted;
    sorted, inDegree, emitted := Kahn(g, ids, idToPath, inDegree, dependents);
    var cycleIds := Leftover(g, ids, inDegree, emitted);
    PathsOfAppend(idToPath, emitted, cycleIds);
    sorted, warnings := AppendLeftover(g, idToPath, cycleIds, sorted, warnings);
    sortedPaths := pathsWithoutId + sorted;
    assert ResultFor(m, paths, emitted, cycleIds, sortedPaths, warnings);
  }

  // ----- What the result means

  /** Every installed id is loaded exactly once, and an emitted id only after all it depends on. */
  lemma EveryIdOnce(g: Graph, emitted: seq<string>, leftover: seq<string>)
    requires LoadOrder(g, emitted, leftover)
    ensures Distinct(emitted + leftover)
    ensures forall v :: v in emitted + leftover <==> v in g.ids
    ensures forall k, d | 0 <= k < |emitted| && Edge(g, d, emitted[k]) :: d in (emitted + leftover)[..k]
  {
    GreedyIsDistinct(g, emitted);
    AscendingIsDistinct(leftover);
    assert forall k | 0 <= k < |leftover| :: leftover[k] in leftover;
    assert forall k | 0 <= k < |emitted| :: (emitted + leftover)[..k] == emitted[..k];
  }

  /** The result is the paths without a manifest followed by each id's path exactly once. */
  lemma EveryPathOnce(m: Manifests, paths: seq<string>, emitted: seq<string>, leftover: seq<string>,
                      sortedPaths: seq<string>, warnings: seq<Warning>)
    requires ResultFor(m, paths, emitted, leftover, sortedPaths, warnings)
    ensures var skip, byId := |WithoutManifest(m, paths)|, PathById(m, paths);
      && |sortedPaths| >= skip && sortedPaths[..skip] == WithoutManifest(m, paths)
      && (forall p :: p in sortedPaths[skip..] <==> p in byId.Values)
      && Distinct(sortedPaths[skip..])
  {
    hide LoadOrder, PathsOf, WithoutManifest, PathById, Distinct, MissingWarnings, CycleWarnings;
    var g, byId := GraphOf(m, paths), PathById(m, paths);
    assert g.ids == byId.Keys;
    EveryIdOnce(g, emitted, leftover);
    PathsAreDistinct(m, byId, emitted + leftover);
    assert sortedPaths[|WithoutManifest(m, paths)|..] == PathsOf(byId, emitted + leftover);
  }

  lemma PathsAreDistinct(m: Manifests, byId: map<string, string>, order: seq<string>)
    requires forall id | id in byId :: byId[id] in m && m[byId[id]].id == id
    requires Distinct(order) && forall id :: id in order <==> id in byId
    ensures Distinct(PathsOf(byId, order))
    ensures forall p :: p in PathsOf(byId, order) <==> p in byId.Values
  {
    var tail := PathsOf(byId, order);
    assert forall k | 0 <= k < |order| :: order[k] in order && tail[k] == byId[order[k]];
    forall id | id in byId ensures byId[id] in tail {
      var k :| 0 <= k < |order| && order[k] == id;
      assert tail[k] == byId[id];
    }
  }

  /** The emitted part is the lexicographically least dependencies-first order of the ids that
      reach no cycle; the rest are the ids that reach one. */
  lemma SortIsLeastTopological(m: Manifests, paths: seq<string>, emitted: seq<string>, leftover: seq<string>)
    requires LoadOrder(GraphOf(m, paths), emitted, leftover)
    ensures var g := GraphOf(m, paths);
      && Topological(g, CycleFree(g), emitted)
      && (forall t | Topological(g, CycleFree(g), t) :: emitted == t || LexLess(emitted, t))
      && (forall v :: v in leftover <==> v in g.ids && ReachesCycle(g, v))
  {
    var g := GraphOf(m, paths);
    KahnIsTopological(g, emitted);
    forall t | Topological(g, CycleFree(g), t) ensures emitted == t || LexLess(emitted, t) {
      KahnIsLeast(g, emitted, t);
    }
    forall v ensures v in leftover <==> v in g.ids && ReachesCycle(g, v) {
      if v in g.ids { LeftoverIffReachesCycle(g, emitted, v); }
    }
  }

  /** One graph has one load order. */
  lemma LoadOrderIsUnique(g: Graph, emitted: seq<string>, leftover: seq<string>,
                          emitted': seq<string>, leftover': seq<string>)
    requires LoadOrder(g, emitted, leftover) && LoadOrder(g, emitted', leftover')
    ensures emitted == emitted' && leftover == leftover'
  {
    KahnIsUnique(g, emitted, emitted');
    AscendingIsUnique(leftover, leftover');
  }

  /** The path kept for an id is that of its last occurrence. */
  lemma {:induction false} LastPathWins(m: Manifests, paths: seq<string>, id: string)
    ensures id in PathById(m, paths) <==> exists k :: 0 <= k < |paths| && paths[k] in m && m[paths[k]].id == id
    ensures forall k | 0 <= k < |paths| && paths[k] in m && m[paths[k]].id == id
              && (forall j | k < j < |paths| && paths[j] in m :: m[paths[j]].id != id)
              :: PathById(m, paths)[id] == paths[k]
  {
    if paths != [] {
      var n := |paths| - 1;
      LastPathWins(m, paths[..n], id);
      assert forall k | 0 <= k < n :: paths[..n][k] == paths[k];
    }
  }

  /** No two occurrences of different paths share an id. */
  ghost predicate DistinctIds(m: Manifests, paths: seq<string>)
  {
    forall p, q | p in paths && q in paths && p in m && q in m && m[p].id == m[q].id :: p == q
  }

  lemma {:induction false} PathByIdWhenDistinct(m: Manifests, paths: seq<string>, id: string)
    requires DistinctIds(m, paths)
    ensures id in PathById(m, paths) <==> exists p :: p in paths && p in m && m[p].id == id
    ensures forall p | p in paths && p in m && m[p].id == id :: PathById(m, paths)[id] == p
  {
    LastPathWins(m, paths, id);
    if p :| p in paths && p in m && m[p].id == id {
      var k :| 0 <= k < |paths| && paths[k] == p;
    }
  }

  lemma SameGraph(m: Manifests, paths: seq<string>, paths': seq<string>)
    requires multiset(paths) == multiset(paths') && DistinctIds(m, paths)
    ensures PathById(m, paths) == PathById(m, paths') && GraphOf(m, paths) == GraphOf(m, paths')
  {
    forall p ensures p in paths <==> p in paths' {
      assert p in multiset(paths) <==> p in multiset(paths');
    }
    forall id ensures id in PathById(m, paths) <==> id in PathById(m, paths')
      ensures id in PathById(m, paths) ==> PathById(m, paths)[id] == PathById(m, paths')[id]
    {
      PathByIdWhenDistinct(m, paths, id);
      PathByIdWhenDistinct(m, paths', id);
    }
  }

  /** With distinct ids, the sorted part does not depend on the order of the input. */
  lemma OrderOfInputIsIrrelevant(m: Manifests, paths: seq<string>, paths': seq<string>,
      emitted: seq<string>, leftover: seq<string>, sortedPaths: seq<string>, warnings: seq<Warning>,
      emitted': seq<string>, leftover': seq<string>, sortedPaths': seq<string>, warnings': seq<Warning>)
    requires multiset(paths) == multiset(paths') && DistinctIds(m, paths)
    requires ResultFor(m, paths, emitted, leftover, sortedPaths, warnings)
    requires ResultFor(m, paths', emitted', leftover', sortedPaths', warnings')
    ensures |WithoutManifest(m, paths)| <= |sortedPaths| && |WithoutManifest(m, paths')| <= |sortedPaths'|
    ensures sortedPaths[|WithoutManifest(m, paths)|..] == sortedPaths'[|WithoutManifest(m, paths')|..]
  {
    SameGraph(m, paths, paths');
    LoadOrderIsUnique(GraphOf(m, paths), emitted, leftover, emitted', leftover');
  }

  /** Paths without a manifest stay in input order, every occurrence of them. */
  lemma {:induction false} WithoutManifestKeeps(m: Manifests, paths: seq<string>, p: string)
    ensures multiset(WithoutManifest(m, paths))[p] == if p in m then 0 else multiset(paths)[p]
  {
    if paths != [] {
      var n := |paths| - 1;
      var head, last := WithoutManifest(m, paths[..n]), if paths[n] in m then [] else [paths[n]];
      assert WithoutManifest(m, paths) == head + last;
      WithoutManifestKeeps(m, paths[..n], p);
      SplitLast(paths);
      hide *;
      AppendCounts(paths[..n], [paths[n]], p);
      AppendCounts(head, last, p);
    }
  }

  /** Whether an id is listed, told from the list without its last id. */
  lemma LastMember(order: seq<string>, i: string)
    requires Distinct(order) && order != []
    ensures var n := |order| - 1;
      && Distinct(order[..n]) && order[n] !in order[..n]
      && (i in order <==> i in order[..n] || i == order[n])
  {
    var n := |order| - 1;
    assert order == order[..n] + [order[n]];
  }

  lemma {:induction false} MissingAmongCounts(ids: set<string>, deps: seq<string>, i: string, w: Warning)
    ensures multiset(MissingAmong(ids, deps, i))[w]
         == if w.MissingDependency? && w.declaringId == i && w.missingId !in ids && w.missingId != i
            then multiset(deps)[w.missingId] else 0
  {
    if deps != [] {
      var n := |deps| - 1;
      MissingAmongCounts(ids, deps[..n], i, w);
      SplitLast(deps);
    }
  }

  /** One warning for each declaration, by an installed id, of an id that is not installed. */
  lemma {:induction false} MissingWarningsCount(g: Graph, order: seq<string>, i: string, d: string)
    requires Distinct(order)
    ensures multiset(MissingWarnings(g, order))[MissingDependency(i, d)]
         == if i in order && i in g.deps && d !in g.ids && d != i then multiset(g.deps[i])[d] else 0
  {
    if order != [] {
      var n := |order| - 1;
      LastMember(order, i);
      var deps := if order[n] in g.deps then g.deps[order[n]] else [];
      var head, more := MissingWarnings(g, order[..n]), MissingAmong(g.ids, deps, order[n]);
      assert MissingWarnings(g, order) == head + more;
      MissingWarningsCount(g, order[..n], i, d);
      MissingAmongCounts(g.ids, deps, order[n], MissingDependency(i, d));
      hide *;
      assert multiset(head + more) == multiset(head) + multiset(more);
    }
  }

  lemma {:induction false} CyclesAmongCounts(left: seq<string>, deps: seq<string>, i: string, w: Warning)
    ensures multiset(CyclesAmong(left, deps, i))[w]
         == if w.DependencyCycle? && w.declaringId == i && w.missingId in left && w.missingId != i
            then multiset(deps)[w.missingId] else 0
  {
    if deps != [] {
      var n := |deps| - 1;
      CyclesAmongCounts(left, deps[..n], i, w);
      SplitLast(deps);
    }
  }

  /** One warning for each declaration, by a left-over id, of another left-over id. */
  lemma {:induction false} CycleWarningsCount(g: Graph, left: seq<string>, order: seq<string>, i: string, d: string)
    requires Distinct(order)
    ensures multiset(CycleWarnings(g, left, order))[DependencyCycle(i, d)]
         == if i in order && i in g.deps && d in left && d != i then multiset(g.deps[i])[d] else 0
  {
    if order != [] {
      var n := |order| - 1;
      LastMember(order, i);
      var deps := if order[n] in g.deps then g.deps[order[n]] else [];
      var head, more := CycleWarnings(g, left, order[..n]), CyclesAmong(left, deps, order[n]);
      assert CycleWarnings(g, left, order) == head + more;
      CycleWarningsCount(g, left, order[..n], i, d);
      CyclesAmongCounts(left, deps, order[n], DependencyCycle(i, d));
      hide *;
      assert multiset(head + more) == multiset(head) + multiset(more);
    }
  }
}
