/** Dependency graphs over extension ids: the greedy order that the load-order algorithm
    emits, and what that order means in terms of paths and cycles. */
module DependencyGraph {
  import opened Text

  /** `deps[i]` lists what `i` declares, with repetitions, itself and ids that are not installed. */
  datatype Graph = Graph(ids: set<string>, deps: map<string, seq<string>>) {
    ghost predicate Valid() { deps.Keys == ids }
  }

  /** `i` depends on the installed id `d`; declaring oneself does not count. */
  predicate Edge(g: Graph, d: string, i: string)
  {
    i in g.ids && i in g.deps && d in g.ids && d != i && d in g.deps[i]
  }

  /** `v` can be loaded after `done`: not yet loaded, and everything it needs is. */
  ghost predicate Ready(g: Graph, done: seq<string>, v: string)
  {
    v in g.ids && v !in done && forall d | Edge(g, d, v) :: d in done
  }

  /** Each id was the first, in string order, of those that could be loaded at its turn. */
  ghost predicate Greedy(g: Graph, s: seq<string>)
  {
    forall k | 0 <= k < |s| :: LeastReady(g, s[..k], s[k])
  }

  ghost predicate LeastReady(g: Graph, done: seq<string>, v: string)
  {
    Ready(g, done, v) && forall w | Ready(g, done, w) :: !Less(w, v)
  }

  /** The greedy order, run until nothing more can be loaded. */
  ghost predicate KahnOrder(g: Graph, s: seq<string>)
  {
    Greedy(g, s) && forall v :: !Ready(g, s, v)
  }

  // ----- Paths and cycles

  /** A dependency path: each id depends on the one after it. */
  ghost predicate IsPath(g: Graph, p: seq<string>)
  {
    p != [] && p[0] in g.ids && forall k | 0 <= k < |p| - 1 :: Edge(g, p[k + 1], p[k])
  }

  ghost predicate PathBetween(g: Graph, p: seq<string>, v: string, c: string)
  {
    IsPath(g, p) && p[0] == v && p[|p| - 1] == c
  }

  ghost predicate OnCycle(g: Graph, c: string)
  {
    exists p :: |p| >= 2 && PathBetween(g, p, c, c)
  }

  ghost predicate ReachesCycle(g: Graph, v: string)
  {
    exists c, p :: PathBetween(g, p, v, c) && OnCycle(g, c)
  }

  /** All of `r`, each once, dependencies first. */
  ghost predicate Topological(g: Graph, r: iset<string>, t: seq<string>)
  {
    && Distinct(t)
    && (forall v :: v in t <==> v in r)
    && forall k, d | 0 <= k < |t| && Edge(g, d, t[k]) :: d in t[..k]
  }

  ghost function CycleFree(g: Graph): iset<string>
  {
    iset v | v in g.ids && !ReachesCycle(g, v)
  }

  // ----- The greedy order

  lemma GreedyStep(g: Graph, s: seq<string>, v: string)
    requires Greedy(g, s) && LeastReady(g, s, v)
    ensures Greedy(g, s + [v])
  {
    var t := s + [v];
    forall k | 0 <= k < |t| ensures LeastReady(g, t[..k], t[k]) {
      assert t[..k] == s[..k];
      if k == |s| { assert s[..k] == s; }
    }
  }

  lemma GreedyIsDistinct(g: Graph, s: seq<string>)
    requires Greedy(g, s)
    ensures Distinct(s)
    ensures forall v | v in s :: v in g.ids
    ensures forall k, d | 0 <= k < |s| && Edge(g, d, s[k]) :: d in s[..k]
  {
    forall i, j | 0 <= i < j < |s| ensures s[i] != s[j] {
      assert LeastReady(g, s[..j], s[j]);
      assert s[..j][i] == s[i];
    }
    forall k | 0 <= k < |s| ensures s[k] in g.ids && forall d | Edge(g, d, s[k]) :: d in s[..k] {
      assert LeastReady(g, s[..k], s[k]);
    }
  }

  /** A path that starts in a greedy order moves strictly towards its front. */
  lemma {:induction false} PathDescends(g: Graph, s: seq<string>, p: seq<string>, i: nat) returns (j: nat)
    requires Greedy(g, s) && IsPath(g, p) && i < |s| && p[0] == s[i]
    ensures j + |p| - 1 <= i && s[j] == p[|p| - 1]
    decreases |p|
  {
    if |p| == 1 {
      j := i;
    } else {
      GreedyIsDistinct(g, s);
      assert Edge(g, p[1], p[0]);
      var m :| 0 <= m < |s[..i]| && s[..i][m] == p[1];
      var q := p[1..];
      assert forall k | 0 <= k < |q| - 1 :: Edge(g, q[k + 1], q[k]) by {
        forall k | 0 <= k < |q| - 1 ensures Edge(g, q[k + 1], q[k]) {
          assert Edge(g, p[k + 2], p[k + 1]);
        }
      }
      j := PathDescends(g, s, q, m);
    }
  }

  lemma EmittedAvoidsCycles(g: Graph, s: seq<string>, v: string)
    requires Greedy(g, s) && v in s
    ensures !ReachesCycle(g, v)
  {
    var i :| 0 <= i < |s| && s[i] == v;
    forall c, p | PathBetween(g, p, v, c) ensures !OnCycle(g, c) {
      var j := PathDescends(g, s, p, i);
      forall q | |q| >= 2 ensures !PathBetween(g, q, c, c) {
        if IsPath(g, q) && q[0] == c {
          var j' := PathDescends(g, s, q, j);
          GreedyIsDistinct(g, s);
          assert s[j'] != s[j];
        }
      }
    }
  }

  /** Each id that could not be loaded waits for another such id. */
  lemma LeftoverWaits(g: Graph, s: seq<string>, v: string) returns (d: string)
    requires KahnOrder(g, s) && v in g.ids && v !in s
    ensures Edge(g, d, v) && d !in s
  {
    assert !Ready(g, s, v);
    d :| Edge(g, d, v) && d !in s;
  }

  lemma {:induction false} LeftoverWalk(g: Graph, s: seq<string>, v: string, n: nat) returns (p: seq<string>)
    requires KahnOrder(g, s) && v in g.ids && v !in s
    ensures |p| == n + 1 && IsPath(g, p) && p[0] == v
    ensures forall x | x in p :: x in g.ids
    decreases n
  {
    if n == 0 {
      p := [v];
    } else {
      var d := LeftoverWaits(g, s, v);
      var q := LeftoverWalk(g, s, d, n - 1);
      p := [v] + q;
      forall k | 0 <= k < |p| - 1 ensures Edge(g, p[k + 1], p[k]) {
        if k > 0 { assert Edge(g, q[k], q[k - 1]); }
      }
    }
  }

  lemma {:induction false} DistinctFits(s: seq<string>, a: set<string>)
    requires Distinct(s) && forall x | x in s :: x in a
    ensures |s| <= |a|
  {
    if s != [] {
      forall x | x in s[1..] ensures x in a - {s[0]} {
        TailMembers(s, x);
      }
      DistinctFits(s[1..], a - {s[0]});
    }
  }

  lemma LeftoverReachesCycle(g: Graph, s: seq<string>, v: string)
    requires KahnOrder(g, s) && v in g.ids && v !in s
    ensures ReachesCycle(g, v)
  {
    var p := LeftoverWalk(g, s, v, |g.ids|);
    assert !Distinct(p) by {
      if Distinct(p) { DistinctFits(p, g.ids); }
    }
    var i, j :| 0 <= i < j < |p| && p[i] == p[j];
    var back, round := p[..i + 1], p[i..j + 1];
    forall k | 0 <= k < |back| - 1 ensures Edge(g, back[k + 1], back[k]) {
      assert Edge(g, p[k + 1], p[k]);
    }
    forall k | 0 <= k < |round| - 1 ensures Edge(g, round[k + 1], round[k]) {
      assert Edge(g, p[i + k + 1], p[i + k]);
    }
    assert p[i] in g.ids;
    assert PathBetween(g, round, p[i], p[i]);
    assert PathBetween(g, back, v, p[i]);
  }

  /** What is left over when nothing more can be loaded is exactly what reaches a cycle. */
  lemma LeftoverIffReachesCycle(g: Graph, s: seq<string>, v: string)
    requires KahnOrder(g, s) && v in g.ids
    ensures v !in s <==> ReachesCycle(g, v)
  {
    if v in s {
      EmittedAvoidsCycles(g, s, v);
    } else {
      LeftoverReachesCycle(g, s, v);
    }
  }

  /** The greedy order is a topological order of the ids that reach no cycle. */
  lemma KahnIsTopological(g: Graph, s: seq<string>)
    requires KahnOrder(g, s)
    ensures Topological(g, CycleFree(g), s)
  {
    GreedyIsDistinct(g, s);
    forall v ensures v in s <==> v in CycleFree(g) {
      if v in g.ids { LeftoverIffReachesCycle(g, s, v); }
    }
  }

  /** Lexicographic order on id sequences of one length: the first difference decides. */
  ghost predicate LexLess(s: seq<string>, t: seq<string>)
  {
    exists k :: 0 <= k < |s| && k < |t| && s[..k] == t[..k] && Less(s[k], t[k])
  }

  /** ... and the lexicographically least of all of them. */
  lemma KahnIsLeast(g: Graph, s: seq<string>, t: seq<string>)
    requires KahnOrder(g, s) && Topological(g, CycleFree(g), t)
    ensures s == t || LexLess(s, t)
  {
    KahnIsTopological(g, s);
    SameMembersSameLength(s, t);
    if s != t {
      var k := FirstDifference(s, t);
      var v := t[k];
      assert v in t;
      assert v !in s[..k] by {
        assert forall i | 0 <= i < k :: s[..k][i] == t[i];
      }
      assert Ready(g, s[..k], v) by {
        forall d | Edge(g, d, v) ensures d in s[..k] { assert d in t[..k]; }
      }
      assert LeastReady(g, s[..k], s[k]);
      LessIsTotal(s[k], t[k]);
    }
  }

  lemma {:induction false} FirstDifference(s: seq<string>, t: seq<string>) returns (k: nat)
    requires |s| == |t| && s != t
    ensures k < |s| && s[..k] == t[..k] && s[k] != t[k]
    decreases |s|
  {
    if s[0] != t[0] {
      k := 0;
    } else {
      assert s == [s[0]] + s[1..] && t == [t[0]] + t[1..];
      var m := FirstDifference(s[1..], t[1..]);
      k := m + 1;
      assert s[..k] == [s[0]] + s[1..][..m] && t[..k] == [t[0]] + t[1..][..m];
    }
  }

  lemma SameMembersSameLength(s: seq<string>, t: seq<string>)
    requires Distinct(s) && Distinct(t) && forall v :: v in s <==> v in t
    ensures |s| == |t|
  {
    DistinctFits(s, set x | x in t);
    DistinctFits(t, set x | x in s);
    MembersBound(s);
    MembersBound(t);
    assert (set x | x in s) == (set x | x in t);
  }

  lemma {:induction false} MembersBound(s: seq<string>)
    ensures |set x | x in s| <= |s|
  {
    if s != [] {
      MembersBound(s[1..]);
      assert (set x | x in s) == {s[0]} + (set x | x in s[1..]);
    }
  }

  /** Two complete greedy orders of one graph coincide. */
  lemma KahnIsUnique(g: Graph, s: seq<string>, t: seq<string>)
    requires KahnOrder(g, s) && KahnOrder(g, t)
    ensures s == t
  {
    KahnIsTopological(g, s);
    KahnIsTopological(g, t);
    SameMembersSameLength(s, t);
    if s != t {
      var k := FirstDifference(s, t);
      assert LeastReady(g, s[..k], s[k]) && LeastReady(g, t[..k], t[k]);
      LessIsTotal(s[k], t[k]);
      assert false;
    }
  }
}
