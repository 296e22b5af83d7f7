/**
 Service dependencies as a directed graph, and when it can be put in order: exactly when no cycle exists.
 */
module DependencyGraph {
  import opened TimeWindows

  type Graph = seq<seq<nat>>

  ghost predicate InGraph(deps: Graph) {
    forall s, k :: 0 <= s < |deps| && 0 <= k < |deps[s]| ==> deps[s][k] < |deps|
  }

  /** A numbering under which every dependency comes before its dependent. */
  ghost predicate IsRank(deps: Graph, rank: seq<nat>) {
    && InGraph(deps)
    && |rank| == |deps|
    && forall s, k :: 0 <= s < |deps| && 0 <= k < |deps[s]| ==> rank[deps[s][k]] < rank[s]
  }

  predicate Edge(deps: Graph, u: nat, v: nat) {
    u < |deps| && v in deps[u]
  }

  /** path[0] depends on path[1], which depends on path[2], and so on. */
  ghost predicate IsPath(deps: Graph, path: seq<nat>) {
    && |path| > 0
    && path[0] < |deps|
    && (|path| > 1 ==> Edge(deps, path[0], path[1]) && IsPath(deps, path[1..]))
  }

  ghost predicate IsCycle(deps: Graph, path: seq<nat>) {
    IsPath(deps, path) && |path| > 1 && path[0] == path[|path| - 1]
  }

  lemma {:induction false} RankFallsAlongPath(deps: Graph, rank: seq<nat>, path: seq<nat>)
    requires IsRank(deps, rank) && IsPath(deps, path) && |path| > 1
    ensures path[|path| - 1] < |deps| && rank[path[|path| - 1]] < rank[path[0]]
  {
    var k :| 0 <= k < |deps[path[0]]| && deps[path[0]][k] == path[1];
    if |path| > 2 {
      RankFallsAlongPath(deps, rank, path[1..]);
    }
  }

  lemma NoCycleIfRanked(deps: Graph, rank: seq<nat>, path: seq<nat>)
    requires IsRank(deps, rank)
    ensures !IsCycle(deps, path)
  {
    if IsCycle(deps, path) {
      RankFallsAlongPath(deps, rank, path);
    }
  }

  /** Every node of rest depends on some node of rest. */
  ghost predicate Leftover(deps: Graph, rest: set<nat>) {
    forall u {:trigger HasNext(deps, rest, u)} :: u in rest ==> HasNext(deps, rest, u)
  }

  ghost predicate HasNext(deps: Graph, rest: set<nat>, u: nat) {
    exists v :: v in rest && Edge(deps, u, v)
  }

  /** There is a walk of any length through the rest. */
  lemma {:induction false} WalkThrough(deps: Graph, rest: set<nat>, s: nat, n: nat) returns (path: seq<nat>)
    requires s in rest && (forall u :: u in rest ==> u < |deps|)
    requires Leftover(deps, rest)
    ensures |path| == n + 1 && path[0] == s && IsPath(deps, path)
    ensures forall i :: 0 <= i < |path| ==> path[i] in rest
    decreases n
  {
    path := [s];
    if n > 0 {
      assert HasNext(deps, rest, s);
      var v :| v in rest && Edge(deps, s, v);
      var tail := WalkThrough(deps, rest, v, n - 1);
      path := [s] + tail;
      assert path[1..] == tail;
    }
  }

  function Members(xs: seq<nat>): set<nat> {
    set x | x in xs
  }

  lemma {:induction false} SetOfDistinct(xs: seq<nat>)
    requires forall i, j :: 0 <= i < j < |xs| ==> xs[i] != xs[j]
    ensures |Members(xs)| == |xs|
  {
    if xs != [] {
      SetOfDistinct(xs[1..]);
      assert xs[0] !in xs[1..];
      assert Members(xs) == Members(xs[1..]) + {xs[0]};
    }
  }

  lemma Pigeonhole(xs: seq<nat>, rest: set<nat>) returns (i: nat, j: nat)
    requires |xs| > |rest| && forall k :: 0 <= k < |xs| ==> xs[k] in rest
    ensures i < j < |xs| && xs[i] == xs[j]
  {
    if forall i, j :: 0 <= i < j < |xs| ==> xs[i] != xs[j] {
      SetOfDistinct(xs);
      SubsetSize(Members(xs), rest);
    }
    i, j :| 0 <= i < j < |xs| && xs[i] == xs[j];
  }

  lemma SubsetSize(a: set<nat>, b: set<nat>)
    requires a <= b
    ensures |a| <= |b|
  {
    if a != {} {
      var x :| x in a;
      SubsetSize(a - {x}, b - {x});
    }
  }

  lemma LeftoverHasCycle(deps: Graph, rest: set<nat>) returns (cycle: seq<nat>)
    requires rest != {} && (forall u :: u in rest ==> u < |deps|)
    requires Leftover(deps, rest)
    ensures IsCycle(deps, cycle)
  {
    var s :| s in rest;
    var walk := WalkThrough(deps, rest, s, |rest|);
    var i, j := Pigeonhole(walk, rest);
    SubPath(deps, walk, i, j);
    cycle := walk[i..j + 1];
  }

  lemma {:induction false} SubPath(deps: Graph, path: seq<nat>, i: nat, j: nat)
    requires IsPath(deps, path) && i <= j < |path|
    ensures IsPath(deps, path[i..j + 1])
    decreases |path|
  {
    if i > 0 {
      SubPath(deps, path[1..], i - 1, j - 1);
      assert path[1..][i - 1..j] == path[i..j + 1];
    } else if j > 0 {
      SubPath(deps, path[1..], 0, j - 1);
      assert path[..j + 1][1..] == path[1..][0..j];
      assert path[0..j + 1] == path[..j + 1];
    }
  }

  /** The library's topological sort, by its contract: a numbering, or none exactly when there is a cycle. */
  method TopologicalRank(deps: Graph) returns (rank: Option<seq<nat>>)
    requires InGraph(deps)
    ensures rank.Some? ==> IsRank(deps, rank.value)
    ensures rank.None? <==> exists cycle :: IsCycle(deps, cycle)
  {
    var r: seq<nat> := seq(|deps|, i => 0);
    rank := None;
    var placed: set<nat> := {};
    ghost var all := Below(|deps|);
    BelowMeaning(|deps|);
    var round := 0;
    while round < |deps|
      invariant 0 <= round <= |deps| && |r| == |deps|
      invariant placed <= all && |placed| == round
      invariant forall s :: s in placed ==> r[s] < round
      invariant forall s, k :: s in placed && 0 <= k < |deps[s]| ==> deps[s][k] in placed && r[deps[s][k]] < r[s]
    {
      var next := FindReady(deps, placed);
      if next.None? {
        assert all - placed != {};
        var cycle := LeftoverHasCycle(deps, all - placed);
        return None;
      }
      r := r[next.value := round];
      placed := placed + {next.value};
      round := round + 1;
    }
    FullSet(placed, all);
    forall path { NoCycleIfRanked(deps, r, path); }
    rank := Some(r);
  }

  function Below(n: nat): set<nat> {
    if n == 0 then {} else Below(n - 1) + {n - 1}
  }

  lemma {:induction false} BelowMeaning(n: nat)
    ensures |Below(n)| == n
    ensures forall s: nat :: s in Below(n) <==> s < n
  {
    if n > 0 {
      BelowMeaning(n - 1);
    }
  }

  lemma FullSet(a: set<nat>, b: set<nat>)
    requires a <= b && |a| == |b|
    ensures a == b
  {
    if x :| x in b && x !in a {
      SubsetSize(a, b - {x});
    }
  }

  /** Some node not yet placed whose dependencies all are, if there is one. */
  method FindReady(deps: Graph, placed: set<nat>) returns (next: Option<nat>)
    requires InGraph(deps)
    ensures next.Some? ==> next.value < |deps| && next.value !in placed && forall d :: d in deps[next.value] ==> d in placed
    ensures next.None? ==> Leftover(deps, Below(|deps|) - placed)
  {
    ghost var rest := Below(|deps|) - placed;
    BelowMeaning(|deps|);
    for s := 0 to |deps|
      invariant forall t {:trigger HasNext(deps, rest, t)} :: 0 <= t < s && t !in placed ==> HasNext(deps, rest, t)
    {
      if s !in placed {
        var ready := true;
        for k := 0 to |deps[s]|
          invariant ready ==> forall j :: 0 <= j < k ==> deps[s][j] in placed
          invariant !ready ==> HasNext(deps, rest, s)
        {
          if deps[s][k] !in placed {
            assert deps[s][k] in rest && Edge(deps, s, deps[s][k]);
            ready := false;
          }
        }
        if ready {
          return Some(s);
        }
      }
    }
    next := None;
  }
}
