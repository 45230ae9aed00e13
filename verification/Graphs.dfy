/** Dependency graphs over step indices: reachability, cycles and topological orders. */
module Graphs {

  /** `g[n]` lists the steps that `n` depends on, with multiplicity. */
  type Graph = seq<seq<nat>>

  ghost predicate ValidGraph(g: Graph) {
    forall n, d :: 0 <= n < |g| && d in g[n] ==> d < |g|
  }

  ghost predicate IsPath(g: Graph, p: seq<nat>) {
    && |p| > 0
    && (forall i :: 0 <= i < |p| ==> p[i] < |g|)
    && (forall i :: 0 <= i < |p| - 1 ==> p[i + 1] in g[p[i]])
  }

  ghost predicate PathBetween(g: Graph, p: seq<nat>, a: nat, b: nat) {
    IsPath(g, p) && p[0] == a && p[|p| - 1] == b
  }

  /** `b` is `a` or a transitive dependency of `a`. */
  ghost predicate Reaches(g: Graph, a: nat, b: nat) {
    exists p :: PathBetween(g, p, a, b)
  }

  /** `b` is a transitive dependency of `a`, by at least one edge. */
  ghost predicate ReachesStrictly(g: Graph, a: nat, b: nat) {
    exists p :: PathBetween(g, p, a, b) && |p| > 1
  }

  ghost predicate OnCycle(g: Graph, n: nat) {
    ReachesStrictly(g, n, n)
  }

  ghost predicate Closed(g: Graph, s: set<nat>) {
    forall n, d :: n in s && n < |g| && d in g[n] ==> d in s
  }

  ghost predicate Distinct<T>(s: seq<T>) {
    forall i, j :: 0 <= i < j < |s| ==> s[i] != s[j]
  }

  /** Every step comes after everything it depends on. */
  ghost predicate Topological(g: Graph, order: seq<nat>) {
    && Distinct(order)
    && (forall i :: 0 <= i < |order| ==> order[i] < |g|)
    && (forall i, d :: 0 <= i < |order| && d in g[order[i]] ==> d in order[..i])
  }

  lemma {:induction false} ReachesSelf(g: Graph, a: nat)
    requires a < |g|
    ensures Reaches(g, a, a)
  {
    assert PathBetween(g, [a], a, a);
  }

  /** A path extended by one edge at its end. */
  lemma {:induction false} ReachesExtend(g: Graph, a: nat, b: nat, c: nat)
    requires ValidGraph(g) && Reaches(g, a, b) && b < |g| && c in g[b]
    ensures Reaches(g, a, c) && ReachesStrictly(g, a, c)
  {
    var p :| PathBetween(g, p, a, b);
    var q := p + [c];
    assert PathBetween(g, q, a, c);
  }

  /** A path extended by one edge at its start. */
  lemma {:induction false} ReachesPrepend(g: Graph, a: nat, b: nat, c: nat)
    requires ValidGraph(g) && a < |g| && b in g[a] && Reaches(g, b, c)
    ensures Reaches(g, a, c)
  {
    var p :| PathBetween(g, p, b, c);
    var q := [a] + p;
    assert forall i :: 0 <= i < |q| - 1 ==> q[i + 1] in g[q[i]] by {
      forall i | 0 <= i < |q| - 1 ensures q[i + 1] in g[q[i]] {
        if i > 0 { assert p[i - 1 + 1] in g[p[i - 1]]; }
      }
    }
    assert PathBetween(g, q, a, c);
  }

  lemma {:induction false} StrictIsReaches(g: Graph, a: nat, b: nat)
    requires ReachesStrictly(g, a, b)
    ensures Reaches(g, a, b)
  {
  }

  /** A closed set contains everything reachable from its members. */
  lemma {:induction false} ClosedContainsPath(g: Graph, s: set<nat>, p: seq<nat>)
    requires Closed(g, s) && IsPath(g, p) && p[0] in s
    ensures p[|p| - 1] in s
  {
    if |p| > 1 {
      var q := p[..|p| - 1];
      ClosedContainsPath(g, s, q);
      assert p[|p| - 2 + 1] in g[p[|p| - 2]];
    }
  }

  lemma {:induction false} ClosedContainsReachable(g: Graph, s: set<nat>, a: nat, b: nat)
    requires Closed(g, s) && a in s && Reaches(g, a, b)
    ensures b in s
  {
    var p :| PathBetween(g, p, a, b);
    ClosedContainsPath(g, s, p);
  }

  lemma {:induction false} TopologicalIsClosed(g: Graph, order: seq<nat>)
    requires Topological(g, order)
    ensures Closed(g, set n | n in order)
  {
    forall n, d | n in order && d in g[n] ensures d in order {
      var i :| 0 <= i < |order| && order[i] == n;
      assert d in order[..i];
    }
  }

  /** Following edges inside a topological order only moves to earlier positions. */
  lemma {:induction false} PathMovesEarlier(g: Graph, order: seq<nat>, p: seq<nat>, i: nat) returns (j: nat)
    requires Topological(g, order) && IsPath(g, p) && i < |order| && order[i] == p[0]
    ensures j <= i && order[j] == p[|p| - 1]
    ensures |p| > 1 ==> j < i
  {
    if |p| == 1 {
      j := i;
    } else {
      var q := p[..|p| - 1];
      var k := PathMovesEarlier(g, order, q, i);
      assert p[|p| - 2 + 1] in g[p[|p| - 2]];
      var d := p[|p| - 1];
      assert d in order[..k];
      j :| 0 <= j < k && order[..k][j] == d;
    }
  }

  /** Nothing in a topological order lies on a cycle. */
  lemma {:induction false} TopologicalIsAcyclic(g: Graph, order: seq<nat>, n: nat)
    requires Topological(g, order) && n in order
    ensures !OnCycle(g, n)
  {
    if OnCycle(g, n) {
      var p :| PathBetween(g, p, n, n) && |p| > 1;
      var i :| 0 <= i < |order| && order[i] == n;
      var j := PathMovesEarlier(g, order, p, i);
    }
  }
}
