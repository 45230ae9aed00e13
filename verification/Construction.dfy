/** The state of the depth-first search that sets up a build. */
module Construction {
  import opened Graphs
  import opened Manifests
  import opened Histories
  import opened Scheduling

  /** Steps that the search has not come to yet. */
  ghost function Unvisited(nodes: seq<StepNode>): set<nat> {
    set n | 0 <= n < |nodes| && !nodes[n].shouldBuild
  }

  ghost predicate OnStack(nodes: seq<StepNode>, n: nat) {
    n < |nodes| && nodes[n].currentlyVisited
  }

  /** `order` lists the finished steps, dependencies first; the other visited ones are on the stack. */
  ghost predicate Ordered(g: Graph, nodes: seq<StepNode>, order: seq<nat>) {
    && |nodes| == |g|
    && Topological(g, order)
    && (forall n :: 0 <= n < |g| ==> (n in order <==> nodes[n].shouldBuild && !nodes[n].currentlyVisited))
    && (forall n :: 0 <= n < |g| && nodes[n].currentlyVisited ==> nodes[n].shouldBuild)
  }

  /** `m` occurs among the dependents of `d` once for each entered dependency of `m` on `d`. */
  ghost predicate EnteredPair(g: Graph, nodes: seq<StepNode>, d: nat, m: nat)
    requires |nodes| == |g| && d < |g| && m < |g| && 0 <= nodes[m].dependencies <= |g[m]|
  {
    multiset(nodes[d].dependents)[m] == multiset(g[m][..nodes[m].dependencies])[d]
  }

  /** Each counter says how many of the step's dependencies have been entered in `dependents`. */
  ghost predicate Entered(g: Graph, nodes: seq<StepNode>) {
    && |nodes| == |g|
    && (forall n :: 0 <= n < |g| ==> 0 <= nodes[n].dependencies <= |g[n]|)
    && (forall n :: 0 <= n < |g| && !nodes[n].shouldBuild ==> nodes[n].dependencies == 0)
    && (forall d, m :: 0 <= d < |g| && m in nodes[d].dependents ==> m < |g|)
    && (forall d, m :: 0 <= d < |g| && 0 <= m < |g| ==> EnteredPair(g, nodes, d, m))
  }

  /** Finished steps have all their dependencies entered, and know whether the log could be decoded. */
  ghost predicate Finished(
    g: Graph, known: seq<bool>, nodes: seq<StepNode>, order: seq<nat>)
    requires |nodes| == |g| == |known|
  {
    && (forall n :: 0 <= n < |g| && n in order ==>
          && nodes[n].dependencies == |g[n]|
          && nodes[n].noDirectDependenciesBuilt == known[n])
    && (forall n :: 0 <= n < |g| && !nodes[n].shouldBuild ==> nodes[n].noDirectDependenciesBuilt)
  }

  ghost predicate Search(
    g: Graph, known: seq<bool>, nodes: seq<StepNode>, order: seq<nat>)
    requires |g| == |known|
  {
    Ordered(g, nodes, order) && Entered(g, nodes) && Finished(g, known, nodes, order)
  }

  /** A visit of `idx` finishes only steps that `idx` reaches, and leaves the rest of the stack alone. */
  ghost predicate Explored(
    g: Graph, idx: nat, nodes: seq<StepNode>, order: seq<nat>, nodes': seq<StepNode>, order': seq<nat>)
  {
    && |nodes| == |nodes'| == |g|
    && order <= order'
    && (forall n :: n in order' ==> n in order || Reaches(g, idx, n))
    && Unvisited(nodes') <= Unvisited(nodes)
    && (forall n :: 0 <= n < |g| && n != idx ==> nodes'[n].currentlyVisited == nodes[n].currentlyVisited)
    && (forall n :: 0 <= n < |g| && n != idx && nodes[n].currentlyVisited ==>
          && nodes'[n].dependencies == nodes[n].dependencies
          && nodes'[n].noDirectDependenciesBuilt == nodes[n].noDirectDependenciesBuilt)
  }

  ghost predicate CycleFrom(g: Graph, n: nat) {
    exists c :: Reaches(g, n, c) && OnCycle(g, c)
  }

  lemma {:induction false} CyclePrepend(g: Graph, n: nat, d: nat)
    requires ValidGraph(g) && n < |g| && d in g[n] && CycleFrom(g, d)
    ensures CycleFrom(g, n)
  {
    var c :| Reaches(g, d, c) && OnCycle(g, c);
    ReachesPrepend(g, n, d, c);
  }

  /** Setting `should_build` and `currently_visited`. */
  function Open(nodes: seq<StepNode>, idx: nat): seq<StepNode>
    requires idx < |nodes|
  {
    nodes[idx := nodes[idx].(shouldBuild := true, currentlyVisited := true)]
  }

  /** Entering one more dependency of `idx`, namely `d`. */
  function Enter(nodes: seq<StepNode>, idx: nat, d: nat): seq<StepNode>
    requires idx < |nodes| && d < |nodes|
  {
    var nodes' := nodes[d := nodes[d].(dependents := nodes[d].dependents + [idx])];
    nodes'[idx := nodes'[idx].(dependencies := nodes'[idx].dependencies + 1)]
  }

  function Close(nodes: seq<StepNode>, idx: nat): seq<StepNode>
    requires idx < |nodes|
  {
    nodes[idx := nodes[idx].(currentlyVisited := false)]
  }

  lemma {:induction false} EnterUnvisited(nodes: seq<StepNode>, idx: nat, d: nat)
    requires idx < |nodes| && d < |nodes|
    ensures Unvisited(Enter(nodes, idx, d)) == Unvisited(nodes)
  {
  }

  lemma {:induction false} EnterPair(g: Graph, nodes: seq<StepNode>, idx: nat, d: nat, e: nat, m: nat)
    requires |nodes| == |g| && idx < |g| && d < |g| && e < |g| && m < |g|
    requires 0 <= nodes[m].dependencies <= |g[m]|
    requires 0 <= nodes[idx].dependencies < |g[idx]| && d == g[idx][nodes[idx].dependencies]
    requires EnteredPair(g, nodes, e, m)
    ensures EnteredPair(g, Enter(nodes, idx, d), e, m)
  {
    var k := nodes[idx].dependencies;
    var nodes' := Enter(nodes, idx, d);
    assert g[idx][..k + 1] == g[idx][..k] + [d];
    assert nodes'[e].dependents == nodes[e].dependents + if e == d then [idx] else [];
    assert g[m][..nodes'[m].dependencies] == g[m][..nodes[m].dependencies] + if m == idx then [d] else [];
  }

  lemma {:induction false} EnterNext(g: Graph, nodes: seq<StepNode>, idx: nat, d: nat)
    requires Entered(g, nodes) && idx < |g| && d < |g| && nodes[idx].shouldBuild
    requires nodes[idx].dependencies < |g[idx]| && d == g[idx][nodes[idx].dependencies]
    ensures Entered(g, Enter(nodes, idx, d))
  {
    var nodes' := Enter(nodes, idx, d);
    forall e, m | 0 <= e < |g| && 0 <= m < |g| ensures EnteredPair(g, nodes', e, m) {
      EnterPair(g, nodes, idx, d, e, m);
    }
  }

  /** Giving up on `no_direct_dependencies_built` because a logged dependency is gone. */
  function Unknown(nodes: seq<StepNode>, idx: nat): seq<StepNode>
    requires idx < |nodes|
  {
    nodes[idx := nodes[idx].(noDirectDependenciesBuilt := false)]
  }

  lemma {:induction false} SameEntered(g: Graph, nodes: seq<StepNode>, nodes': seq<StepNode>)
    requires Entered(g, nodes) && |nodes'| == |nodes|
    requires forall n :: 0 <= n < |g| ==>
      nodes'[n].dependents == nodes[n].dependents && nodes'[n].dependencies == nodes[n].dependencies
    requires forall n :: 0 <= n < |g| && nodes[n].shouldBuild ==> nodes'[n].shouldBuild
    ensures Entered(g, nodes')
  {
    forall d, m | 0 <= d < |g| && 0 <= m < |g| ensures EnteredPair(g, nodes', d, m) {
      assert EnteredPair(g, nodes, d, m);
    }
  }

  lemma {:induction false} OpenStep(g: Graph, known: seq<bool>, nodes: seq<StepNode>, order: seq<nat>, idx: nat)
    requires |g| == |known| && Search(g, known, nodes, order)
    requires idx < |g| && !nodes[idx].shouldBuild
    ensures
      var nodes' := Open(nodes, idx);
      && Search(g, known, nodes', order)
      && Explored(g, idx, nodes, order, nodes', order)
      && nodes'[idx].dependencies == 0 && nodes'[idx].noDirectDependenciesBuilt
      && Unvisited(nodes') < Unvisited(nodes)
  {
    assert idx in Unvisited(nodes);
    SameEntered(g, nodes, Open(nodes, idx));
  }

  lemma {:induction false} UnknownStep(g: Graph, known: seq<bool>, nodes: seq<StepNode>, order: seq<nat>, idx: nat)
    requires |g| == |known| && Search(g, known, nodes, order) && OnStack(nodes, idx)
    ensures Search(g, known, Unknown(nodes, idx), order)
  {
    SameEntered(g, nodes, Unknown(nodes, idx));
  }

  lemma {:induction false} EnterStep(
    g: Graph, known: seq<bool>, nodes: seq<StepNode>, order: seq<nat>, idx: nat, d: nat)
    requires |g| == |known| && Search(g, known, nodes, order) && OnStack(nodes, idx) && d < |g|
    requires nodes[idx].dependencies < |g[idx]| && d == g[idx][nodes[idx].dependencies]
    ensures
      var nodes' := Enter(nodes, idx, d);
      Search(g, known, nodes', order)
  {
    EnterNext(g, nodes, idx, d);
  }

  /** Finishing a step whose dependencies are all finished. */
  lemma {:induction false} CloseStep(g: Graph, known: seq<bool>, nodes: seq<StepNode>, order: seq<nat>, idx: nat)
    requires |g| == |known| && Search(g, known, nodes, order) && OnStack(nodes, idx)
    requires nodes[idx].dependencies == |g[idx]| && forall d :: d in g[idx] ==> d in order
    requires nodes[idx].noDirectDependenciesBuilt == known[idx]
    ensures Search(g, known, Close(nodes, idx), order + [idx])
  {
    var nodes', order' := Close(nodes, idx), order + [idx];
    SameEntered(g, nodes, nodes');
    assert idx !in order;
    assert Topological(g, order') by {
      forall i, d | 0 <= i < |order'| && d in g[order'[i]] ensures d in order'[..i] {
        if i < |order| {
          assert order'[..i] == order[..i];
        } else {
          assert order'[..i] == order;
        }
      }
    }
  }

  /** `idx` is being visited since `nodes` and `order`, and the dependencies entered so far are finished. */
  ghost predicate Visiting(
    g: Graph, known: seq<bool>, idx: nat,
    nodes: seq<StepNode>, order: seq<nat>, nodes': seq<StepNode>, order': seq<nat>)
    requires |g| == |known|
  {
    && ValidGraph(g) && Search(g, known, nodes', order') && OnStack(nodes', idx)
    && Explored(g, idx, nodes, order, nodes', order')
    && Unvisited(nodes') < Unvisited(nodes) && !OnStack(nodes, idx)
    && StackReaches(g, nodes, idx)
    && (forall d :: d in g[idx][..nodes'[idx].dependencies] ==> d in order')
  }

  /** Every step on the stack depends on `idx`. */
  ghost predicate StackReaches(g: Graph, nodes: seq<StepNode>, idx: nat) {
    forall c :: OnStack(nodes, c) ==> ReachesStrictly(g, c, idx)
  }

  lemma {:induction false} StartVisiting(g: Graph, known: seq<bool>, idx: nat, nodes: seq<StepNode>, order: seq<nat>)
    requires |g| == |known| && ValidGraph(g) && Search(g, known, nodes, order)
    requires idx < |g| && !nodes[idx].shouldBuild && StackReaches(g, nodes, idx)
    ensures
      var nodes' := Open(nodes, idx);
      && Visiting(g, known, idx, nodes, order, nodes', order)
      && nodes'[idx].dependencies == 0 && nodes'[idx].noDirectDependenciesBuilt
  {
    OpenStep(g, known, nodes, order, idx);
  }

  /** The next dependency can be visited. */
  lemma {:induction false} VisitNext(
    g: Graph, known: seq<bool>, idx: nat, d: nat,
    nodes: seq<StepNode>, order: seq<nat>, nodes': seq<StepNode>, order': seq<nat>)
    requires |g| == |known| && Visiting(g, known, idx, nodes, order, nodes', order')
    requires nodes'[idx].dependencies < |g[idx]| && d == g[idx][nodes'[idx].dependencies]
    ensures d in g[idx] && d < |g|
    ensures
      var entered := Enter(nodes', idx, d);
      Search(g, known, entered, order') && Unvisited(entered) == Unvisited(nodes') && StackReaches(g, entered, d)
  {
    assert d in g[idx];
    EnterStep(g, known, nodes', order', idx, d);
    EnterUnvisited(nodes', idx, d);
    ReachesSelf(g, idx);
    var entered := Enter(nodes', idx, d);
    forall c | OnStack(entered, c) ensures ReachesStrictly(g, c, d) {
      if c != idx { assert OnStack(nodes, c); StrictIsReaches(g, c, idx); }
      ReachesExtend(g, c, idx, d);
    }
  }

  /** A visit of a dependency is part of the visit of `idx`. */
  lemma {:induction false} VisitedNext(
    g: Graph, known: seq<bool>, idx: nat, d: nat, nodes: seq<StepNode>, order: seq<nat>,
    nodes1: seq<StepNode>, order1: seq<nat>, nodes2: seq<StepNode>, order2: seq<nat>)
    requires |g| == |known| && Visiting(g, known, idx, nodes, order, nodes1, order1)
    requires nodes1[idx].dependencies < |g[idx]| && d == g[idx][nodes1[idx].dependencies] && d < |g|
    requires Search(g, known, nodes2, order2) && d in order2 && !OnStack(nodes1, d)
    requires Explored(g, d, Enter(nodes1, idx, d), order1, nodes2, order2)
    ensures Visiting(g, known, idx, nodes, order, nodes2, order2)
    ensures Unvisited(nodes2) <= Unvisited(nodes1)
    ensures nodes2[idx].dependencies == nodes1[idx].dependencies + 1
    ensures nodes2[idx].noDirectDependenciesBuilt == nodes1[idx].noDirectDependenciesBuilt
  {
    var k := nodes1[idx].dependencies;
    assert g[idx][..k + 1] == g[idx][..k] + [d];
    assert d in g[idx];
    EnterUnvisited(nodes1, idx, d);
    forall n | n in order2 && n !in order1 ensures Reaches(g, idx, n) {
      ReachesPrepend(g, idx, d, n);
    }
  }

  lemma {:induction false} VisitedUnknown(
    g: Graph, known: seq<bool>, idx: nat,
    nodes: seq<StepNode>, order: seq<nat>, nodes': seq<StepNode>, order': seq<nat>)
    requires |g| == |known| && Visiting(g, known, idx, nodes, order, nodes', order')
    ensures Visiting(g, known, idx, nodes, order, Unknown(nodes', idx), order')
    ensures Unvisited(Unknown(nodes', idx)) == Unvisited(nodes')
  {
    UnknownStep(g, known, nodes', order', idx);
    assert Unvisited(Unknown(nodes', idx)) == Unvisited(nodes');
  }

  lemma {:induction false} FinishVisiting(
    g: Graph, known: seq<bool>, idx: nat,
    nodes: seq<StepNode>, order: seq<nat>, nodes': seq<StepNode>, order': seq<nat>)
    requires |g| == |known| && Visiting(g, known, idx, nodes, order, nodes', order')
    requires nodes'[idx].dependencies == |g[idx]| && nodes'[idx].noDirectDependenciesBuilt == known[idx]
    ensures Search(g, known, Close(nodes', idx), order' + [idx])
    ensures Explored(g, idx, nodes, order, Close(nodes', idx), order' + [idx])
  {
    assert g[idx][..|g[idx]|] == g[idx];
    CloseStep(g, known, nodes', order', idx);
    ReachesSelf(g, idx);
    assert Unvisited(Close(nodes', idx)) == Unvisited(nodes');
  }

  ghost predicate EmptyStack(nodes: seq<StepNode>) {
    forall c :: !OnStack(nodes, c)
  }

  /** `n` is one of the requested steps or a transitive dependency of one. */
  ghost predicate Requested(g: Graph, stepsToBuild: seq<nat>, n: nat) {
    exists r :: r in stepsToBuild && Reaches(g, r, n)
  }

  ghost predicate CycleRequested(g: Graph, stepsToBuild: seq<nat>) {
    exists r :: r in stepsToBuild && CycleFrom(g, r)
  }

  ghost predicate AllRequested(g: Graph, stepsToBuild: seq<nat>, order: seq<nat>) {
    forall n :: n in order ==> Requested(g, stepsToBuild, n)
  }

  /** The first `i` requested steps are finished. */
  ghost predicate Covered(stepsToBuild: seq<nat>, i: nat, order: seq<nat>)
    requires i <= |stepsToBuild|
  {
    forall k :: 0 <= k < i ==> stepsToBuild[k] in order
  }

  lemma {:induction false} VisitedRequested(
    g: Graph, known: seq<bool>, stepsToBuild: seq<nat>, i: nat,
    nodes: seq<StepNode>, order: seq<nat>, nodes': seq<StepNode>, order': seq<nat>)
    requires |g| == |known| && i < |stepsToBuild| && EmptyStack(nodes)
    requires Explored(g, stepsToBuild[i], nodes, order, nodes', order')
    requires Search(g, known, nodes', order') && stepsToBuild[i] in order'
    requires AllRequested(g, stepsToBuild, order) && Covered(stepsToBuild, i, order)
    ensures EmptyStack(nodes')
    ensures AllRequested(g, stepsToBuild, order') && Covered(stepsToBuild, i + 1, order')
  {
    assert stepsToBuild[i] in stepsToBuild;
    forall c ensures !OnStack(nodes', c) {
      assert !OnStack(nodes, c);
    }
  }

  lemma {:induction false} OrderIsShouldBuild(g: Graph, known: seq<bool>, nodes: seq<StepNode>, order: seq<nat>)
    requires |g| == |known| && Search(g, known, nodes, order) && EmptyStack(nodes)
    ensures forall n :: 0 <= n < |nodes| ==> (nodes[n].shouldBuild <==> n in order)
  {
    forall n | 0 <= n < |nodes| ensures nodes[n].shouldBuild <==> n in order {
      assert !OnStack(nodes, n);
    }
  }

  /** A topological order that has the requested steps has all they depend on, so there is no cycle. */
  lemma {:induction false} RequestedInOrder(g: Graph, order: seq<nat>, stepsToBuild: seq<nat>)
    requires Topological(g, order) && forall r :: r in stepsToBuild ==> r in order
    ensures forall n :: Requested(g, stepsToBuild, n) ==> n in order
    ensures !CycleRequested(g, stepsToBuild)
  {
    TopologicalIsClosed(g, order);
    forall r, n | r in stepsToBuild && Reaches(g, r, n) ensures n in order && !OnCycle(g, n) {
      ClosedContainsReachable(g, Closure(order), r, n);
      TopologicalIsAcyclic(g, order, n);
    }
  }

  lemma {:induction false} FreshSearch(g: Graph, known: seq<bool>, nodes: seq<StepNode>)
    requires |nodes| == |g| == |known| && forall n :: 0 <= n < |nodes| ==> nodes[n] == FRESH_NODE
    ensures Search(g, known, nodes, []) && EmptyStack(nodes)
  {
    forall d, m | 0 <= d < |g| && 0 <= m < |g| ensures EnteredPair(g, nodes, d, m) {
      assert g[m][..0] == [];
    }
  }

  lemma {:induction false} TransposedAfter(g: Graph, known: seq<bool>, nodes: seq<StepNode>, order: seq<nat>)
    requires |g| == |known| && Search(g, known, nodes, order) && EmptyStack(nodes)
    ensures Transposed(g, Closure(order), nodes)
  {
    forall d, m | 0 <= d < |g| && 0 <= m < |g|
      ensures multiset(nodes[d].dependents)[m] == if m in Closure(order) then multiset(g[m])[d] else 0
    {
      assert EnteredPair(g, nodes, d, m);
      assert !OnStack(nodes, m);
      assert g[m][..|g[m]|] == g[m];
    }
  }

  /** A completed search leaves a build in which nothing has happened yet. */
  lemma {:induction false} ConsistentAfter(
    steps: seq<Step>, invocations: Invocations, g: Graph, known: seq<bool>,
    nodes: seq<StepNode>, order: seq<nat>, ready: seq<nat>)
    requires |g| == |known| == |steps| && Search(g, known, nodes, order) && EmptyStack(nodes)
    requires StrictlySorted(ready)
    requires forall m: nat :: m in ready <==> Startable(nodes, m)
    ensures Consistent(steps, invocations, g, known, Closure(order), nodes, ready, {}, [])
  {
    TransposedAfter(g, known, nodes, order);
    assert Done([]) == {} && Built([]) == {} && Launched([]) == {};
    var closure := Closure(order);
    forall m | 0 <= m < |g| && m in closure
      ensures nodes[m].dependencies == Pending(g[m], {}) && FlagExact(steps, invocations, g, known, nodes, {}, m)
    {
      PendingNone(g[m]);
    }
    forall m: nat ensures m in ready <==> IsReady(g, closure, [], m) {
      assert m in ready <==> Startable(nodes, m);
      assert !OnStack(nodes, m);
      if m < |g| && m in closure {
        PendingZero(g[m], {});
      }
    }
  }
}
