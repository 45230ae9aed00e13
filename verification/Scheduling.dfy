/** The per-step bookkeeping of a build and the invariants that tie it to the graph and the history. */
module Scheduling {
  import opened Graphs
  import opened Manifests
  import opened Histories

  datatype StepNode = StepNode(
    dependents: seq<StepIndex>,
    dependencies: int,
    noDirectDependenciesBuilt: bool,
    shouldBuild: bool,
    currentlyVisited: bool)

  const FRESH_NODE := StepNode([], 0, true, false, false)

  /** The number of occurrences in `deps` of steps that are not done. */
  ghost function Pending(deps: seq<nat>, done: set<nat>): nat {
    if deps == [] then 0
    else (if deps[0] in done then 0 else 1) + Pending(deps[1..], done)
  }

  ghost predicate AllIn(deps: seq<nat>, done: set<nat>) {
    forall d :: d in deps ==> d in done
  }

  lemma {:induction false} PendingZero(deps: seq<nat>, done: set<nat>)
    ensures Pending(deps, done) == 0 <==> AllIn(deps, done)
  {
    if deps != [] {
      PendingZero(deps[1..], done);
      assert deps == [deps[0]] + deps[1..];
    }
  }

  lemma {:induction false} PendingAdd(deps: seq<nat>, done: set<nat>, n: nat)
    requires n !in done
    ensures Pending(deps, done) == Pending(deps, done + {n}) + multiset(deps)[n]
  {
    if deps != [] {
      PendingAdd(deps[1..], done, n);
      assert deps == [deps[0]] + deps[1..];
    }
  }

  lemma {:induction false} PendingNone(deps: seq<nat>)
    ensures Pending(deps, {}) == |deps|
  {
    if deps != [] {
      PendingNone(deps[1..]);
    }
  }

  /** `dependents` is the transpose of the dependency lists of the closure, counted with multiplicity. */
  ghost predicate Transposed(g: Graph, closure: set<nat>, nodes: seq<StepNode>) {
    && |nodes| == |g|
    && (forall d, m :: 0 <= d < |g| && m in nodes[d].dependents ==> m < |g|)
    && (forall d, m :: 0 <= d < |g| && 0 <= m < |g| ==>
          multiset(nodes[d].dependents)[m] == if m in closure then multiset(g[m])[d] else 0)
  }

  /** Each counter is the number of dependency occurrences that are not done. */
  ghost predicate Counted(g: Graph, closure: set<nat>, nodes: seq<StepNode>, done: set<nat>)
    requires |nodes| == |g|
  {
    forall m :: 0 <= m < |g| && m in closure ==> nodes[m].dependencies == Pending(g[m], done)
  }

  /** `known[m]` tells whether every additional dependency logged for `m` still exists. */
  ghost predicate Known(steps: seq<Step>, invocations: Invocations, known: seq<bool>) {
    && |known| == |steps|
    && forall m :: 0 <= m < |steps| ==>
         (known[m] <==> AllKnown(IndexMap(steps), AdditionalHashes(steps, invocations, m)))
  }

  /** The flag of `m` is lowered exactly by a dependency that was built and that the log does not ignore. */
  ghost predicate FlagExact(
    steps: seq<Step>, invocations: Invocations,
    g: Graph, known: seq<bool>, nodes: seq<StepNode>, built: set<nat>, m: nat)
    requires m < |nodes| == |g| == |steps| == |known|
  {
    nodes[m].noDirectDependenciesBuilt <==>
      known[m] && forall d :: d in g[m] && d in built ==> Ignores(invocations, steps[m].hash, d)
  }

  ghost predicate Flagged(
    steps: seq<Step>, invocations: Invocations,
    g: Graph, known: seq<bool>, closure: set<nat>, nodes: seq<StepNode>, built: set<nat>)
    requires |nodes| == |g| == |steps| == |known|
  {
    forall m :: 0 <= m < |g| && m in closure ==> FlagExact(steps, invocations, g, known, nodes, built, m)
  }

  /** The step has not been launched, and nothing it depends on is left to do. */
  ghost predicate IsReady(g: Graph, closure: set<nat>, h: History, m: nat) {
    m < |g| && m in closure && m !in Launched(h) && AllIn(g[m], Done(h))
  }

  /** The list holds each ready step once, apart from those that are held back. */
  ghost predicate ReadyExactly(g: Graph, closure: set<nat>, h: History, ready: seq<nat>, held: set<nat>) {
    && Distinct(ready)
    && (forall m :: m in held ==> IsReady(g, closure, h, m))
    && (forall m :: m in ready <==> IsReady(g, closure, h, m) && m !in held)
  }

  /** Completing `e.step` makes ready the steps that had only that step left to wait for. */
  lemma {:induction false} ReadyAfter(g: Graph, closure: set<nat>, h: History, e: Event, m: nat)
    requires Legal(g, closure, h) && LegalEvent(g, closure, h, e) && e.Completes()
    requires e.step !in Done(h)
    ensures IsReady(g, closure, h + [e], m) <==>
      || (IsReady(g, closure, h, m) && m != e.step)
      || (m < |g| && m in closure && m != e.step && e.step in g[m] && AllIn(g[m], Done(h) + {e.step}))
  {
    Append(h, e);
    LegalFacts(g, closure, h);
  }

  ghost function Closure(order: seq<nat>): set<nat> {
    set n | n in order
  }

  /** The invariant of a build in progress. `held` are ready steps that are kept outside of `ready`. */
  ghost predicate Consistent(
    steps: seq<Step>, invocations: Invocations, g: Graph, known: seq<bool>, closure: set<nat>,
    nodes: seq<StepNode>, ready: seq<nat>, held: set<nat>, h: History)
  {
    && |nodes| == |g| == |steps| == |known|
    && Legal(g, closure, h)
    && Transposed(g, closure, nodes)
    && Counted(g, closure, nodes, Done(h))
    && Flagged(steps, invocations, g, known, closure, nodes, Built(h))
    && ReadyExactly(g, closure, h, ready, held)
  }

  /** Taking the last element off the ready list. */
  lemma {:induction false} ReadyPop(
    g: Graph, closure: set<nat>, h: History, ready: seq<nat>, held: set<nat>)
    requires ReadyExactly(g, closure, h, ready, held) && ready != []
    ensures
      var n := ready[|ready| - 1];
      && n !in held && IsReady(g, closure, h, n)
      && ReadyExactly(g, closure, h, ready[..|ready| - 1], held + {n})
  {
    var n, rest := ready[|ready| - 1], ready[..|ready| - 1];
    assert ready == rest + [n];
    assert n in ready && n !in rest;
  }

  /** The test that `computeReadySteps` applies to each node. */
  ghost predicate Startable(nodes: seq<StepNode>, m: nat) {
    m < |nodes| && nodes[m].shouldBuild && nodes[m].dependencies == 0
  }

  method ComputeReadySteps(nodes: seq<StepNode>) returns (ready: seq<StepIndex>)
    ensures StrictlySorted(ready)
    ensures forall m: nat :: m in ready <==> Startable(nodes, m)
  {
    ready := [];
    for i := 0 to |nodes|
      invariant StrictlySorted(ready) && forall j :: 0 <= j < |ready| ==> ready[j] < i
      invariant forall m: nat :: m in ready <==> m < i && Startable(nodes, m)
    {
      if nodes[i].shouldBuild && nodes[i].dependencies == 0 {
        ready := ready + [i];
      }
    }
  }
}
