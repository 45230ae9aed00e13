/** The bookkeeping done when a step is completed, one dependent at a time. */
module Completion {
  import opened Graphs
  import opened Manifests
  import opened Histories
  import opened Scheduling

  /** One of the things that `m` waits for is done; `lower` tells whether its flag is lowered. */
  function Satisfy(nodes: seq<StepNode>, m: nat, lower: bool): seq<StepNode>
    requires m < |nodes|
  {
    nodes[m := nodes[m].(
      dependencies := nodes[m].dependencies - 1,
      noDirectDependenciesBuilt := nodes[m].noDirectDependenciesBuilt && !lower)]
  }

  /** The step really was built, and `m` is not known to ignore it. */
  ghost predicate Lowers(steps: seq<Step>, invocations: Invocations, idx: nat, skipped: bool, m: nat)
    requires m < |steps|
  {
    !skipped && !Ignores(invocations, steps[m].hash, idx)
  }

  /** The node of `m` when the dependents in `served` have been visited. */
  ghost predicate NodeServed(
    steps: seq<Step>, invocations: Invocations, idx: nat, skipped: bool,
    nodes: seq<StepNode>, served: seq<nat>, nodes': seq<StepNode>, m: nat)
    requires m < |nodes| == |nodes'| == |steps|
  {
    && nodes'[m].dependents == nodes[m].dependents
    && nodes'[m].dependencies == nodes[m].dependencies - multiset(served)[m]
    && (nodes'[m].noDirectDependenciesBuilt <==>
          nodes[m].noDirectDependenciesBuilt && !(m in served && Lowers(steps, invocations, idx, skipped, m)))
  }

  ghost predicate Served(
    steps: seq<Step>, invocations: Invocations, idx: nat, skipped: bool,
    nodes: seq<StepNode>, ready: seq<nat>, served: seq<nat>, nodes': seq<StepNode>, ready': seq<nat>)
    requires |nodes| == |steps|
  {
    && |nodes'| == |nodes|
    && (forall m :: m in served ==> m < |nodes|)
    && (forall m :: 0 <= m < |nodes| ==> NodeServed(steps, invocations, idx, skipped, nodes, served, nodes', m))
    && Distinct(ready')
    && (forall m :: m in ready' <==> m in ready || (m in served && nodes'[m].dependencies == 0))
  }

  /** Every dependent waits for at least as many things as it occurs among the dependents, and is not ready. */
  ghost predicate Waiting(nodes: seq<StepNode>, ready: seq<nat>, dependents: seq<nat>) {
    forall m :: m in dependents ==> m < |nodes| && multiset(dependents)[m] <= nodes[m].dependencies && m !in ready
  }

  lemma {:induction false} ServeStart(
    steps: seq<Step>, invocations: Invocations, idx: nat, skipped: bool, nodes: seq<StepNode>, ready: seq<nat>)
    requires |nodes| == |steps| && Distinct(ready)
    ensures Served(steps, invocations, idx, skipped, nodes, ready, [], nodes, ready)
  {
  }

  /** The counter of the next dependent is positive, which is what the source asserts. */
  lemma {:induction false} ServeNext(
    steps: seq<Step>, invocations: Invocations, idx: nat, skipped: bool,
    nodes: seq<StepNode>, ready: seq<nat>, dependents: seq<nat>, k: nat, nodes': seq<StepNode>, ready': seq<nat>)
    requires |nodes| == |steps| && k < |dependents| && Waiting(nodes, ready, dependents)
    requires Served(steps, invocations, idx, skipped, nodes, ready, dependents[..k], nodes', ready')
    ensures dependents[k] < |nodes'| && nodes'[dependents[k]].dependencies > 0
    ensures dependents[k] !in ready'
  {
    var m := dependents[k];
    assert m in dependents;
    assert dependents == dependents[..k] + [m] + dependents[k + 1..];
    assert NodeServed(steps, invocations, idx, skipped, nodes, dependents[..k], nodes', m);
  }

  lemma {:induction false} ServeStep(
    steps: seq<Step>, invocations: Invocations, idx: nat, skipped: bool,
    nodes: seq<StepNode>, ready: seq<nat>, dependents: seq<nat>, k: nat,
    nodes': seq<StepNode>, ready': seq<nat>, lower: bool)
    requires |nodes| == |steps| && k < |dependents| && Waiting(nodes, ready, dependents)
    requires Served(steps, invocations, idx, skipped, nodes, ready, dependents[..k], nodes', ready')
    requires dependents[k] < |nodes|
    requires nodes'[dependents[k]].noDirectDependenciesBuilt ==>
      (lower <==> Lowers(steps, invocations, idx, skipped, dependents[k]))
    ensures
      var m := dependents[k];
      var nodes2 := Satisfy(nodes', m, lower);
      var ready2 := if nodes2[m].dependencies == 0 then ready' + [m] else ready';
      Served(steps, invocations, idx, skipped, nodes, ready, dependents[..k + 1], nodes2, ready2)
  {
    var m := dependents[k];
    var before, after := dependents[..k], dependents[..k + 1];
    assert after == before + [m];
    var nodes2 := Satisfy(nodes', m, lower);
    var ready2 := if nodes2[m].dependencies == 0 then ready' + [m] else ready';
    ServeNext(steps, invocations, idx, skipped, nodes, ready, dependents, k, nodes', ready');
    forall n | 0 <= n < |nodes| ensures NodeServed(steps, invocations, idx, skipped, nodes, after, nodes2, n) {
      assert NodeServed(steps, invocations, idx, skipped, nodes, before, nodes', n);
    }
    forall n ensures n in ready2 <==> n in ready || (n in after && nodes2[n].dependencies == 0) {
      assert n in ready' <==> n in ready || (n in before && nodes'[n].dependencies == 0);
    }
  }

  ghost predicate Bounded(g: Graph, closure: set<nat>) {
    forall n :: n in closure ==> n < |g|
  }

  /** `e` completes a step that is not done: one that was launched, or one that is held back. */
  ghost predicate Completing(g: Graph, closure: set<nat>, h: History, held: set<nat>, e: Event) {
    && LegalEvent(g, closure, h, e) && e.Completes() && e.step !in Done(h)
    && (e.Launches() ==> e.step in held)
  }

  lemma {:induction false} ConsistentWaiting(
    steps: seq<Step>, invocations: Invocations, g: Graph, known: seq<bool>, closure: set<nat>,
    nodes: seq<StepNode>, ready: seq<nat>, held: set<nat>, h: History, e: Event)
    requires Consistent(steps, invocations, g, known, closure, nodes, ready, held, h)
    requires Bounded(g, closure) && Completing(g, closure, h, held, e)
    ensures e.step < |nodes| && Waiting(nodes, ready, nodes[e.step].dependents)
  {
    LegalFacts(g, closure, h);
    var idx := e.step;
    var dependents := nodes[idx].dependents;
    forall m | m in dependents
      ensures m < |nodes| && multiset(dependents)[m] <= nodes[m].dependencies && m !in ready
    {
      assert m in multiset(dependents);
      PendingAdd(g[m], Done(h), idx);
      assert idx in multiset(g[m]);
    }
  }

  lemma {:induction false} CountersServed(
    steps: seq<Step>, invocations: Invocations, g: Graph, closure: set<nat>,
    nodes: seq<StepNode>, ready: seq<nat>, nodes': seq<StepNode>, ready': seq<nat>,
    idx: nat, skipped: bool, done: set<nat>)
    requires |nodes| == |steps| == |g| && idx < |g| && idx !in done
    requires Transposed(g, closure, nodes) && Counted(g, closure, nodes, done)
    requires Served(steps, invocations, idx, skipped, nodes, ready, nodes[idx].dependents, nodes', ready')
    ensures Transposed(g, closure, nodes') && Counted(g, closure, nodes', done + {idx})
  {
    forall m | 0 <= m < |g|
      ensures nodes'[m].dependents == nodes[m].dependents
      ensures m in closure ==> nodes'[m].dependencies == Pending(g[m], done + {idx})
    {
      assert NodeServed(steps, invocations, idx, skipped, nodes, nodes[idx].dependents, nodes', m);
      PendingAdd(g[m], done, idx);
    }
  }

  lemma {:induction false} FlagsServed(
    steps: seq<Step>, invocations: Invocations, g: Graph, known: seq<bool>, closure: set<nat>,
    nodes: seq<StepNode>, ready: seq<nat>, nodes': seq<StepNode>, ready': seq<nat>,
    idx: nat, skipped: bool, built: set<nat>)
    requires |nodes| == |steps| == |g| == |known| && idx < |g|
    requires Transposed(g, closure, nodes) && Flagged(steps, invocations, g, known, closure, nodes, built)
    requires Served(steps, invocations, idx, skipped, nodes, ready, nodes[idx].dependents, nodes', ready')
    ensures Flagged(steps, invocations, g, known, closure, nodes', if skipped then built else built + {idx})
  {
    var dependents := nodes[idx].dependents;
    var built' := if skipped then built else built + {idx};
    forall m | 0 <= m < |g| && m in closure
      ensures FlagExact(steps, invocations, g, known, nodes', built', m)
    {
      assert NodeServed(steps, invocations, idx, skipped, nodes, dependents, nodes', m);
      assert FlagExact(steps, invocations, g, known, nodes, built, m);
      assert m in dependents <==> m in multiset(dependents);
      assert idx in g[m] <==> idx in multiset(g[m]);
    }
  }

  lemma {:induction false} ReadyServed(
    steps: seq<Step>, invocations: Invocations, g: Graph, closure: set<nat>,
    nodes: seq<StepNode>, ready: seq<nat>, nodes': seq<StepNode>, ready': seq<nat>,
    skipped: bool, held: set<nat>, h: History, e: Event)
    requires |nodes| == |steps| == |g| && Bounded(g, closure) && e.step < |g|
    requires Legal(g, closure, h) && Completing(g, closure, h, held, e)
    requires Transposed(g, closure, nodes) && ReadyExactly(g, closure, h, ready, held)
    requires Served(steps, invocations, e.step, skipped, nodes, ready, nodes[e.step].dependents, nodes', ready')
    requires Counted(g, closure, nodes', Done(h) + {e.step})
    ensures ReadyExactly(g, closure, h + [e], ready', held - {e.step})
  {
    LegalFacts(g, closure, h);
    var dependents := nodes[e.step].dependents;
    forall m: nat
      ensures m in ready' <==> IsReady(g, closure, h + [e], m) && m !in held - {e.step}
      ensures m in held - {e.step} ==> IsReady(g, closure, h + [e], m)
    {
      ReadyAfter(g, closure, h, e, m);
      assert m in dependents <==> m in multiset(dependents);
      if m < |g| {
        assert e.step in g[m] <==> e.step in multiset(g[m]);
        PendingZero(g[m], Done(h) + {e.step});
      }
    }
  }

  /** When all dependents have been served, the bookkeeping fits the history with `e` added. */
  lemma {:induction false} ConsistentServed(
    steps: seq<Step>, invocations: Invocations, g: Graph, known: seq<bool>, closure: set<nat>,
    nodes: seq<StepNode>, ready: seq<nat>, nodes': seq<StepNode>, ready': seq<nat>,
    skipped: bool, held: set<nat>, h: History, e: Event)
    requires Consistent(steps, invocations, g, known, closure, nodes, ready, held, h)
    requires Bounded(g, closure) && Completing(g, closure, h, held, e) && (skipped <==> !e.Succeeded?)
    requires e.step < |g|
    requires Served(steps, invocations, e.step, skipped, nodes, ready, nodes[e.step].dependents, nodes', ready')
    ensures Consistent(steps, invocations, g, known, closure, nodes', ready', held - {e.step}, h + [e])
  {
    CountersServed(steps, invocations, g, closure, nodes, ready, nodes', ready', e.step, skipped, Done(h));
    FlagsServed(steps, invocations, g, known, closure, nodes, ready, nodes', ready', e.step, skipped, Built(h));
    ReadyServed(steps, invocations, g, closure, nodes, ready, nodes', ready', skipped, held, h, e);
    LegalAppend(g, closure, h, e);
    Append(h, e);
    assert Built(h) + {} == Built(h);
  }
}
