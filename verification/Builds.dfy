/** The Build object: set up by a search over the graph, then consumed step by step. */
module Builds {
  import opened Graphs
  import opened Manifests
  import opened DependencyDelta
  import opened Histories
  import opened Scheduling
  import opened Construction
  import opened Completion
  import opened Discarding
  import opened CleanSteps
  import opened Files

  class Build {
    const steps: seq<Step>
    const invocations: Invocations
    ghost const graph: Graph
    ghost const known: seq<bool>

    var stepNodes: seq<StepNode>
    var readySteps: seq<StepIndex>
    var remainingFailures: int
    var invokedCommands: nat
    var writtenFiles: map<FileId, Hash>
    var outputFiles: map<FileId, StepIndex>

    /** The steps to build, each after everything it depends on. */
    ghost var order: seq<StepIndex>
    ghost var history: History

    ghost predicate Wellformed() {
      && ValidSteps(steps)
      && ValidInvocations(invocations)
      && graph == DependencyGraph(steps, invocations)
      && ValidGraph(graph)
      && Known(steps, invocations, known)
    }

    constructor (steps: seq<Step>, invocations: Invocations)
      requires ValidSteps(steps) && ValidInvocations(invocations)
      ensures Wellformed()
      ensures this.steps == steps && this.invocations == invocations
      ensures stepNodes == seq(|steps|, n => FRESH_NODE) && order == [] && history == []
      ensures readySteps == [] && remainingFailures == 0 && invokedCommands == 0
      ensures writtenFiles == map[] && outputFiles == map[]
    {
      DependencyGraphValid(steps, invocations);
      this.steps, this.invocations := steps, invocations;
      graph := DependencyGraph(steps, invocations);
      known := seq(|steps|, n requires 0 <= n < |steps| =>
        AllKnown(IndexMap(steps), AdditionalHashes(steps, invocations, n)));
      stepNodes := seq(|steps|, n => FRESH_NODE);
      readySteps, remainingFailures, invokedCommands := [], 0, 0;
      writtenFiles, outputFiles := map[], map[];
      order, history := [], [];
    }

    ghost predicate Searching()
      reads this
    {
      |graph| == |steps| == |known| && ValidGraph(graph) && Search(graph, known, stepNodes, order)
    }

    /**
     Visits a step and, before it is finished, everything it depends on. The result is false
     where the source throws "Dependency cycle".
     */
    method VisitStep(indices: map<Hash, StepIndex>, idx: StepIndex) returns (ok: bool)
      requires Wellformed() && indices == IndexMap(steps)
      requires Searching() && idx < |steps| && StackReaches(graph, stepNodes, idx)
      modifies this`stepNodes, this`order
      ensures ok ==> Searching() && idx in order && !OnStack(old(stepNodes), idx)
      ensures ok ==> Explored(graph, idx, old(stepNodes), old(order), stepNodes, order)
      ensures !ok ==> CycleFrom(graph, idx)
      decreases Unvisited(stepNodes), 1
    {
      ReachesSelf(graph, idx);
      if stepNodes[idx].currentlyVisited {
        assert OnStack(stepNodes, idx);
        return false;
      }
      if stepNodes[idx].shouldBuild {
        return true;
      }
      ghost var nodes, finished := stepNodes, order;
      StartVisiting(graph, known, idx, nodes, finished);
      stepNodes := Open(stepNodes, idx);
      ok := VisitDependencies(indices, idx, nodes, finished);
      if !ok {
        return;
      }
      ok := VisitAdditional(indices, idx, nodes, finished);
      if !ok {
        return;
      }
      FinishVisiting(graph, known, idx, nodes, finished, stepNodes, order);
      stepNodes, order := Close(stepNodes, idx), order + [idx];
    }

    ghost predicate Visits(idx: StepIndex, nodes: seq<StepNode>, finished: seq<StepIndex>)
      reads this
    {
      |graph| == |steps| == |known| && Visiting(graph, known, idx, nodes, finished, stepNodes, order)
    }

    method AddDependency(
      indices: map<Hash, StepIndex>, idx: StepIndex, d: StepIndex,
      ghost nodes: seq<StepNode>, ghost finished: seq<StepIndex>) returns (ok: bool)
      requires Wellformed() && indices == IndexMap(steps)
      requires Visits(idx, nodes, finished)
      requires stepNodes[idx].dependencies < |graph[idx]| && d == graph[idx][stepNodes[idx].dependencies]
      modifies this`stepNodes, this`order
      ensures ok ==> Visits(idx, nodes, finished)
      ensures ok ==> Unvisited(stepNodes) <= old(Unvisited(stepNodes))
      ensures ok ==> stepNodes[idx].dependencies == old(stepNodes[idx].dependencies) + 1
      ensures ok ==> stepNodes[idx].noDirectDependenciesBuilt == old(stepNodes[idx].noDirectDependenciesBuilt)
      ensures !ok ==> CycleFrom(graph, idx)
      decreases Unvisited(stepNodes), 2
    {
      VisitNext(graph, known, idx, d, nodes, finished, stepNodes, order);
      stepNodes := Enter(stepNodes, idx, d);
      ok := VisitStep(indices, d);
      if ok {
        VisitedNext(graph, known, idx, d, nodes, finished, old(stepNodes), old(order), stepNodes, order);
      } else {
        CyclePrepend(graph, idx, d);
      }
    }

    /** The loop over the dependencies that the manifest declares. */
    method VisitDependencies(
      indices: map<Hash, StepIndex>, idx: StepIndex,
      ghost nodes: seq<StepNode>, ghost finished: seq<StepIndex>) returns (ok: bool)
      requires Wellformed() && indices == IndexMap(steps)
      requires Visits(idx, nodes, finished) && stepNodes[idx].dependencies == 0
      modifies this`stepNodes, this`order
      ensures ok ==> Visits(idx, nodes, finished)
      ensures ok ==> stepNodes[idx].dependencies == |steps[idx].dependencies|
      ensures ok ==> stepNodes[idx].noDirectDependenciesBuilt == old(stepNodes[idx].noDirectDependenciesBuilt)
      ensures !ok ==> CycleFrom(graph, idx)
      decreases Unvisited(stepNodes), 3
    {
      var deps := steps[idx].dependencies;
      assert deps <= graph[idx];
      for i := 0 to |deps|
        invariant Visits(idx, nodes, finished) && stepNodes[idx].dependencies == i
        invariant stepNodes[idx].noDirectDependenciesBuilt == old(stepNodes[idx].noDirectDependenciesBuilt)
        invariant Unvisited(stepNodes) <= old(Unvisited(stepNodes))
      {
        ok := AddDependency(indices, idx, deps[i], nodes, finished);
        if !ok {
          return;
        }
      }
      return true;
    }

    /** One additional dependency, which may not exist any more. */
    method VisitHash(
      indices: map<Hash, StepIndex>, idx: StepIndex, hash: Hash,
      ghost nodes: seq<StepNode>, ghost finished: seq<StepIndex>) returns (ok: bool)
      requires Wellformed() && indices == IndexMap(steps)
      requires Visits(idx, nodes, finished)
      requires hash in indices ==>
        stepNodes[idx].dependencies < |graph[idx]| && indices[hash] == graph[idx][stepNodes[idx].dependencies]
      modifies this`stepNodes, this`order
      ensures ok ==> Visits(idx, nodes, finished) && Unvisited(stepNodes) <= old(Unvisited(stepNodes))
      ensures ok ==> stepNodes[idx].dependencies == old(stepNodes[idx].dependencies) + if hash in indices then 1 else 0
      ensures ok ==>
        (stepNodes[idx].noDirectDependenciesBuilt <==>
          old(stepNodes[idx].noDirectDependenciesBuilt) && hash in indices)
      ensures !ok ==> CycleFrom(graph, idx)
      decreases Unvisited(stepNodes), 3
    {
      if hash !in indices {
        VisitedUnknown(graph, known, idx, nodes, finished, stepNodes, order);
        stepNodes := Unknown(stepNodes, idx);
        return true;
      }
      ok := AddDependency(indices, idx, indices[hash], nodes, finished);
    }

    /** The loop over the additional dependencies in the log. */
    method VisitAdditional(
      indices: map<Hash, StepIndex>, idx: StepIndex,
      ghost nodes: seq<StepNode>, ghost finished: seq<StepIndex>) returns (ok: bool)
      requires Wellformed() && indices == IndexMap(steps)
      requires Visits(idx, nodes, finished) && stepNodes[idx].dependencies == |steps[idx].dependencies|
      requires stepNodes[idx].noDirectDependenciesBuilt
      modifies this`stepNodes, this`order
      ensures ok ==> Visits(idx, nodes, finished) && stepNodes[idx].dependencies == |graph[idx]|
      ensures ok ==> stepNodes[idx].noDirectDependenciesBuilt == known[idx]
      ensures !ok ==> CycleFrom(graph, idx)
      decreases Unvisited(stepNodes), 4
    {
      var deps, hashes := steps[idx].dependencies, AdditionalHashes(steps, invocations, idx);
      assert graph[idx] == deps + Decode(indices, hashes);
      for i := 0 to |hashes|
        invariant Visits(idx, nodes, finished)
        invariant stepNodes[idx].dependencies == |deps| + |Decode(indices, hashes[..i])|
        invariant stepNodes[idx].noDirectDependenciesBuilt <==> AllKnown(indices, hashes[..i])
        invariant Unvisited(stepNodes) <= old(Unvisited(stepNodes))
      {
        DecodeTurn(indices, deps, hashes, i);
        ok := VisitHash(indices, idx, hashes[i], nodes, finished);
        if !ok {
          return;
        }
      }
      assert hashes[..|hashes|] == hashes;
      return true;
    }

    /** The graph state is right for the history; `held` is empty outside of the discard phase. */
    ghost predicate Valid(held: set<nat>)
      reads this`order, this`stepNodes, this`readySteps, this`history, this`outputFiles
    {
      && ValidGraph(graph) && ValidInvocations(invocations)
      && Topological(graph, order)
      && Consistent(steps, invocations, graph, known, Closure(order), stepNodes, readySteps, held, history)
      && OwnersIn(outputFiles, Done(history))
    }

    /**
     Fails exactly when a cycle is reachable from the requested steps; otherwise the closure of
     the requested steps is what should be built, and nothing has happened yet.
     */
    method Construct(failuresAllowed: nat, stepsToBuild: seq<StepIndex>) returns (ok: bool)
      requires Wellformed() && order == [] && history == []
      requires stepNodes == seq(|steps|, n => FRESH_NODE) && outputFiles == map[]
      requires forall r :: r in stepsToBuild ==> r < |steps|
      modifies this`stepNodes, this`order, this`readySteps, this`remainingFailures
      ensures ok <==> !CycleRequested(graph, stepsToBuild)
      ensures ok ==> Valid({}) && remainingFailures == failuresAllowed
      ensures ok ==> forall n :: n in order <==> Requested(graph, stepsToBuild, n)
      ensures ok ==> forall n :: 0 <= n < |steps| ==> (stepNodes[n].shouldBuild <==> Requested(graph, stepsToBuild, n))
    {
      var indices := ComputeIndices(steps);
      FreshSearch(graph, known, stepNodes);
      ok := VisitSteps(indices, stepsToBuild);
      if !ok {
        return;
      }
      OrderIsShouldBuild(graph, known, stepNodes, order);
      RequestedInOrder(graph, order, stepsToBuild);
      readySteps := ComputeReadySteps(stepNodes);
      ConsistentAfter(steps, invocations, graph, known, stepNodes, order, readySteps);
      remainingFailures := failuresAllowed;
    }

    method VisitSteps(indices: map<Hash, StepIndex>, stepsToBuild: seq<StepIndex>) returns (ok: bool)
      requires Wellformed() && indices == IndexMap(steps)
      requires Searching() && EmptyStack(stepNodes) && order == []
      requires forall r :: r in stepsToBuild ==> r < |steps|
      modifies this`stepNodes, this`order
      ensures ok ==> Searching() && EmptyStack(stepNodes)
      ensures ok ==> forall r :: r in stepsToBuild ==> r in order
      ensures ok ==> AllRequested(graph, stepsToBuild, order)
      ensures !ok ==> CycleRequested(graph, stepsToBuild)
    {
      for i := 0 to |stepsToBuild|
        invariant Searching() && EmptyStack(stepNodes)
        invariant AllRequested(graph, stepsToBuild, order) && Covered(stepsToBuild, i, order)
      {
        var r := stepsToBuild[i];
        assert r in stepsToBuild && StackReaches(graph, stepNodes, r);
        ghost var nodes, before := stepNodes, order;
        ok := VisitStep(indices, r);
        if !ok {
          return;
        }
        VisitedRequested(graph, known, stepsToBuild, i, nodes, before, stepNodes, order);
      }
      return true;
    }

    /** Enters the ids of output files; false where the source throws because a file is written twice. */
    method AddOutputFiles(idx: StepIndex, ids: seq<FileId>) returns (ok: bool)
      modifies this`outputFiles
      ensures ok <==> FreshOutputs(old(outputFiles), ids)
      ensures ok ==> outputFiles == old(outputFiles) + OutputMap(ids, idx)
    {
      for i := 0 to |ids|
        invariant FreshOutputs(old(outputFiles), ids[..i])
        invariant outputFiles == old(outputFiles) + OutputMap(ids[..i], idx)
      {
        FreshOutputsNext(old(outputFiles), ids, idx, i);
        OutputMapNext(old(outputFiles), ids, idx, i);
        if ids[i].Missing() {
          continue;
        }
        if ids[i] in outputFiles {
          return false;
        }
        outputFiles := outputFiles[ids[i] := idx];
      }
      assert ids[..|ids|] == ids;
      return true;
    }

    /**
     Marks a step as done. The event says why; `held` are ready steps outside of the ready list,
     which the step is one of unless it was launched before.
     */
    method MarkStepNodeAsDone(
      idx: StepIndex, ids: seq<FileId>, skipped: bool, ghost e: Event, ghost held: set<nat>) returns (ok: bool)
      requires Valid(held) && Completing(graph, Closure(order), history, held, e)
      requires e.step == idx && (skipped <==> !e.Succeeded?)
      modifies this`outputFiles, this`stepNodes, this`readySteps, this`history
      ensures ok <==> FreshOutputs(old(outputFiles), ids)
      ensures ok ==> Valid(held - {idx}) && history == old(history) + [e]
      ensures ok ==> outputFiles == old(outputFiles) + OutputMap(ids, idx)
      ensures !ok ==> unchanged(this`stepNodes, this`readySteps, this`history)
    {
      ok := AddOutputFiles(idx, ids);
      if !ok {
        return;
      }
      assert Bounded(graph, Closure(order));
      ConsistentWaiting(
        steps, invocations, graph, known, Closure(order), stepNodes, readySteps, held, history, e);
      ServeDependents(idx, skipped);
      ConsistentServed(
        steps, invocations, graph, known, Closure(order),
        old(stepNodes), old(readySteps), stepNodes, readySteps, skipped, held, history, e);
      Append(history, e);
      OwnersAdd(old(outputFiles), Done(history), ids, idx);
      history := history + [e];
    }

    method ServeDependents(idx: StepIndex, skipped: bool)
      requires ValidInvocations(invocations) && |stepNodes| == |steps| && idx < |steps|
      requires Waiting(stepNodes, readySteps, stepNodes[idx].dependents) && Distinct(readySteps)
      modifies this`stepNodes, this`readySteps
      ensures Served(
        steps, invocations, idx, skipped, old(stepNodes), old(readySteps),
        old(stepNodes)[idx].dependents, stepNodes, readySteps)
    {
      var dependents := stepNodes[idx].dependents;
      ghost var nodes, ready := stepNodes, readySteps;
      ServeStart(steps, invocations, idx, skipped, nodes, ready);
      for k := 0 to |dependents|
        invariant Served(steps, invocations, idx, skipped, nodes, ready, dependents[..k], stepNodes, readySteps)
      {
        var m := dependents[k];
        ServeNext(steps, invocations, idx, skipped, nodes, ready, dependents, k, stepNodes, readySteps);
        var lower := false;
        if !skipped && stepNodes[m].noDirectDependenciesBuilt {
          var ignored := StepIsIgnored(invocations, steps[m].hash, idx);
          lower := !ignored;
        }
        assert stepNodes[m].dependencies != 0;  // the assertion in the source
        ServeStep(steps, invocations, idx, skipped, nodes, ready, dependents, k, stepNodes, readySteps, lower);
        stepNodes := Satisfy(stepNodes, m, lower);
        if stepNodes[m].dependencies == 0 {
          readySteps := readySteps + [m];
        }
      }
      assert dependents[..|dependents|] == dependents;
    }

    method TakeReadyStep(ghost held: set<nat>) returns (n: StepIndex)
      requires Valid(held) && readySteps != []
      modifies this`readySteps
      ensures Valid(held + {n}) && n < |steps| && n !in held
      ensures IsReady(graph, Closure(order), history, n)
      ensures old(readySteps) == readySteps + [n]
    {
      ReadyPop(graph, Closure(order), history, readySteps, held);
      n := readySteps[|readySteps| - 1];
      readySteps := readySteps[..|readySteps| - 1];
    }

    /** Steps that need no command: clean ones and phony ones. */
    ghost function Idle(cleanSteps: seq<bool>): seq<bool>
      requires |cleanSteps| == |steps|
    {
      seq(|steps|, n requires 0 <= n < |steps| => cleanSteps[n] || steps[n].phony)
    }

    ghost predicate MemoCovers(memo: Memo) {
      forall h, f :: h in invocations && f in invocations[h].outputFiles ==> f < |memo|
    }

    /** Where the discarding has come to, starting with `files`. */
    ghost predicate Discarding(
      memo: Memo, idle: seq<bool>, files: map<FileId, StepIndex>,
      held: set<nat>, visited: seq<bool>, discarded: int)
      reads this
    {
      DiscardState(
        steps, invocations, memo, graph, idle, files, history, held, visited, outputFiles, discarded)
    }

    /** Discards one idle step that has been taken from the ready list. */
    method DiscardStep(
      memo: Memo, n: StepIndex, discarded: int, ghost idle: seq<bool>,
      ghost visited: seq<bool>, ghost files: map<FileId, StepIndex>, ghost held: set<nat>)
      returns (result: DiscardResult)
      requires MemoCovers(memo) && n !in held && Valid(held + {n}) && IsReady(graph, Closure(order), history, n)
      requires Discarding(memo, idle, files, held, visited, discarded) && idle[n]
      modifies this`outputFiles, this`stepNodes, this`readySteps, this`history
      ensures result.Count? ==> Valid(held) && history == old(history) + [Discarded(n)]
      ensures result.Count? ==> Discarding(memo, idle, files, held, visited[n := true], result.steps)
      ensures !result.Count? ==> !Recordable(steps, invocations, memo, files, DiscardSet(graph, idle, order))
      ensures !result.Count? ==> history == old(history)
      ensures result == Threw(OutputsUnknown) ==> StepOutputs(steps, invocations, memo, n).None?
      ensures result != Threw(NoError)
    {
      ghost var all, h, files' := DiscardSet(graph, idle, order), history, outputFiles;
      DiscardTurn(graph, idle, order, h, held, visited, n);
      assert held + {n} - {n} == held;
      var ids := OutputFileIdsForBuildStep(steps, invocations, memo, n);
      var ok := false;
      if ids.Some? {
        ok := MarkStepNodeAsDone(n, ids.value, true, Discarded(n), held + {n});
      }
      if !ok {
        DiscardRefused(
          steps, invocations, memo, graph, idle, files, h, held, visited, files', discarded, n, all);
        return Threw(if ids.None? then OutputsUnknown else WrittenTwice);
      }
      DiscardAccepted(steps, invocations, memo, graph, idle, files, h, held, visited, files', discarded, n);
      return Count(discarded + if steps[n].phony then 0 else 1);
    }

    /**
     Takes steps that need not be built out of the graph. Unless two of them share an output, or
     the log does not have the outputs of one, these are exactly the steps that are clean or phony
     together with all that they transitively depend on.
     */
    method DiscardCleanSteps(memo: Memo, cleanSteps: seq<bool>) returns (result: DiscardResult)
      requires Valid({}) && history == [] && |cleanSteps| == |steps| && MemoCovers(memo)
      modifies this`outputFiles, this`stepNodes, this`readySteps, this`history
      ensures
        var all := DiscardSet(graph, Idle(cleanSteps), order);
        && (result.Count? <==> Recordable(steps, invocations, memo, old(outputFiles), all))
        && (result.Count? ==>
              && Valid({}) && AllDiscarded(history) && Done(history) == all
              && Recorded(OutputTable(steps, invocations, memo), old(outputFiles), all, outputFiles)
              && result.steps == |NonPhony(steps, all)|
              && (forall n :: n in readySteps <==> n in order && n !in all && AllIn(graph[n], all)))
      ensures OutputsKnown(steps, invocations, memo, cleanSteps) ==>
        && result != Threw(OutputsUnknown)
        && (result.Count? <==>
              NoClash(
                OutputTable(steps, invocations, memo), old(outputFiles),
                DiscardSet(graph, Idle(cleanSteps), order)))
      ensures result != Threw(NoError)
      ensures AllDiscarded(history) && Legal(graph, Closure(order), history)
    {
      ghost var idle := Idle(cleanSteps);
      var newReadySteps, visited;
      OnlyClashes(memo, cleanSteps);
      result, newReadySteps, visited := ConsumeReadySteps(memo, cleanSteps, idle);
      if result.Count? {
        DiscardOutcome(
          steps, invocations, memo, graph, known, idle, order, stepNodes, old(outputFiles), history,
          newReadySteps, visited, outputFiles, result.steps);
        readySteps := newReadySteps;
      }
    }

    lemma {:induction false} OnlyClashes(memo: Memo, cleanSteps: seq<bool>)
      requires |cleanSteps| == |steps| == |graph|
      ensures
        var all := DiscardSet(graph, Idle(cleanSteps), order);
        OutputsKnown(steps, invocations, memo, cleanSteps) ==>
          (Recordable(steps, invocations, memo, outputFiles, all) <==>
            NoClash(OutputTable(steps, invocations, memo), outputFiles, all))
    {
      if OutputsKnown(steps, invocations, memo, cleanSteps) {
        var idle := Idle(cleanSteps);
        DiscardSetIsIdle(graph, idle, order);
        RecordableIfNoClash(steps, invocations, memo, cleanSteps, outputFiles, DiscardSet(graph, idle, order));
      }
    }

    /** The loop that empties the ready list; steps that are not idle end up in the new one. */
    method ConsumeReadySteps(memo: Memo, cleanSteps: seq<bool>, ghost idle: seq<bool>)
      returns (result: DiscardResult, newReadySteps: seq<StepIndex>, visited: seq<bool>)
      requires Valid({}) && history == [] && |cleanSteps| == |steps| && MemoCovers(memo)
      requires idle == Idle(cleanSteps)
      modifies this`outputFiles, this`stepNodes, this`readySteps, this`history
      ensures result.Count? ==>
        && readySteps == [] && Distinct(newReadySteps) && Valid(Closure(newReadySteps))
        && Discarding(memo, idle, old(outputFiles), Closure(newReadySteps), visited, result.steps)
      ensures !result.Count? ==>
        !Recordable(steps, invocations, memo, old(outputFiles), DiscardSet(graph, idle, order))
      ensures result == Threw(OutputsUnknown) ==> !OutputsKnown(steps, invocations, memo, cleanSteps)
      ensures result != Threw(NoError)
      ensures AllDiscarded(history) && Legal(graph, Closure(order), history)
    {
      ghost var files := outputFiles;
      result, newReadySteps, visited := Count(0), [], seq(|steps|, n => false);
      DiscardPhaseStart(graph, idle, visited);
      while readySteps != []
        invariant result.Count? && Valid(Closure(newReadySteps)) && Distinct(newReadySteps)
        invariant Discarding(memo, idle, files, Closure(newReadySteps), visited, result.steps)
        decreases Closure(order) - Launched(history) - Closure(newReadySteps)
      {
        ghost var held := Closure(newReadySteps);
        var n := TakeReadyStep(held);
        LeftShrinks(Closure(order), history, held, n);
        if visited[n] {
          assert false;
        }
        result, newReadySteps := ConsumeStep(memo, cleanSteps, n, newReadySteps, result.steps, idle, visited, files);
        if !result.Count? {
          return;
        }
        visited := visited[n := true];
      }
    }

    /** Discards a step that was taken from the ready list, or holds it back if its command has to be run. */
    method ConsumeStep(
      memo: Memo, cleanSteps: seq<bool>, n: StepIndex, held: seq<StepIndex>, discarded: int, ghost idle: seq<bool>,
      ghost visited: seq<bool>, ghost files: map<FileId, StepIndex>)
      returns (result: DiscardResult, newHeld: seq<StepIndex>)
      requires MemoCovers(memo) && |cleanSteps| == |steps| && idle == Idle(cleanSteps) && n < |steps|
      requires n !in held && Distinct(held) && Valid(Closure(held) + {n}) && IsReady(graph, Closure(order), history, n)
      requires Discarding(memo, idle, files, Closure(held), visited, discarded) && !visited[n]
      modifies this`outputFiles, this`stepNodes, this`readySteps, this`history
      ensures AllDiscarded(history) && Legal(graph, Closure(order), history)
      ensures result.Count? ==> Valid(Closure(newHeld)) && Distinct(newHeld)
      ensures result.Count? ==> Discarding(memo, idle, files, Closure(newHeld), visited[n := true], result.steps)
      ensures result.Count? ==>
        if idle[n] then newHeld == held && history == old(history) + [Discarded(n)]
        else newHeld == held + [n] && history == old(history) && readySteps == old(readySteps)
      ensures !result.Count? ==> !Recordable(steps, invocations, memo, files, DiscardSet(graph, idle, order))
      ensures result == Threw(OutputsUnknown) ==> !OutputsKnown(steps, invocations, memo, cleanSteps)
      ensures result != Threw(NoError)
    {
      if cleanSteps[n] || steps[n].phony {
        newHeld := held;
        result := DiscardStep(memo, n, discarded, idle, visited, files, Closure(held));
      } else {
        DiscardPhaseHeld(graph, idle, history, Closure(held), visited, n);
        HoldBack(held, n);
        newHeld := held + [n];
        result := Count(discarded);
      }
    }

    /**
     In a build after one that logged the run of step `n`, the flag of `n` is up exactly as long
     as none of the steps that the logged run used has been built.
     */
    lemma {:induction false} LoggedFlag(held: set<nat>, n: StepIndex, used: seq<StepIndex>)
      requires Wellformed() && Valid(held) && DistinctHashes(steps) && n in order
      requires LoggedUse(steps, invocations, n, used)
      ensures stepNodes[n].noDirectDependenciesBuilt <==> forall d :: d in used ==> d !in Built(history)
    {
      DeltaRoundTrip(steps, invocations, n, used);
      assert FlagExact(steps, invocations, graph, known, stepNodes, Built(history), n);
      assert graph[n] == Dependencies(steps, invocations, n);
    }
  }
}
