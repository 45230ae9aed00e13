/** Running a build: commands are handed to a command runner that reports on them in any order. */
module BuildRuns {
  import opened Graphs
  import opened Manifests
  import opened DependencyDelta
  import opened Histories
  import opened Scheduling
  import opened Construction
  import opened Completion
  import opened Discarding
  import opened CleanSteps
  import opened Files
  import opened Builds
  import opened BuildLogs
  import opened Reports

  /** An input file as it is now, next to its fingerprint: whether size and mode are the same, and the hash it had. */
  datatype InputState = InputState(fileId: FileId, sameStat: bool, originalHash: Hash)

  /** The file was not written in this build, or has the same contents again. */
  ghost predicate InputKept(writtenFiles: map<FileId, Hash>, input: InputState) {
    input.fileId in writtenFiles ==> input.sameStat && input.originalHash == writtenFiles[input.fileId]
  }

  /** How a build ends; the last two stand for the exceptions. */
  datatype BuildResult =
    | NoWorkToDo | BuildSucceeded | BuildInterrupted | BuildFailed
    | DependencyCycle | BuildThrew(error: Error)

  /** A command is handed to the runner. */
  lemma {:induction false} StartStep(
    steps: seq<Step>, invocations: Invocations, g: Graph, known: seq<bool>, closure: set<nat>,
    nodes: seq<StepNode>, ready: seq<nat>, h: History, n: nat)
    requires Consistent(steps, invocations, g, known, closure, nodes, ready, {n}, h)
    ensures Consistent(steps, invocations, g, known, closure, nodes, ready, {}, h + [Started(n)])
    ensures Done(h + [Started(n)]) == Done(h) && Running(h + [Started(n)]) == Running(h) + {n}
    ensures Built(h + [Started(n)]) == Built(h)
  {
    assert n in {n};
    assert IsReady(g, closure, h, n);
    Append(h, Started(n));
    LegalAppend(g, closure, h, Started(n));
    LegalFacts(g, closure, h);
    var h' := h + [Started(n)];
    assert Done(h') == Done(h) && Built(h') == Built(h) && FailedSteps(h') == FailedSteps(h);
    forall m: nat ensures IsReady(g, closure, h', m) <==> IsReady(g, closure, h, m) && m != n {
    }
  }

  /** A command has failed; the steps that depend on it will not become ready. */
  lemma {:induction false} FailStep(
    steps: seq<Step>, invocations: Invocations, g: Graph, known: seq<bool>, closure: set<nat>,
    nodes: seq<StepNode>, ready: seq<nat>, h: History, n: nat)
    requires Consistent(steps, invocations, g, known, closure, nodes, ready, {}, h) && n in Running(h)
    ensures Consistent(steps, invocations, g, known, closure, nodes, ready, {}, h + [Failed(n)])
    ensures Done(h + [Failed(n)]) == Done(h) && Running(h + [Failed(n)]) == Running(h) - {n}
    ensures Built(h + [Failed(n)]) == Built(h)
  {
    Append(h, Failed(n));
    LegalAppend(g, closure, h, Failed(n));
    var h' := h + [Failed(n)];
    assert Done(h') == Done(h) && Built(h') == Built(h) && Launched(h') == Launched(h);
    forall m: nat ensures IsReady(g, closure, h', m) <==> IsReady(g, closure, h, m) {
    }
  }

  /** Neither the step nor anything it transitively depends on has failed. */
  ghost predicate Unaffected(g: Graph, h: History, n: nat) {
    forall m :: Reaches(g, n, m) ==> m !in FailedSteps(h)
  }

  lemma {:induction false} UnaffectedStep(g: Graph, h: History, n: nat)
    requires ValidGraph(g) && n < |g|
    ensures Unaffected(g, h, n) <==> n !in FailedSteps(h) && forall d :: d in g[n] ==> Unaffected(g, h, d)
  {
    ReachesSelf(g, n);
    if Unaffected(g, h, n) {
      forall d, m | d in g[n] && Reaches(g, d, m) ensures m !in FailedSteps(h) {
        ReachesPrepend(g, n, d, m);
      }
    }
    if n !in FailedSteps(h) && forall d :: d in g[n] ==> Unaffected(g, h, d) {
      forall m | Reaches(g, n, m) ensures m !in FailedSteps(h) {
        ReachesFirst(g, n, m);
        if n != m {
          var d :| d in g[n] && Reaches(g, d, m);
          assert Unaffected(g, h, d);
        }
      }
    }
  }

  lemma {:induction false} NotStranded(g: Graph, closure: set<nat>, h: History, n: nat)
    requires ValidGraph(g) && Legal(g, closure, h) && n in closure && n < |g|
    requires !IsReady(g, closure, h, n) && n !in Running(h)
    requires forall d :: d in g[n] ==> (d in Done(h) <==> Unaffected(g, h, d))
    ensures n in Done(h) <==> Unaffected(g, h, n)
  {
    LegalFacts(g, closure, h);
    UnaffectedStep(g, h, n);
  }

  /** When nothing is ready and nothing is running, a step is done unless a failure keeps it from being built. */
  lemma {:induction false} NothingStranded(g: Graph, order: seq<nat>, h: History, k: nat)
    requires ValidGraph(g) && Topological(g, order) && Legal(g, Closure(order), h) && k <= |order|
    requires ReadyExactly(g, Closure(order), h, [], {}) && Running(h) == {}
    ensures forall i :: 0 <= i < k ==> (order[i] in Done(h) <==> Unaffected(g, h, order[i]))
  {
    if k > 0 {
      NothingStranded(g, order, h, k - 1);
      var n := order[k - 1];
      forall d | d in g[n] ensures d in Done(h) <==> Unaffected(g, h, d) {
        assert d in order[..k - 1];
        var i :| 0 <= i < k - 1 && order[i] == d;
      }
      assert !IsReady(g, Closure(order), h, n);
      NotStranded(g, Closure(order), h, n);
    }
  }

  /** Steps whose turn came during the run, whether or not their command was needed. */
  ghost function Attempted(h: History): set<nat> {
    set i | 0 <= i < |h| && (h[i].Started? || h[i].Bypassed?) :: h[i].step
  }

  ghost function Remaining(allowed: nat, failures: nat): nat {
    if failures < allowed then allowed - failures else 0
  }

  /** No step's turn comes once as many commands have failed as are allowed to. */
  ghost predicate BudgetKept(h: History, allowed: nat) {
    forall i :: 0 <= i < |h| && (h[i].Started? || h[i].Bypassed?) ==> |FailedSteps(h[..i])| < allowed
  }

  /** The two counters of a run. */
  ghost predicate Tallied(steps: seq<Step>, h: History, allowed: nat, remaining: int, invoked: int) {
    && BudgetKept(h, allowed)
    && remaining == Remaining(allowed, |FailedSteps(h)|)
    && invoked == |NonPhony(steps, Attempted(h))|
  }

  lemma {:induction false} AttemptedAppend(h: History, e: Event)
    ensures Attempted(h + [e]) == Attempted(h) + if e.Started? || e.Bypassed? then {e.step} else {}
    ensures Attempted(h) <= Launched(h)
  {
    var t := h + [e];
    assert forall i :: 0 <= i < |h| ==> t[i] == h[i];
    assert t[|h|] == e;
    forall x | x in Attempted(h) ensures x in Attempted(t) {
      var i :| 0 <= i < |h| && (h[i].Started? || h[i].Bypassed?) && h[i].step == x;
      assert t[i].step == x;
    }
  }

  lemma {:induction false} BudgetAppend(h: History, allowed: nat, e: Event)
    requires BudgetKept(h, allowed)
    requires e.Started? || e.Bypassed? ==> |FailedSteps(h)| < allowed
    ensures BudgetKept(h + [e], allowed)
  {
    var t := h + [e];
    forall i | 0 <= i < |t| && (t[i].Started? || t[i].Bypassed?) ensures |FailedSteps(t[..i])| < allowed {
      if i < |h| {
        assert t[i] == h[i] && t[..i] == h[..i];
      } else {
        assert t[..i] == h;
      }
    }
  }

  lemma {:induction false} InvokedAppend(steps: seq<Step>, h: History, e: Event)
    requires e.step < |steps| && (e.Started? || e.Bypassed? ==> e.step !in Launched(h))
    ensures |NonPhony(steps, Attempted(h + [e]))| == |NonPhony(steps, Attempted(h))| +
      if (e.Started? || e.Bypassed?) && !steps[e.step].phony then 1 else 0
  {
    AttemptedAppend(h, e);
    if e.Started? || e.Bypassed? {
      NonPhonyAdd(steps, Attempted(h), e.step);
    } else {
      assert Attempted(h + [e]) == Attempted(h);
    }
  }

  lemma {:induction false} FailuresAppend(h: History, e: Event)
    requires e.Failed? ==> e.step !in FailedSteps(h)
    ensures |FailedSteps(h + [e])| == |FailedSteps(h)| + if e.Failed? then 1 else 0
  {
    Append(h, e);
    if !e.Failed? {
      assert FailedSteps(h + [e]) == FailedSteps(h);
    }
  }

  /** How each event of a run changes the counters. */
  lemma {:induction false} TalliedAppend(
    steps: seq<Step>, h: History, allowed: nat, remaining: int, invoked: int, e: Event)
    requires Tallied(steps, h, allowed, remaining, invoked) && e.step < |steps|
    requires e.Started? || e.Bypassed? ==> remaining > 0 && e.step !in Launched(h)
    requires e.Failed? ==> e.step !in FailedSteps(h)
    requires !e.Discarded?
    ensures Tallied(
      steps, h + [e], allowed,
      if e.Failed? && remaining > 0 then remaining - 1 else remaining,
      if (e.Started? || e.Bypassed?) && !steps[e.step].phony then invoked + 1 else invoked)
  {
    BudgetAppend(h, allowed, e);
    InvokedAppend(steps, h, e);
    FailuresAppend(h, e);
  }

  /**
   A command is skipped only for a step that was clean at the start, and always for one that in
   addition has no built dependency other than ignored ones.
   */
  ghost predicate EventJustified(
    steps: seq<Step>, invocations: Invocations, g: Graph, known: seq<bool>, clean: seq<bool>, before: History, e: Event)
    requires |steps| == |g| == |known| == |clean|
  {
    && e.step < |g|
    && (e.Bypassed? ==> clean[e.step])
    && (e.Started? && clean[e.step] && known[e.step] ==>
          exists d :: d in g[e.step] && d in Built(before) && !Ignores(invocations, steps[e.step].hash, d))
  }

  ghost predicate Justified(
    steps: seq<Step>, invocations: Invocations, g: Graph, known: seq<bool>, clean: seq<bool>, h: History)
    requires |steps| == |g| == |known| == |clean|
  {
    forall i :: 0 <= i < |h| ==> EventJustified(steps, invocations, g, known, clean, h[..i], h[i])
  }

  lemma {:induction false} JustifiedAppend(
    steps: seq<Step>, invocations: Invocations, g: Graph, known: seq<bool>, clean: seq<bool>, h: History, e: Event)
    requires |steps| == |g| == |known| == |clean|
    requires Justified(steps, invocations, g, known, clean, h)
    requires EventJustified(steps, invocations, g, known, clean, h, e)
    ensures Justified(steps, invocations, g, known, clean, h + [e])
  {
    var t := h + [e];
    forall i | 0 <= i < |t| ensures EventJustified(steps, invocations, g, known, clean, t[..i], t[i]) {
      if i < |h| {
        assert t[i] == h[i] && t[..i] == h[..i];
      } else {
        assert t[..i] == h;
      }
    }
  }

  /** What is counted, logged and justified in a run. */
  ghost predicate Ledger(
    steps: seq<Step>, invocations: Invocations, g: Graph, known: seq<bool>, clean: seq<bool>,
    logged: seq<seq<FileId>>, allowed: nat, reports: Reports, log: seq<LogRecord>, uses: seq<seq<StepIndex>>,
    h: History, remaining: int, invoked: int)
  {
    && |steps| == |g| == |known| == |clean|
    && Tallied(steps, h, allowed, remaining, invoked)
    && Logged(steps, log, uses, h)
    && AllDerived(logged, reports, h, log, uses)
    && Justified(steps, invocations, g, known, clean, h)
  }

  /** An event for which nothing is logged. */
  lemma {:induction false} LedgerAppend(
    steps: seq<Step>, invocations: Invocations, g: Graph, known: seq<bool>, clean: seq<bool>,
    logged: seq<seq<FileId>>, allowed: nat, reports: Reports, reports': Reports,
    log: seq<LogRecord>, uses: seq<seq<StepIndex>>, h: History, remaining: int, invoked: int, e: Event)
    requires Ledger(
      steps, invocations, g, known, clean, logged, allowed, reports, log, uses, h, remaining, invoked)
    requires Built(h) <= Done(h) && Agree(reports, reports', Built(h))
    requires e.step < |steps| && !e.Discarded?
    requires e.Started? || e.Bypassed? ==> remaining > 0 && e.step !in Launched(h)
    requires e.Failed? ==> e.step !in FailedSteps(h)
    requires EventJustified(steps, invocations, g, known, clean, h, e)
    ensures Ledger(
      steps, invocations, g, known, clean, logged, allowed, reports', log, uses, h + [e],
      if e.Failed? && remaining > 0 then remaining - 1 else remaining,
      if (e.Started? || e.Bypassed?) && !steps[e.step].phony then invoked + 1 else invoked)
  {
    JustifiedAppend(steps, invocations, g, known, clean, h, e);
    LoggedMore(steps, log, uses, h, e);
    AllDerivedMore(steps, logged, reports, reports', h, h + [e], log, uses);
    TalliedAppend(steps, h, allowed, remaining, invoked, e);
  }

  /** A success, of which there may be a new record. */
  lemma {:induction false} LedgerSucceeded(
    steps: seq<Step>, invocations: Invocations, g: Graph, known: seq<bool>, clean: seq<bool>,
    logged: seq<seq<FileId>>, allowed: nat, reports: Reports, reports': Reports,
    log: seq<LogRecord>, uses: seq<seq<StepIndex>>, log': seq<LogRecord>, uses': seq<seq<StepIndex>>,
    h: History, remaining: int, invoked: int, n: StepIndex)
    requires Ledger(
      steps, invocations, g, known, clean, logged, allowed, reports, log, uses, h, remaining, invoked)
    requires n < |steps|
    requires Logged(steps, log', uses', h + [Succeeded(n)])
    requires AllDerived(logged, reports', h + [Succeeded(n)], log', uses')
    ensures Ledger(
      steps, invocations, g, known, clean, logged, allowed, reports', log', uses', h + [Succeeded(n)],
      remaining, invoked)
  {
    JustifiedAppend(steps, invocations, g, known, clean, h, Succeeded(n));
    TalliedAppend(steps, h, allowed, remaining, invoked, Succeeded(n));
  }

  /** The parameters of a build that is being run, with the state of the runner and of the log. */
  class Session {
    const build: Build
    const memo: Memo
    const cleanSteps: seq<bool>
    const failuresAllowed: nat

    /** The commands that the runner has not reported on. */
    var running: set<StepIndex>
    var log: seq<LogRecord>
    /** The dependencies used by the logged runs. */
    ghost var uses: seq<seq<StepIndex>>
    /** What the runner has reported. */
    ghost var reports: Reports

    constructor (build: Build, memo: Memo, cleanSteps: seq<bool>, failuresAllowed: nat)
      ensures this.build == build && this.memo == memo && this.cleanSteps == cleanSteps
      ensures this.failuresAllowed == failuresAllowed && running == {} && log == [] && uses == []
      ensures reports == map[]
    {
      this.build, this.memo, this.cleanSteps := build, memo, cleanSteps;
      this.failuresAllowed := failuresAllowed;
      running, log, uses, reports := {}, [], [], map[];
    }

    ghost predicate Setting() {
      && ValidSteps(build.steps) && |cleanSteps| == |build.steps| && build.MemoCovers(memo)
    }

    /** As is the case when the clean steps are computed from the log. */
    ghost predicate KnownOutputs() {
      OutputsKnown(build.steps, build.invocations, memo, cleanSteps)
    }

    /** The outputs of all steps according to the log. */
    ghost function LoggedOutputs(): seq<seq<FileId>> {
      OutputTable(build.steps, build.invocations, memo)
    }

    /** The clean steps with clean dependencies can be discarded without an error. */
    ghost predicate Discards()
      requires |cleanSteps| == |build.steps| == |build.graph|
      reads build`order
    {
      Recordable(build.steps, build.invocations, memo, map[], NotNeeded())
    }

    /** The steps to build that are clean or phony together with all that they transitively depend on. */
    ghost function NotNeeded(): set<nat>
      requires |cleanSteps| == |build.steps| == |build.graph|
      reads build`order
    {
      DiscardSet(build.graph, build.Idle(cleanSteps), build.order)
    }

    /** All of them have been discarded, and so are not launched again. */
    ghost predicate AllNotNeededDiscarded()
      requires |cleanSteps| == |build.steps| == |build.graph|
      reads build`order, build`history
    {
      forall n :: n in NotNeeded() ==> Discarded(n) in build.history
    }

    ghost predicate Valid()
      reads this, build
    {
      Accounted(build.writtenFiles) && Balanced()
    }

    /** The tables are right for what was reported, if `written` are the files noted before the current report. */
    ghost predicate Accounted(written: map<FileId, Hash>)
      reads this`reports, build`history, build`outputFiles
    {
      Accounts(LoggedOutputs(), reports, build.history, build.outputFiles, written)
    }

    ghost predicate Balanced()
      reads this, build
    {
      && Setting() && build.Valid({})
      && running == Running(build.history)
      && Booked(build.invokedCommands)
    }

    ghost predicate Booked(invoked: int)
      reads this`reports, this`log, this`uses, build`history, build`remainingFailures
    {
      Ledger(
        build.steps, build.invocations, build.graph, build.known, cleanSteps, LoggedOutputs(), failuresAllowed,
        reports, log, uses, build.history, build.remainingFailures, invoked)
    }

    ghost predicate AllJustified()
      reads build`history
    {
      && |build.steps| == |build.graph| == |build.known| == |cleanSteps|
      && Justified(build.steps, build.invocations, build.graph, build.known, cleanSteps, build.history)
    }

    ghost predicate MayHappen(e: Event)
      reads build`history
    {
      && |build.steps| == |build.graph| == |build.known| == |cleanSteps|
      && EventJustified(build.steps, build.invocations, build.graph, build.known, cleanSteps, build.history, e)
    }

    /** What no run violates, also one that ends in an error. */
    ghost predicate Safe()
      reads this`log, this`uses, this`reports, build`history, build`order
    {
      && Legal(build.graph, Closure(build.order), build.history)
      && BudgetKept(build.history, failuresAllowed)
      && AllJustified()
      && Traced(build.steps, log, uses, build.history)
      && AllDerived(LoggedOutputs(), reports, build.history, log, uses)
      && Verdicts(reports, build.history)
    }

    /** What stands in the way of completing a step when there is an error. */
    ghost predicate Explained(error: Error)
      reads this`reports, build`history, build`order
    {
      match error
      case NoError => true
      case WrittenTwice => exists n: StepIndex :: Obstructed(LoggedOutputs(), reports, build.history, n)
      case OutputsUnknown => exists n: StepIndex :: UnknownOutputs(n)
    }

    /** A step that was to be skipped, and of which the log does not have the outputs. */
    ghost predicate UnknownOutputs(n: StepIndex)
      reads build`order, build`history
    {
      && n in build.order && n !in Launched(build.history) && n < |build.steps|
      && StepOutputs(build.steps, build.invocations, memo, n).None?
    }

    lemma {:induction false} ValidIsSafe()
      requires Valid()
      ensures Safe()
    {
      LoggedIsTraced(build.steps, log, uses, build.history);
    }

    lemma {:induction false} TakenIsSafe(n: StepIndex)
      requires Taken(n)
      ensures Safe()
    {
      LoggedIsTraced(build.steps, log, uses, build.history);
    }

    /** Nothing but the graph state of a build has changed since it was safe. */
    twostate lemma {:induction false} StillSafe()
      requires old(Safe()) && build.history == old(build.history) && build.order == old(build.order)
      requires log == old(log) && uses == old(uses) && reports == old(reports)
      ensures Safe()
    {
    }

    /** The runner takes more commands whenever it likes, but always when it has nothing to do. */
    method CanRunMore() returns (can: bool)
      ensures running == {} ==> can
    {
      can := *;
      if running == {} {
        can := true;
      }
    }

    /**
     A step that was clean is skipped exactly if none of its dependencies was built, or if it was
     logged and each of its input files was either not written in this build or written with the
     contents that it had.
     */
    ghost predicate Skippable(n: StepIndex, disk: nat -> InputState)
      reads build`stepNodes, build`writtenFiles
      requires n < |build.steps| == |cleanSteps| == |build.stepNodes|
    {
      && cleanSteps[n]
      && (|| build.stepNodes[n].noDirectDependenciesBuilt
          || (build.steps[n].hash in build.invocations &&
              forall f :: f in build.invocations[build.steps[n].hash].inputFiles ==>
                InputKept(build.writtenFiles, disk(f))))
    }

    method CanSkipBuildCommand(n: StepIndex, disk: nat -> InputState) returns (skip: bool)
      requires n < |build.steps| == |cleanSteps| == |build.stepNodes|
      ensures skip <==> Skippable(n, disk)
    {
      if !cleanSteps[n] {
        return false;
      }
      if build.stepNodes[n].noDirectDependenciesBuilt {
        return true;
      }
      if build.steps[n].hash !in build.invocations {
        return false;
      }
      var files := build.invocations[build.steps[n].hash].inputFiles;
      for i := 0 to |files|
        invariant forall j :: 0 <= j < i ==> InputKept(build.writtenFiles, disk(files[j]))
      {
        var input := disk(files[i]);
        if input.fileId !in build.writtenFiles {
          continue;
        }
        var newHash := build.writtenFiles[input.fileId];
        if !(input.sameStat && input.originalHash == newHash) {
          return false;
        }
      }
      return true;
    }

    /** A step has been taken from the ready list, and counted if it is not phony, but not launched. */
    ghost predicate Taken(n: StepIndex)
      reads this, build
    {
      n < |build.steps| && Popped(n, build.invokedCommands - if build.steps[n].phony then 0 else 1)
    }

    /** A step has been taken from the ready list, after `invoked` commands. */
    ghost predicate Popped(n: StepIndex, invoked: int)
      reads this, build
    {
      && Setting() && build.Valid({n}) && n < |build.steps|
      && running == Running(build.history)
      && build.remainingFailures > 0
      && Booked(invoked)
      && Accounted(build.writtenFiles)
    }

    /** A skipped step is done, and the outputs that the log has for it are entered. */
    method CommandBypassed(n: StepIndex) returns (error: Error)
      requires Taken(n) && MayHappen(Bypassed(n))
      modifies build`outputFiles, build`stepNodes, build`readySteps, build`history
      ensures unchanged(`reports, build`writtenFiles)
      ensures error == NoError ==> Valid() && build.history == old(build.history) + [Bypassed(n)]
      ensures error == NoError ==> Extends(old(build.outputFiles), build.outputFiles)
      ensures error != NoError ==> build.history == old(build.history) && Safe() && Explained(error)
      ensures KnownOutputs() ==> error != OutputsUnknown
    {
      TakenIsSafe(n);
      SkipTurn(n);
      error := MarkBypassed(n);
      if error != NoError {
        StillSafe();
        assert error == OutputsUnknown ==> UnknownOutputs(n);
      }
    }

    /** What skipping a step leads to. */
    lemma {:induction false} SkipTurn(n: StepIndex)
      requires Taken(n) && MayHappen(Bypassed(n))
      ensures n in build.order && n !in Launched(build.history)
      ensures Completing(build.graph, Closure(build.order), build.history, {n}, Bypassed(n))
      ensures Running(build.history + [Bypassed(n)]) == Running(build.history)
      ensures Ledger(
        build.steps, build.invocations, build.graph, build.known, cleanSteps, LoggedOutputs(), failuresAllowed,
        reports, log, uses, build.history + [Bypassed(n)], build.remainingFailures, build.invokedCommands)
      ensures FreshOutputs(build.outputFiles, LoggedOutputs()[n]) ==>
        var files := build.outputFiles + OutputMap(LoggedOutputs()[n], n);
        && Accounts(LoggedOutputs(), reports, build.history + [Bypassed(n)], files, build.writtenFiles)
        && Extends(build.outputFiles, files)
      ensures !FreshOutputs(build.outputFiles, LoggedOutputs()[n]) ==>
        Obstructed(LoggedOutputs(), reports, build.history, n)
    {
      var h := build.history;
      BypassTurn(build.graph, Closure(build.order), h, build.readySteps, n);
      LedgerAppend(
        build.steps, build.invocations, build.graph, build.known, cleanSteps, LoggedOutputs(), failuresAllowed,
        reports, reports, log, uses, h, build.remainingFailures,
        build.invokedCommands - if build.steps[n].phony then 0 else 1, Bypassed(n));
      if FreshOutputs(build.outputFiles, LoggedOutputs()[n]) {
        AccountsBypassed(LoggedOutputs(), reports, h, build.outputFiles, build.writtenFiles, n);
      } else {
        NotFreshIsClashing(LoggedOutputs(), reports, h, build.outputFiles, LoggedOutputs()[n]);
      }
    }

    method MarkBypassed(n: StepIndex) returns (error: Error)
      requires Setting() && build.Valid({n}) && n < |build.steps|
      requires Completing(build.graph, Closure(build.order), build.history, {n}, Bypassed(n))
      modifies build`outputFiles, build`stepNodes, build`readySteps, build`history
      ensures unchanged(build`writtenFiles, build`remainingFailures, build`invokedCommands)
      ensures error == NoError ==> build.Valid({}) && build.history == old(build.history) + [Bypassed(n)]
      ensures error == NoError ==> build.outputFiles == old(build.outputFiles) + OutputMap(LoggedOutputs()[n], n)
      ensures error != NoError ==> build.history == old(build.history)
      ensures error == OutputsUnknown <==> StepOutputs(build.steps, build.invocations, memo, n).None?
      ensures error != OutputsUnknown ==>
        (error == NoError <==> FreshOutputs(old(build.outputFiles), LoggedOutputs()[n]))
    {
      var ids := OutputFileIdsForBuildStep(build.steps, build.invocations, memo, n);
      if ids.None? {
        return OutputsUnknown;
      }
      assert {n} - {n} == {};
      var ok := build.MarkStepNodeAsDone(n, ids.value, true, Bypassed(n), {n});
      return if ok then NoError else WrittenTwice;
    }

    /** The state is right for what comes next, with what the event leaves of the failures that are allowed. */
    ghost predicate After(e: Event, reports': Reports, remaining: int)
      reads this, build
    {
      var h := build.history + [e];
      && Setting()
      && ValidGraph(build.graph) && ValidInvocations(build.invocations) && Topological(build.graph, build.order)
      && Consistent(
           build.steps, build.invocations, build.graph, build.known, Closure(build.order),
           build.stepNodes, build.readySteps, {}, h)
      && OwnersIn(build.outputFiles, Done(h))
      && Ledger(
           build.steps, build.invocations, build.graph, build.known, cleanSteps, LoggedOutputs(), failuresAllowed,
           reports', log, uses, h, remaining, build.invokedCommands)
      && Accounts(LoggedOutputs(), reports', h, build.outputFiles, build.writtenFiles)
    }

    /** What starting a command leads to. */
    lemma {:induction false} StartTurn(n: StepIndex)
      requires Taken(n) && MayHappen(Started(n))
      ensures After(Started(n), reports, build.remainingFailures)
      ensures Running(build.history + [Started(n)]) == running + {n}
    {
      var h := build.history;
      BypassTurn(build.graph, Closure(build.order), h, build.readySteps, n);
      AccountsStarted(LoggedOutputs(), reports, h, build.outputFiles, build.writtenFiles, n);
      StartStep(
        build.steps, build.invocations, build.graph, build.known, Closure(build.order),
        build.stepNodes, build.readySteps, h, n);
      LedgerAppend(
        build.steps, build.invocations, build.graph, build.known, cleanSteps, LoggedOutputs(), failuresAllowed,
        reports, reports, log, uses, h, build.remainingFailures,
        build.invokedCommands - if build.steps[n].phony then 0 else 1, Started(n));
    }

    method StartCommand(n: StepIndex)
      requires After(Started(n), reports, build.remainingFailures)
      requires Running(build.history + [Started(n)]) == running + {n}
      modifies this`running, build`history
      ensures Valid() && build.history == old(build.history) + [Started(n)]
    {
      running := running + {n};
      build.history := build.history + [Started(n)];
    }

    /**
     Launches the step at the end of the ready list, which is skipped exactly if it can be with the
     files that are on disk; `more` is false when none may be launched.
     */
    method EnqueueBuildCommand(disk: nat -> InputState) returns (more: bool, error: Error)
      requires Valid()
      modifies this`running, build`outputFiles, build`stepNodes, build`readySteps, build`history, build`invokedCommands
      ensures unchanged(`reports, build`writtenFiles)
      ensures Safe() && Explained(error)
      ensures error == NoError ==> Valid() && Extends(old(build.outputFiles), build.outputFiles)
      ensures more ==> old(build.readySteps) != []
      ensures more ==>
        var n := old(build.readySteps)[|old(build.readySteps)| - 1];
        && n < |build.steps| == |cleanSteps| == |old(build.stepNodes)|
        && (error == NoError ==>
              build.history == old(build.history) + [if old(Skippable(n, disk)) then Bypassed(n) else Started(n)])
        && (error != NoError ==> build.history == old(build.history) && old(Skippable(n, disk)))
      ensures !more ==> error == NoError && build.history == old(build.history)
      ensures more ==> build.remainingFailures > 0
      ensures !more ==> build.readySteps == [] || running != {} || build.remainingFailures == 0
      ensures KnownOutputs() ==> error != OutputsUnknown
    {
      var can := CanRunMore();
      if build.readySteps == [] || !can || build.remainingFailures == 0 {
        ValidIsSafe();
        return false, NoError;
      }
      var n := TakeStep();
      more := true;
      error := Launch(n, disk);
    }

    /** Runs the command of a step, or bypasses it. */
    method Launch(n: StepIndex, disk: nat -> InputState) returns (error: Error)
      requires Taken(n)
      modifies this`running, build`outputFiles, build`stepNodes, build`readySteps, build`history
      ensures unchanged(`reports, build`writtenFiles)
      ensures Safe() && Explained(error)
      ensures error == NoError ==> Valid() && Extends(old(build.outputFiles), build.outputFiles)
      ensures error == NoError ==>
        build.history == old(build.history) + [if old(Skippable(n, disk)) then Bypassed(n) else Started(n)]
      ensures error != NoError ==> build.history == old(build.history) && old(Skippable(n, disk))
      ensures KnownOutputs() ==> error != OutputsUnknown
    {
      var skip := CanSkipBuildCommand(n, disk);
      MayLaunch(n, skip);
      error := NoError;
      if skip {
        error := CommandBypassed(n);
      } else {
        RunCommand(n);
      }
      if error == NoError {
        ValidIsSafe();
      }
    }

    /** Hands the command of a step to the runner. */
    method RunCommand(n: StepIndex)
      requires Taken(n) && MayHappen(Started(n))
      modifies this`running, build`history
      ensures Valid() && build.history == old(build.history) + [Started(n)]
      ensures unchanged(`reports, build`writtenFiles, build`outputFiles)
    {
      StartTurn(n);
      StartCommand(n);
    }

    /** Takes the step at the end of the ready list, and counts it unless it is phony. */
    method TakeStep() returns (n: StepIndex)
      requires Valid() && build.readySteps != [] && build.remainingFailures > 0
      modifies build`readySteps, build`invokedCommands
      ensures Taken(n) && old(build.readySteps) == build.readySteps + [n]
    {
      n := PopStep();
      ghost var invoked := build.invokedCommands;
      if !build.steps[n].phony {
        build.invokedCommands := build.invokedCommands + 1;
      }
      assert Popped(n, invoked);
    }

    method PopStep() returns (n: StepIndex)
      requires build.Valid({}) && build.readySteps != []
      modifies build`readySteps
      ensures build.Valid({n}) && n < |build.steps| && old(build.readySteps) == build.readySteps + [n]
    {
      n := build.TakeReadyStep({});
      assert {} + {n} == {n};
    }

    /** A skipped step is clean, and a clean step whose dependencies are known is run because one was built. */
    lemma {:induction false} MayLaunch(n: StepIndex, skip: bool)
      requires Taken(n)
      requires skip ==> cleanSteps[n]
      requires cleanSteps[n] && build.stepNodes[n].noDirectDependenciesBuilt ==> skip
      ensures MayHappen(if skip then Bypassed(n) else Started(n))
    {
      assert FlagExact(
        build.steps, build.invocations, build.graph, build.known, build.stepNodes, Built(build.history), n);
    }

    /** One more command, with whatever files are on disk. */
    method LaunchNext() returns (more: bool, error: Error)
      requires Valid()
      modifies this`running, build`outputFiles, build`stepNodes, build`readySteps, build`history, build`invokedCommands
      ensures unchanged(`reports, build`writtenFiles)
      ensures Safe() && Explained(error)
      ensures error == NoError ==> Valid() && Extends(old(build.outputFiles), build.outputFiles)
      ensures more && error == NoError ==> LaunchesOne(old(build.history), build.history)
      ensures !more || error != NoError ==> build.history == old(build.history)
      ensures more ==> build.remainingFailures > 0
      ensures !more ==> error == NoError && (build.readySteps == [] || running != {} || build.remainingFailures == 0)
      ensures KnownOutputs() ==> error != OutputsUnknown
    {
      var disk: nat -> InputState := *;
      more, error := EnqueueBuildCommand(disk);
    }

    method EnqueueBuildCommands() returns (error: Error)
      requires Valid()
      modifies this`running, build`outputFiles, build`stepNodes, build`readySteps, build`history, build`invokedCommands
      ensures unchanged(`reports, build`writtenFiles)
      ensures Safe() && Explained(error)
      ensures error == NoError ==> Valid() && Extends(old(build.outputFiles), build.outputFiles)
      ensures error == NoError ==> build.readySteps == [] || running != {} || build.remainingFailures == 0
      ensures OnlyLaunches(old(build.history), build.history)
      ensures old(build.remainingFailures) == 0 ==> error == NoError && build.history == old(build.history)
      ensures KnownOutputs() ==> error != OutputsUnknown
    {
      var more := true;
      while more
        invariant Valid() && Extends(old(build.outputFiles), build.outputFiles)
        invariant !more ==> build.readySteps == [] || running != {} || build.remainingFailures == 0
        invariant unchanged(`reports, build`writtenFiles)
        invariant OnlyLaunches(old(build.history), build.history)
        invariant build.remainingFailures == 0 ==> build.history == old(build.history)
        decreases Closure(build.order) - Launched(build.history), more
      {
        ghost var h := build.history;
        more, error := LaunchNext();
        if error != NoError {
          return;
        }
        if h != build.history {
          LaunchMeasure(build.graph, Closure(build.order), h, build.history);
          OnlyLaunchesNext(old(build.history), h, build.history);
        }
      }
      ValidIsSafe();
      return NoError;
    }

    /** Notes the files that a command has written; false if another command wrote one of them before. */
    method NoteWrittenFiles(outputs: seq<OutputFile>) returns (once: bool)
      modifies build`writtenFiles
      ensures once <==> FreshWrites(old(build.writtenFiles), outputs)
      ensures build.writtenFiles == Written(old(build.writtenFiles), outputs)
    {
      once := true;
      for i := 0 to |outputs|
        invariant once <==> FreshWrites(old(build.writtenFiles), outputs[..i])
        invariant build.writtenFiles == Written(old(build.writtenFiles), outputs[..i])
      {
        FreshWritesNext(old(build.writtenFiles), outputs, i);
        var output := outputs[i];
        if output.couldAccess {
          if output.fileId in build.writtenFiles {
            once := false;
          } else {
            build.writtenFiles := build.writtenFiles[output.fileId := output.hash];
          }
        }
      }
      assert outputs[..|outputs|] == outputs;
    }

    /** The record of a run, and the dependencies it is derived from. */
    method MakeRecord(n: StepIndex, inputs: seq<FileId>) returns (record: LogRecord, ghost used: seq<StepIndex>)
      requires Balanced() && n < |build.steps|
      ensures record.step == n && RecordExact(build.steps, record, used)
      ensures forall d :: d in used <==> Uses(build.outputFiles, inputs, d)
      ensures AllDone(build.history, used)
    {
      LegalFacts(build.graph, Closure(build.order), build.history);
      var step := build.steps[n];
      var deps := UsedDependencies(build.outputFiles, inputs);
      assert Indices(build.steps, deps) by {
        forall i | 0 <= i < |deps| ensures deps[i] < |build.steps| {
          assert Uses(build.outputFiles, inputs, deps[i]);
        }
      }
      var ignored, additional := IgnoredAndAdditionalDependencies(build.steps, step, deps);
      record := LogRecord(n, step.hash, ignored, additional);
      used := deps;
    }

    /** The report on `n` has come, and its files have been noted in addition to `written`, but nothing more. */
    ghost predicate Reporting(n: StepIndex, result: CommandResult, written: map<FileId, Hash>)
      reads this, build
    {
      && Balanced() && Accounted(written) && n in running
      && build.writtenFiles == Written(written, result.outputs)
    }

    /** Logs a run before its step is marked as done. */
    method LogRun(n: StepIndex, result: CommandResult)
      requires Balanced() && n in running && n < |build.steps| && n !in Done(build.history)
      requires Built(build.history) <= Done(build.history) && reports.Keys >= Built(build.history)
      requires TableExact(LoggedOutputs(), reports, build.history, build.outputFiles)
      modifies this`log, this`uses
      ensures LogsRun(build.steps, n, result.inputs, build.outputFiles, old(log), old(uses), log, uses)
      ensures Logged(build.steps, log, uses, build.history + [Succeeded(n)])
      ensures Traced(build.steps, log, uses, build.history)
      ensures AllDerived(LoggedOutputs(), reports[n := result], build.history, log, uses)
      ensures AllDerived(LoggedOutputs(), reports[n := result], build.history + [Succeeded(n)], log, uses)
    {
      ghost var h, reported := build.history, reports[n := result];
      LoggedMore(build.steps, log, uses, h, Succeeded(n));
      LoggedIsTraced(build.steps, log, uses, h);
      AllDerivedMore(build.steps, LoggedOutputs(), reports, reported, h, h, log, uses);
      AllDerivedMore(build.steps, LoggedOutputs(), reports, reported, h, h + [Succeeded(n)], log, uses);
      if !build.steps[n].consolePool && !build.steps[n].phony {
        var record;
        ghost var used;
        record, used := MakeRecord(n, result.inputs);
        LoggedAppend(build.steps, log, uses, h, record, used);
        DerivedNext(
          build.steps, LoggedOutputs(), reports, h, build.outputFiles, result, log, uses, record, used);
        log, uses := log + [record], uses + [used];
      }
    }

    /** The run of `n` has been logged, and its step is to be marked as done. */
    ghost predicate Succeeding(n: StepIndex, result: CommandResult)
      reads this, build
    {
      var h := build.history + [Succeeded(n)];
      && Setting() && build.Valid({})
      && Completing(build.graph, Closure(build.order), build.history, {}, Succeeded(n))
      && Running(h) == running - {n}
      && Ledger(
           build.steps, build.invocations, build.graph, build.known, cleanSteps, LoggedOutputs(), failuresAllowed,
           reports[n := result], log, uses, h, build.remainingFailures, build.invokedCommands)
    }

    /** What is needed of the state before, if there is an error. */
    ghost predicate Resting(n: StepIndex, result: CommandResult)
      reads this, build
    {
      && Legal(build.graph, Closure(build.order), build.history)
      && BudgetKept(build.history, failuresAllowed)
      && AllJustified()
      && Traced(build.steps, log, uses, build.history)
      && AllDerived(LoggedOutputs(), reports[n := result], build.history, log, uses)
      && Verdicts(reports[n := result], build.history)
    }

    /** A success is logged, its outputs are entered for the step, and the step is done. */
    method CommandSucceeded(n: StepIndex, result: CommandResult, ghost written: map<FileId, Hash>)
      returns (error: Error)
      requires Reporting(n, result, written)
      requires result.exitStatus == Success && FreshWrites(written, result.outputs)
      modifies this, build`outputFiles, build`stepNodes, build`readySteps, build`history
      ensures unchanged(build`writtenFiles)
      ensures error == NoError ==> Valid() && build.history == old(build.history) + [Succeeded(n)]
      ensures error == NoError ==>
        Extends(old(build.outputFiles), build.outputFiles) && OwnsOutputs(build.outputFiles, n, result.outputs)
      ensures error != NoError ==> build.history == old(build.history) && Safe() && Explained(error)
      ensures LogsRun(build.steps, n, result.inputs, old(build.outputFiles), old(log), old(uses), log, uses)
      ensures error != OutputsUnknown && reports == old(reports)[n := result]
    {
      SuccessTurn(n, result, written);
      LogSuccess(n, result, written);
      error := FinishSuccess(n, result);
    }

    /** Marks the step as done, or leaves all but the table as it was. */
    method FinishSuccess(n: StepIndex, result: CommandResult) returns (error: Error)
      requires Succeeding(n, result) && Resting(n, result)
      requires FreshOutputs(build.outputFiles, FileIdsOf(result.outputs)) ==>
        Accounts(
          LoggedOutputs(), reports[n := result], build.history + [Succeeded(n)],
          build.outputFiles + OutputMap(FileIdsOf(result.outputs), n), build.writtenFiles)
      requires !FreshOutputs(build.outputFiles, FileIdsOf(result.outputs)) ==>
        Obstructed(LoggedOutputs(), reports[n := result], build.history, n)
      modifies this`running, this`reports
      modifies build`outputFiles, build`stepNodes, build`readySteps, build`history
      ensures unchanged(`log, `uses, build`writtenFiles)
      ensures error == NoError ==> Valid() && build.history == old(build.history) + [Succeeded(n)]
      ensures error == NoError ==> FreshOutputs(old(build.outputFiles), FileIdsOf(result.outputs))
      ensures error == NoError ==>
        build.outputFiles == old(build.outputFiles) + OutputMap(FileIdsOf(result.outputs), n)
      ensures error != NoError ==> build.history == old(build.history) && Safe() && Explained(error)
      ensures error != OutputsUnknown && reports == old(reports)[n := result]
    {
      error := CompleteSuccess(n, result);
    }

    /** What a success leads to, as far as the tables are concerned. */
    lemma {:induction false} SuccessTurn(n: StepIndex, result: CommandResult, written: map<FileId, Hash>)
      requires Reporting(n, result, written)
      requires result.exitStatus == Success && FreshWrites(written, result.outputs)
      ensures Verdicts(reports[n := result], build.history)
      ensures FreshOutputs(build.outputFiles, FileIdsOf(result.outputs)) ==>
        var files := build.outputFiles + OutputMap(FileIdsOf(result.outputs), n);
        && Accounts(
             LoggedOutputs(), reports[n := result], build.history + [Succeeded(n)], files, build.writtenFiles)
        && Extends(build.outputFiles, files) && OwnsOutputs(files, n, result.outputs)
      ensures !FreshOutputs(build.outputFiles, FileIdsOf(result.outputs)) ==>
        Obstructed(LoggedOutputs(), reports[n := result], build.history, n)
    {
      ReportTurn(build.graph, Closure(build.order), build.history, n);
      ReportKeeps(reports, build.history, n, result);
      if FreshOutputs(build.outputFiles, FileIdsOf(result.outputs)) {
        OutputsEntered(build.outputFiles, n, result.outputs);
        AccountsSucceeded(LoggedOutputs(), reports, build.history, build.outputFiles, written, n, result);
      } else {
        SuccessObstructed(LoggedOutputs(), reports, build.history, build.outputFiles, written, n, result);
      }
    }

    method LogSuccess(n: StepIndex, result: CommandResult, ghost written: map<FileId, Hash>)
      requires Reporting(n, result, written) && Verdicts(reports[n := result], build.history)
      modifies this`log, this`uses
      ensures LogsRun(build.steps, n, result.inputs, build.outputFiles, old(log), old(uses), log, uses)
      ensures Succeeding(n, result) && Resting(n, result)
    {
      ReportTurn(build.graph, Closure(build.order), build.history, n);
      LogRun(n, result);
      LedgerSucceeded(
        build.steps, build.invocations, build.graph, build.known, cleanSteps, LoggedOutputs(), failuresAllowed,
        reports, reports[n := result], old(log), old(uses), log, uses, build.history, build.remainingFailures,
        build.invokedCommands, n);
    }

    method CompleteSuccess(n: StepIndex, result: CommandResult) returns (error: Error)
      requires Succeeding(n, result)
      requires FreshOutputs(build.outputFiles, FileIdsOf(result.outputs)) ==>
        Accounts(
          LoggedOutputs(), reports[n := result], build.history + [Succeeded(n)],
          build.outputFiles + OutputMap(FileIdsOf(result.outputs), n), build.writtenFiles)
      modifies this`running, this`reports
      modifies build`outputFiles, build`stepNodes, build`readySteps, build`history
      ensures unchanged(`log, `uses, build`writtenFiles)
      ensures error == NoError ==> Valid() && build.history == old(build.history) + [Succeeded(n)]
      ensures error == NoError <==> FreshOutputs(old(build.outputFiles), FileIdsOf(result.outputs))
      ensures error == NoError ==>
        build.outputFiles == old(build.outputFiles) + OutputMap(FileIdsOf(result.outputs), n)
      ensures error != NoError ==> build.history == old(build.history)
      ensures error != OutputsUnknown && reports == old(reports)[n := result]
    {
      running, reports := running - {n}, reports[n := result];
      error := MarkSucceeded(n, result.outputs);
    }

    method MarkSucceeded(n: StepIndex, outputs: seq<OutputFile>) returns (error: Error)
      requires build.Valid({}) && Completing(build.graph, Closure(build.order), build.history, {}, Succeeded(n))
      modifies build`outputFiles, build`stepNodes, build`readySteps, build`history
      ensures unchanged(build`writtenFiles, build`remainingFailures, build`invokedCommands)
      ensures error == NoError ==> build.Valid({}) && build.history == old(build.history) + [Succeeded(n)]
      ensures error == NoError ==> build.outputFiles == old(build.outputFiles) + OutputMap(FileIdsOf(outputs), n)
      ensures error != NoError ==> build.history == old(build.history)
      ensures error == NoError <==> FreshOutputs(old(build.outputFiles), FileIdsOf(outputs))
      ensures error != OutputsUnknown
    {
      var ok := build.MarkStepNodeAsDone(n, FileIdsOf(outputs), false, Succeeded(n), {});
      assert {} - {n} == {};
      error := if ok then NoError else WrittenTwice;
    }

    /** What a failure leads to. */
    lemma {:induction false} FailureTurn(n: StepIndex, result: CommandResult, written: map<FileId, Hash>)
      requires Reporting(n, result, written)
      requires !(result.exitStatus == Success && FreshWrites(written, result.outputs))
      ensures After(
        Failed(n), reports[n := result],
        if build.remainingFailures > 0 then build.remainingFailures - 1 else build.remainingFailures)
      ensures Running(build.history + [Failed(n)]) == running - {n} && build.remainingFailures >= 0
    {
      var h := build.history;
      ReportTurn(build.graph, Closure(build.order), h, n);
      FailStep(
        build.steps, build.invocations, build.graph, build.known, Closure(build.order),
        build.stepNodes, build.readySteps, h, n);
      LedgerAppend(
        build.steps, build.invocations, build.graph, build.known, cleanSteps, LoggedOutputs(), failuresAllowed,
        reports, reports[n := result], log, uses, h, build.remainingFailures, build.invokedCommands, Failed(n));
      AccountsFailed(LoggedOutputs(), reports, h, build.outputFiles, written, n, result);
    }

    method CommandFailed(n: StepIndex, ghost result: CommandResult, ghost written: map<FileId, Hash>)
      requires Reporting(n, result, written)
      requires !(result.exitStatus == Success && FreshWrites(written, result.outputs))
      modifies this`running, this`reports, build`history, build`remainingFailures
      ensures unchanged(`log, `uses, build`outputFiles, build`writtenFiles)
      ensures Valid() && build.history == old(build.history) + [Failed(n)] && reports == old(reports)[n := result]
    {
      FailureTurn(n, result, written);
      CountFailure(n, reports[n := result]);
    }

    method CountFailure(n: StepIndex, ghost reports': Reports)
      requires build.remainingFailures >= 0 && Running(build.history + [Failed(n)]) == running - {n}
      requires After(
        Failed(n), reports',
        if build.remainingFailures > 0 then build.remainingFailures - 1 else build.remainingFailures)
      modifies this`running, this`reports, build`history, build`remainingFailures
      ensures unchanged(`log, `uses, build`outputFiles, build`writtenFiles)
      ensures Valid() && build.history == old(build.history) + [Failed(n)] && reports == reports'
    {
      running, reports := running - {n}, reports';
      if build.remainingFailures != 0 {
        build.remainingFailures := build.remainingFailures - 1;
      }
      build.history := build.history + [Failed(n)];
    }

    /** The runner reports on a command, and gets more to do. */
    method CommandDone(n: StepIndex, result: CommandResult) returns (error: Error)
      requires Valid() && n in running
      modifies this, build`outputFiles, build`stepNodes, build`readySteps, build`history
      modifies build`writtenFiles, build`remainingFailures, build`invokedCommands
      ensures Safe() && Explained(error) && (error == NoError ==> Valid())
      ensures error == NoError ==> build.readySteps == [] || running != {} || build.remainingFailures == 0
      ensures reports == old(reports)[n := result]
      ensures build.writtenFiles == Written(old(build.writtenFiles), result.outputs)
      ensures Processed(
        build.steps, n, result, result.exitStatus == Success && FreshWrites(old(build.writtenFiles), result.outputs),
        old(build.history), old(build.outputFiles), old(log), old(uses),
        build.history, build.outputFiles, log, uses, error)
      ensures KnownOutputs() ==> error != OutputsUnknown
    {
      ghost var accepted := result.exitStatus == Success && FreshWrites(build.writtenFiles, result.outputs);
      ghost var h, files, log0, uses0 := build.history, build.outputFiles, log, uses;
      error := TakeReport(n, result);
      if error == NoError {
        error := LaunchMore(n, result, accepted, h, files, log0, uses0);
      }
    }

    /** Feeds the runner after a report. */
    method LaunchMore(
      n: StepIndex, result: CommandResult, ghost accepted: bool, ghost h: History, ghost files: map<FileId, StepIndex>,
      ghost log0: seq<LogRecord>, ghost uses0: seq<seq<StepIndex>>) returns (error: Error)
      requires Valid()
      requires Processed(
        build.steps, n, result, accepted, h, files, log0, uses0, build.history, build.outputFiles, log, uses, NoError)
      modifies this`running, build`outputFiles, build`stepNodes, build`readySteps, build`history, build`invokedCommands
      ensures unchanged(`reports, build`writtenFiles)
      ensures Safe() && Explained(error) && (error == NoError ==> Valid())
      ensures error == NoError ==> build.readySteps == [] || running != {} || build.remainingFailures == 0
      ensures Processed(
        build.steps, n, result, accepted, h, files, log0, uses0, build.history, build.outputFiles, log, uses, error)
      ensures KnownOutputs() ==> error != OutputsUnknown
    {
      ghost var h1, files1 := build.history, build.outputFiles;
      error := EnqueueBuildCommands();
      ProcessedMore(
        build.steps, n, result, accepted, h, files, log0, uses0, h1, files1, log, uses,
        build.history, build.outputFiles, error);
    }

    method TakeReport(n: StepIndex, result: CommandResult) returns (error: Error)
      requires Valid() && n in running
      modifies this, build`outputFiles, build`stepNodes, build`readySteps, build`history
      modifies build`writtenFiles, build`remainingFailures
      ensures Safe() && Explained(error) && (error == NoError ==> Valid())
      ensures reports == old(reports)[n := result]
      ensures build.writtenFiles == Written(old(build.writtenFiles), result.outputs)
      ensures Processed(
        build.steps, n, result, result.exitStatus == Success && FreshWrites(old(build.writtenFiles), result.outputs),
        old(build.history), old(build.outputFiles), old(log), old(uses),
        build.history, build.outputFiles, log, uses, error)
      ensures error != OutputsUnknown
    {
      ghost var written := build.writtenFiles;
      var once := NoteWrittenFiles(result.outputs);
      if result.exitStatus == Success && once {
        error := CommandSucceeded(n, result, written);
      } else {
        CommandFailed(n, result, written);
        error := NoError;
      }
      if error == NoError {
        ValidIsSafe();
      }
    }

    /**
     Runs until the runner has nothing left to do, whichever order it reports in, or until the
     runner says that it was interrupted. When commands may still fail at the end, what is done is
     all that no failure stands in the way of.
     */
    method Run() returns (result: BuildResult, interrupted: bool)
      requires Valid() && running == {}
      modifies this, build`outputFiles, build`stepNodes, build`readySteps, build`history
      modifies build`writtenFiles, build`remainingFailures, build`invokedCommands
      ensures Safe() && result != DependencyCycle && old(build.history) <= build.history
      ensures result.BuildThrew? ==> result.error != NoError && Explained(result.error)
      ensures result == BuildInterrupted <==> interrupted
      ensures !result.BuildThrew? ==> Valid() && (interrupted <==> running != {})
      ensures !result.BuildThrew? && !interrupted ==> Outcome(build.steps, build.history, result)
      ensures result in {NoWorkToDo, BuildSucceeded, BuildFailed} && build.remainingFailures > 0 ==>
        forall n :: n in build.order ==> (n in Done(build.history) <==> Unaffected(build.graph, build.history, n))
      ensures result in {NoWorkToDo, BuildSucceeded} ==>
        (Done(build.history) == Closure(build.order) <==>
          failuresAllowed > 0 || old(Done(build.history)) == Closure(build.order))
      ensures failuresAllowed == 0 ==> result == NoWorkToDo && build.history == old(build.history)
      ensures KnownOutputs() ==> result != BuildThrew(OutputsUnknown)
    {
      var error;
      error, interrupted := RunCommands();
      if error != NoError {
        return BuildThrew(error), false;
      }
      if interrupted {
        return BuildInterrupted, true;
      }
      ghost var h := build.history;
      LegalFacts(build.graph, Closure(build.order), h);
      if build.remainingFailures > 0 {
        NothingStranded(build.graph, build.order, h, |build.order|);
      }
      AttemptedPhony(build.steps, build.graph, Closure(build.order), h);
      NothingAttempted(build.steps, build.graph, Closure(build.order), h, failuresAllowed);
      if build.remainingFailures == failuresAllowed {
        AllowedMeansDone(build.graph, build.order, h, failuresAllowed);
        result := if build.invokedCommands == 0 then NoWorkToDo else BuildSucceeded;
      } else {
        result := BuildFailed;
      }
    }

    /** The loop that waits for the runner; it may be interrupted at any time. */
    method RunCommands() returns (error: Error, interrupted: bool)
      requires Valid() && running == {}
      modifies this, build`outputFiles, build`stepNodes, build`readySteps, build`history
      modifies build`writtenFiles, build`remainingFailures, build`invokedCommands
      ensures Safe() && Explained(error) && old(build.history) <= build.history
      ensures error == NoError ==> Valid() && (interrupted <==> running != {})
      ensures error == NoError && !interrupted ==> build.readySteps == [] || build.remainingFailures == 0
      ensures failuresAllowed == 0 ==> build.history == old(build.history) && error == NoError && !interrupted
      ensures KnownOutputs() ==> error != OutputsUnknown
    {
      interrupted := false;
      error := EnqueueBuildCommands();
      if error != NoError {
        return;
      }
      while running != {}
        invariant error == NoError && Valid() && !interrupted && old(build.history) <= build.history
        invariant build.readySteps == [] || running != {} || build.remainingFailures == 0
        invariant failuresAllowed == 0 ==> build.history == old(build.history) && running == {}
        decreases Left()
      {
        interrupted := *;
        if interrupted {
          ValidIsSafe();
          return;
        }
        error := WaitForReport();
        if error != NoError {
          return;
        }
      }
      ValidIsSafe();
    }

    /** The runner reports on any of the running commands. */
    method WaitForReport() returns (error: Error)
      requires Valid() && running != {}
      modifies this, build`outputFiles, build`stepNodes, build`readySteps, build`history
      modifies build`writtenFiles, build`remainingFailures, build`invokedCommands
      ensures Safe() && Explained(error) && old(build.history) <= build.history
      ensures error == NoError ==> Valid() && (build.readySteps == [] || running != {} || build.remainingFailures == 0)
      ensures error == NoError ==> Left() < old(Left())
      ensures KnownOutputs() ==> error != OutputsUnknown
    {
      var n :| n in running;
      var report: CommandResult := *;
      ghost var h := build.history;
      ghost var e := if report.exitStatus == Success && FreshWrites(build.writtenFiles, report.outputs)
        then Succeeded(n) else Failed(n);
      error := CommandDone(n, report);
      if error == NoError {
        WaitMeasure(build.graph, Closure(build.order), h, e, build.history);
      }
    }

    /** The steps that are neither done nor failed. */
    ghost function Left(): set<nat>
      reads this, build
    {
      Closure(build.order) - Done(build.history) - FailedSteps(build.history)
    }
  }

  /** If no failure has been counted, then nothing has failed, and all of the closure is done. */
  lemma {:induction false} AllowedMeansDone(g: Graph, order: seq<nat>, h: History, allowed: nat)
    requires Legal(g, Closure(order), h) && Remaining(allowed, |FailedSteps(h)|) == allowed
    requires allowed > 0 ==> forall n :: 0 <= n < |order| ==> (order[n] in Done(h) <==> Unaffected(g, h, order[n]))
    ensures allowed > 0 ==> Done(h) == Closure(order)
  {
    LegalFacts(g, Closure(order), h);
    if allowed > 0 {
      assert FailedSteps(h) == {};
      forall n | n in order ensures n in Done(h) {
        assert Unaffected(g, h, n);
      }
    }
  }

  /** Without any allowed failure, nothing is attempted, so that nothing fails. */
  lemma {:induction false} NothingAttempted(
    steps: seq<Step>, g: Graph, closure: set<nat>, h: History, allowed: nat)
    requires Legal(g, closure, h) && BudgetKept(h, allowed)
    ensures allowed == 0 ==> FailedSteps(h) == {} && |NonPhony(steps, Attempted(h))| == 0
  {
    if allowed == 0 {
      assert Attempted(h) == {};
      forall i | 0 <= i < |h| ensures !h[i].Failed? {
        if h[i].Failed? {
          assert LegalEvent(g, closure, h[..i], h[i]);
          var j :| 0 <= j < i && h[..i][j].Launches() && h[..i][j].step == h[i].step;
        }
      }
    }
  }

  lemma {:induction false} AttemptedPhony(steps: seq<Step>, g: Graph, closure: set<nat>, h: History)
    requires Legal(g, closure, h) && |g| == |steps|
    ensures |NonPhony(steps, Attempted(h))| == 0 <==> OnlyPhony(steps, h)
  {
    if |NonPhony(steps, Attempted(h))| == 0 {
      forall n | n in Attempted(h) ensures n < |steps| && steps[n].phony {
        var i :| 0 <= i < |h| && (h[i].Started? || h[i].Bypassed?) && h[i].step == n;
        assert LegalEvent(g, closure, h[..i], h[i]);
        assert n !in NonPhony(steps, Attempted(h));
      }
    }
    if OnlyPhony(steps, h) {
      assert NonPhony(steps, Attempted(h)) == {};
    }
  }

  /** The turn came for no other steps than phony ones. */
  ghost predicate OnlyPhony(steps: seq<Step>, h: History) {
    forall n :: n in Attempted(h) ==> n < |steps| && steps[n].phony
  }

  /** What a run that is neither interrupted nor ended by an error says of itself. */
  ghost predicate Outcome(steps: seq<Step>, h: History, result: BuildResult) {
    && result in {NoWorkToDo, BuildSucceeded, BuildFailed}
    && (result == BuildFailed <==> FailedSteps(h) != {})
    && (result == NoWorkToDo <==> FailedSteps(h) == {} && OnlyPhony(steps, h))
  }

  /** A finished command is one that will not be waited for again. */
  lemma {:induction false} WaitMeasure(g: Graph, closure: set<nat>, h: History, e: Event, h': History)
    requires Legal(g, closure, h) && (e.Succeeded? || e.Failed?) && e.step in Running(h)
    requires OnlyLaunches(h + [e], h')
    ensures closure - Done(h') - FailedSteps(h') < closure - Done(h) - FailedSteps(h)
  {
    LegalFacts(g, closure, h);
    forall i | 0 <= i < |h| ensures h'[i] == h[i] {
      assert (h + [e])[i] == h[i];
    }
    assert h'[|h|] == e;
    forall n | n in Done(h) ensures n in Done(h') {
      var i :| 0 <= i < |h| && h[i].Completes() && h[i].step == n;
      assert h'[i].Completes();
    }
    forall n | n in FailedSteps(h) ensures n in FailedSteps(h') {
      var i :| 0 <= i < |h| && h[i].Failed? && h[i].step == n;
      assert h'[i].Failed?;
    }
    assert e.step in closure - Done(h) - FailedSteps(h);
  }

  /** A command that is running may be reported on. */
  lemma {:induction false} ReportTurn(g: Graph, closure: set<nat>, h: History, n: nat)
    requires Legal(g, closure, h) && n in Running(h)
    ensures n in closure && n in Launched(h) && n !in Done(h) && n !in FailedSteps(h) && Built(h) <= Done(h)
    ensures Completing(g, closure, h, {}, Succeeded(n)) && LegalEvent(g, closure, h, Failed(n))
    ensures Running(h + [Succeeded(n)]) == Running(h) - {n} && Built(h + [Succeeded(n)]) == Built(h) + {n}
  {
    LegalFacts(g, closure, h);
    Append(h, Succeeded(n));
  }

  /** One step was launched. */
  ghost predicate LaunchesOne(h: History, h': History) {
    |h'| == |h| + 1 && h <= h' && h'[|h|].Launches()
  }

  lemma {:induction false} OnlyLaunchesNext(h: History, h1: History, h2: History)
    requires OnlyLaunches(h, h1) && LaunchesOne(h1, h2)
    ensures OnlyLaunches(h, h2)
  {
  }

  lemma {:induction false} LaunchMeasure(g: Graph, closure: set<nat>, h: History, h': History)
    requires LaunchesOne(h, h') && Legal(g, closure, h')
    ensures closure - Launched(h') < closure - Launched(h)
  {
    var e := h'[|h|];
    assert h' == h + [e];
    Append(h, e);
    assert h'[..|h|] == h;
    assert LegalEvent(g, closure, h'[..|h|], e);
    assert e.step in closure - Launched(h);
  }

  /** A ready step that was taken may be bypassed or started. */
  lemma {:induction false} BypassTurn(g: Graph, closure: set<nat>, h: History, ready: seq<nat>, n: nat)
    requires Legal(g, closure, h) && ReadyExactly(g, closure, h, ready, {n})
    ensures n < |g| && n in closure && n !in Launched(h) && n !in Done(h) && Built(h) <= Done(h)
    ensures LegalEvent(g, closure, h, Started(n)) && Completing(g, closure, h, {n}, Bypassed(n))
    ensures Running(h + [Bypassed(n)]) == Running(h) && Built(h + [Bypassed(n)]) == Built(h)
  {
    assert n in {n};
    assert IsReady(g, closure, h, n);
    LegalFacts(g, closure, h);
    Append(h, Bypassed(n));
  }

  /** The log entry of a later build is the one that the record was read back into. */
  ghost predicate EntryOf(invocations: Invocations, r: LogRecord)
  {
    && r.hash in invocations
    && invocations[r.hash].ignoredDependencies == r.ignored
    && invocations[r.hash].additionalDependencies == r.additional
  }

  /**
   From one build to the next: a step that was logged, and that is clean when a later build of the
   same manifest starts, is run in that build only after one of the steps that the logged run used
   has really been built, as opposed to skipped.
   */
  lemma {:induction false} RunAgainOnlyAfterUsed(s: Session, r: LogRecord, used: seq<StepIndex>, i: nat)
    requires s.Safe() && s.build.Wellformed() && DistinctHashes(s.build.steps)
    requires RecordExact(s.build.steps, r, used) && EntryOf(s.build.invocations, r)
    requires i < |s.build.history| && s.build.history[i] == Started(r.step) && s.cleanSteps[r.step]
    ensures exists d :: d in used && d in Built(s.build.history[..i])
  {
    var b, n := s.build, r.step;
    DeltaRoundTrip(b.steps, b.invocations, n, used);
    assert EventJustified(b.steps, b.invocations, b.graph, b.known, s.cleanSteps, b.history[..i], b.history[i]);
    assert b.graph[n] == Dependencies(b.steps, b.invocations, n);
    var d :| d in b.graph[n] && d in Built(b.history[..i]) && !Ignores(b.invocations, b.steps[n].hash, d);
    assert d in used;
  }

  /**
   Two builds of the same manifest, of which the second reads what the first one logged, or as
   many of its records as were written before it was killed: a step that was logged, and that is
   clean, is run in the second one only after a step that the logged run used has really been built,
   that is, one that had an output which the command read.
   */
  lemma {:induction false} RunAgainInNextBuild(first: Session, second: Session, k: nat, i: nat, j: nat)
    requires first.Safe() && first.build.Wellformed() && DistinctHashes(first.build.steps)
    requires second.Safe() && second.build.Wellformed() && second.build.steps == first.build.steps
    requires i < k <= |first.log| && Keeps(second.build.invocations, Replay(first.build.invocations, first.log[..k]))
    requires first.log[i].hash in second.build.invocations
    requires j < |second.build.history| && second.build.history[j] == Started(first.log[i].step)
    requires first.log[i].step < |second.cleanSteps| && second.cleanSteps[first.log[i].step]
    ensures i < |first.uses| && exists d ::
      d in first.uses[i] && d in Built(second.build.history[..j]) && ReadFrom(first, first.log[i].step, d)
  {
    ReplayLogged(first.build.steps, first.build.invocations, first.log[..k], i);
    RunAgainOnlyAfterUsed(second, first.log[i], first.uses[i], j);
    var d :| d in first.uses[i] && d in Built(second.build.history[..j]);
    UsedWasRead(first, i, d);
  }

  /** The command of `n` read a file that is an output of `d`. */
  ghost predicate ReadFrom(s: Session, n: StepIndex, d: StepIndex)
    reads s, s.build
  {
    n in s.reports && Feeds(s.LoggedOutputs(), s.reports, s.build.history, s.reports[n].inputs, d)
  }

  lemma {:induction false} UsedWasRead(s: Session, i: nat, d: StepIndex)
    requires s.Safe() && i < |s.log| == |s.uses| && d in s.uses[i]
    ensures ReadFrom(s, s.log[i].step, d)
  {
    var n, h := s.log[i].step, s.build.history;
    assert Derived(s.LoggedOutputs(), s.reports, h, n, s.uses[i]);
    if k :| 0 <= k < |h| && h[k] == Succeeded(n) && UsedFrom(s.LoggedOutputs(), s.reports, h[..k], n, s.uses[i]) {
      assert Feeds(s.LoggedOutputs(), s.reports, h[..k], s.reports[n].inputs, d);
      FeedsLater(
        s.build.graph, Closure(s.build.order), s.LoggedOutputs(), s.reports, h, k, s.reports[n].inputs, d);
    }
  }

  /** What a build logs, or any first part of it, does not give the next one a cycle. */
  lemma {:induction false} NextBuildIsAcyclic(s: Session, k: nat, invocations: Invocations)
    requires s.Safe() && s.build.Wellformed() && DistinctHashes(s.build.steps) && k <= |s.log|
    requires Acyclic(s.build.graph) && Keeps(invocations, Replay(s.build.invocations, s.log[..k]))
    requires forall n :: n in s.build.order ==> n < |s.build.steps|
    ensures Acyclic(DependencyGraph(s.build.steps, invocations))
  {
    TracedPrefix(s.build.steps, s.log, s.uses, s.build.history, k);
    LogKeepsAcyclic(
      s.build.steps, s.build.invocations, Closure(s.build.order), s.build.history, s.log[..k], s.uses[..k]);
    KeepsAcyclic(s.build.steps, invocations, Replay(s.build.invocations, s.log[..k]));
  }

  /**
   A whole build. It ends in the cycle error exactly when a cycle is reachable from the requested
   steps; when it ends well and failures were allowed, everything that was requested is done. The
   history and the log are right in any case.
   */
  method PerformBuild(
    steps: seq<Step>, invocations: Invocations, failuresAllowed: nat, stepsToBuild: seq<StepIndex>,
    memo: Memo, cleanSteps: seq<bool>) returns (result: BuildResult, session: Session, interrupted: bool)
    requires ValidSteps(steps) && ValidInvocations(invocations) && |cleanSteps| == |steps|
    requires forall r :: r in stepsToBuild ==> r < |steps|
    requires forall h, f :: h in invocations && f in invocations[h].outputFiles ==> f < |memo|
    ensures session.build.Wellformed() && session.build.steps == steps && session.build.invocations == invocations
    ensures session.cleanSteps == cleanSteps && session.failuresAllowed == failuresAllowed && session.memo == memo
    ensures result == DependencyCycle <==> CycleRequested(session.build.graph, stepsToBuild)
    ensures result == DependencyCycle ==> !interrupted
    ensures result != DependencyCycle ==>
      session.Safe() && forall n :: n in session.build.order <==> Requested(session.build.graph, stepsToBuild, n)
    ensures result != DependencyCycle ==> forall n :: n in session.build.order ==> n < |steps|
    ensures result != DependencyCycle ==> Ended(session, result, interrupted)
    ensures result in {NoWorkToDo, BuildSucceeded} && failuresAllowed > 0 ==>
      forall n :: Requested(session.build.graph, stepsToBuild, n) <==> n in Done(session.build.history)
    ensures result in {NoWorkToDo, BuildSucceeded, BuildFailed} && session.build.remainingFailures > 0 ==>
      forall n :: Requested(session.build.graph, stepsToBuild, n) ==>
        (n in Done(session.build.history) <==> Unaffected(session.build.graph, session.build.history, n))
    ensures OutputsKnown(steps, invocations, memo, cleanSteps) ==> result != BuildThrew(OutputsUnknown)
  {
    var build := new Build(steps, invocations);
    session := new Session(build, memo, cleanSteps, failuresAllowed);
    var ok := build.Construct(failuresAllowed, stepsToBuild);
    if !ok {
      return DependencyCycle, session, false;
    }
    result, interrupted := RunBuild(session);
  }

  /**
   Why a build without a cycle ended as it did. It threw if the clean steps could not be discarded,
   or later if a step could not be completed; otherwise it was interrupted while commands were
   running, or has its outcome.
   */
  ghost predicate Ended(session: Session, result: BuildResult, interrupted: bool)
    reads session, session.build
    requires |session.cleanSteps| == |session.build.steps| == |session.build.graph|
  {
    && (result == BuildInterrupted <==> interrupted)
    && (if session.Discards() then session.AllNotNeededDiscarded() else result.BuildThrew?)
    && (if result.BuildThrew? then
          result.error != NoError && (session.Discards() ==> session.Explained(result.error))
        else
          && (interrupted <==> session.running != {})
          && (!interrupted ==> Outcome(session.build.steps, session.build.history, result)))
  }

  /** The part of a build that comes after its construction. */
  method RunBuild(session: Session) returns (result: BuildResult, interrupted: bool)
    requires session.Setting() && session.build.Valid({}) && session.build.history == []
    requires session.build.remainingFailures == session.failuresAllowed && session.build.invokedCommands == 0
    requires session.running == {} && session.log == [] && session.uses == [] && session.reports == map[]
    requires session.build.outputFiles == map[] && session.build.writtenFiles == map[]
    modifies session, session.build`outputFiles, session.build`stepNodes, session.build`readySteps
    modifies session.build`history, session.build`writtenFiles, session.build`remainingFailures
    modifies session.build`invokedCommands
    ensures result != DependencyCycle && session.Safe() && Ended(session, result, interrupted)
    ensures result in {NoWorkToDo, BuildSucceeded} && session.failuresAllowed > 0 ==>
      Done(session.build.history) == Closure(session.build.order)
    ensures result in {NoWorkToDo, BuildSucceeded, BuildFailed} && session.build.remainingFailures > 0 ==>
      forall n :: n in session.build.order ==>
        (n in Done(session.build.history) <==> Unaffected(session.build.graph, session.build.history, n))
    ensures session.KnownOutputs() ==> result != BuildThrew(OutputsUnknown)
  {
    var discarded := DiscardBeforeRun(session);
    if discarded.Threw? {
      return BuildThrew(discarded.error), false;
    }
    result, interrupted := RunRest(session);
  }

  /** The part of a build that comes after clean steps have been discarded. */
  method RunRest(session: Session) returns (result: BuildResult, interrupted: bool)
    requires session.Valid() && session.running == {} && session.Discards() && session.AllNotNeededDiscarded()
    modifies session, session.build`outputFiles, session.build`stepNodes, session.build`readySteps
    modifies session.build`history, session.build`writtenFiles, session.build`remainingFailures
    modifies session.build`invokedCommands
    ensures result != DependencyCycle && session.Safe() && Ended(session, result, interrupted)
    ensures result in {NoWorkToDo, BuildSucceeded} && session.failuresAllowed > 0 ==>
      Done(session.build.history) == Closure(session.build.order)
    ensures result in {NoWorkToDo, BuildSucceeded, BuildFailed} && session.build.remainingFailures > 0 ==>
      forall n :: n in session.build.order ==>
        (n in Done(session.build.history) <==> Unaffected(session.build.graph, session.build.history, n))
    ensures session.KnownOutputs() ==> result != BuildThrew(OutputsUnknown)
  {
    result, interrupted := session.Run();
  }

  /** Clean steps are discarded, after which the run can start. */
  method DiscardBeforeRun(session: Session) returns (discarded: DiscardResult)
    requires session.Setting() && session.build.Valid({}) && session.build.history == []
    requires session.build.remainingFailures == session.failuresAllowed && session.build.invokedCommands == 0
    requires session.running == {} && session.log == [] && session.uses == [] && session.reports == map[]
    requires session.build.outputFiles == map[] && session.build.writtenFiles == map[]
    modifies session.build`outputFiles, session.build`stepNodes, session.build`readySteps, session.build`history
    ensures session.Safe() && (discarded.Count? <==> session.Discards())
    ensures discarded.Count? ==> session.Valid() && session.AllNotNeededDiscarded()
    ensures discarded.Threw? ==> discarded.error != NoError
    ensures session.KnownOutputs() ==> discarded != Threw(OutputsUnknown)
  {
    var build := session.build;
    discarded := build.DiscardCleanSteps(session.memo, session.cleanSteps);
    StartOfRun(
      build.steps, build.invocations, build.graph, build.known, session.cleanSteps, Closure(build.order),
      build.history, session.failuresAllowed);
    if discarded.Count? {
      AccountsStart(session.LoggedOutputs(), build.history, build.outputFiles);
    }
  }

  /** One of several builds: what is asked of it, how many of its records are written, and what the next one reads. */
  datatype Plan = Plan(
    failuresAllowed: nat, stepsToBuild: seq<StepIndex>, memo: Memo, cleanSteps: seq<bool>,
    written: nat, later: Invocations)

  ghost predicate Covers(memo: Memo, invocations: Invocations) {
    forall h :: h in invocations ==> forall f :: f in invocations[h].outputFiles ==> f < |memo|
  }

  ghost predicate ValidPlans(steps: seq<Step>, plans: seq<Plan>) {
    forall i :: 0 <= i < |plans| ==>
      && |plans[i].cleanSteps| == |steps| && (forall r :: r in plans[i].stepsToBuild ==> r < |steps|)
      && (i > 0 ==> Covers(plans[i].memo, plans[i - 1].later))
  }

  /** The entries without their files. */
  function Bare(invocations: Invocations): Invocations {
    map h | h in invocations :: invocations[h].(outputFiles := [], inputFiles := [])
  }

  /** What the next build reads is what the plan says if that can be, and otherwise what was written. */
  function ReadNext(later: Invocations, written: Invocations): Invocations {
    if ValidInvocations(later) && Keeps(later, written) then later else Bare(written)
  }

  function ReadAfter(p: Plan, s: Session): Invocations
    reads s`log
  {
    var written := if p.written <= |s.log| then s.log[..p.written] else s.log;
    ReadNext(p.later, Replay(s.build.invocations, written))
  }

  /** The build was performed as planned, with these entries in the log. */
  ghost predicate Performed(steps: seq<Step>, invocations: Invocations, p: Plan, s: Session, result: BuildResult)
    reads s, s.build
  {
    && s.build.Wellformed() && s.build.steps == steps && s.build.invocations == invocations
    && s.memo == p.memo && s.cleanSteps == p.cleanSteps && s.failuresAllowed == p.failuresAllowed
    && |s.cleanSteps| == |s.build.steps| == |s.build.graph|
    && (forall n :: n in s.build.order <==> Requested(s.build.graph, p.stepsToBuild, n))
    && s.Safe() && Ended(s, result, result == BuildInterrupted)
  }

  /** What a build reads: nothing if it is the first, and otherwise what the one before has left. */
  ghost function ReadBefore(plans: seq<Plan>, sessions: seq<Session>, i: nat): Invocations
    requires i <= |plans| && i <= |sessions|
    reads sessions
  {
    if i == 0 then map[] else ReadAfter(plans[i - 1], sessions[i - 1])
  }

  ghost predicate AllPerformed(
    steps: seq<Step>, plans: seq<Plan>, sessions: seq<Session>, results: seq<BuildResult>)
    requires |sessions| == |results| <= |plans|
    reads sessions, set s | s in sessions :: s.build
  {
    forall i :: 0 <= i < |sessions| ==> PerformedAt(steps, plans, sessions, results, i)
  }

  ghost predicate PerformedAt(
    steps: seq<Step>, plans: seq<Plan>, sessions: seq<Session>, results: seq<BuildResult>, i: nat)
    requires i < |sessions| == |results| <= |plans|
    reads sessions, set s | s in sessions :: s.build
  {
    Performed(steps, ReadBefore(plans, sessions, i), plans[i], sessions[i], results[i])
  }

  lemma {:induction false} PerformedNext(
    steps: seq<Step>, plans: seq<Plan>, sessions: seq<Session>, results: seq<BuildResult>,
    session: Session, result: BuildResult)
    requires |sessions| == |results| < |plans| && AllPerformed(steps, plans, sessions, results)
    requires Performed(steps, ReadBefore(plans, sessions, |sessions|), plans[|sessions|], session, result)
    ensures AllPerformed(steps, plans, sessions + [session], results + [result])
  {
    var more, ends := sessions + [session], results + [result];
    forall i | 0 <= i < |more| ensures PerformedAt(steps, plans, more, ends, i) {
      assert ReadBefore(plans, more, i) == ReadBefore(plans, sessions, i);
      if i < |sessions| {
        assert more[i] == sessions[i] && ends[i] == results[i];
        assert PerformedAt(steps, plans, sessions, results, i);
      }
    }
  }

  /**
   Builds of an acyclic manifest, one after the other, each with what the ones before have logged.
   Whatever is requested and however they end, also if they are killed before all of their records
   are written, none of them finds a cycle.
   */
  method BuildRepeatedly(steps: seq<Step>, plans: seq<Plan>)
    returns (results: seq<BuildResult>, sessions: seq<Session>)
    requires ValidSteps(steps) && DistinctHashes(steps) && Acyclic(DependencyGraph(steps, map[]))
    requires ValidPlans(steps, plans)
    ensures |results| == |sessions| == |plans| && DependencyCycle !in results
    ensures AllPerformed(steps, plans, sessions, results)
  {
    results, sessions := [], [];
    var invocations: Invocations := map[];
    for i := 0 to |plans|
      invariant ValidInvocations(invocations) && Acyclic(DependencyGraph(steps, invocations))
      invariant i < |plans| ==> Covers(plans[i].memo, invocations)
      invariant |results| == |sessions| == i && DependencyCycle !in results
      invariant invocations == ReadBefore(plans, sessions, i)
      invariant AllPerformed(steps, plans, sessions, results)
    {
      var result, session := BuildAsPlanned(steps, invocations, plans[i]);
      PerformedNext(steps, plans, sessions, results, session, result);
      results, sessions := results + [result], sessions + [session];
      invocations := ReadAfter(plans[i], session);
    }
  }

  /** One build, after which the next one finds no cycle either. */
  method BuildAsPlanned(steps: seq<Step>, invocations: Invocations, p: Plan)
    returns (result: BuildResult, session: Session)
    requires ValidSteps(steps) && DistinctHashes(steps) && ValidInvocations(invocations)
    requires Acyclic(DependencyGraph(steps, invocations)) && Covers(p.memo, invocations)
    requires |p.cleanSteps| == |steps| && forall r :: r in p.stepsToBuild ==> r < |steps|
    ensures result != DependencyCycle && Performed(steps, invocations, p, session, result)
    ensures
      var next := ReadAfter(p, session);
      && ValidInvocations(next) && Acyclic(DependencyGraph(steps, next))
      && forall memo :: Covers(memo, p.later) ==> Covers(memo, next)
  {
    var interrupted;
    result, session, interrupted :=
      PerformBuild(steps, invocations, p.failuresAllowed, p.stepsToBuild, p.memo, p.cleanSteps);
    NoCycleRequested(session.build.graph, p.stepsToBuild);
    ghost var k := if p.written <= |session.log| then p.written else |session.log|;
    assert session.log[..|session.log|] == session.log;
    TracedPrefix(steps, session.log, session.uses, session.build.history, k);
    ReplayValid(steps, invocations, session.log[..k], session.uses[..k]);
    NextBuildIsAcyclic(session, k, ReadAfter(p, session));
  }

  lemma {:induction false} NoCycleRequested(g: Graph, stepsToBuild: seq<StepIndex>)
    requires Acyclic(g)
    ensures !CycleRequested(g, stepsToBuild)
  {
  }

  lemma {:induction false} StartOfRun(
    steps: seq<Step>, invocations: Invocations, g: Graph, known: seq<bool>, clean: seq<bool>,
    closure: set<nat>, h: History, allowed: nat)
    requires |steps| == |g| == |known| == |clean| && Legal(g, closure, h) && AllDiscarded(h)
    ensures Running(h) == {} && Tallied(steps, h, allowed, allowed, 0) && Verdicts(map[], h)
    ensures Justified(steps, invocations, g, known, clean, h)
  {
    DiscardedOnly(h);
    assert Attempted(h) == {};
    assert NonPhony(steps, {}) == {};
    forall i | 0 <= i < |h| ensures EventJustified(steps, invocations, g, known, clean, h[..i], h[i]) {
      assert LegalEvent(g, closure, h[..i], h[i]);
    }
  }
}
