/** What a build writes to the invocation log, and the graph that the next build derives from it. */
module BuildLogs {
  import opened Graphs
  import opened Manifests
  import opened DependencyDelta
  import opened Histories

  /** A record of a successful run. The dependencies that were used are not part of what is written. */
  datatype LogRecord = LogRecord(
    step: StepIndex, hash: Hash, ignored: seq<StepIndex>, additional: seq<Hash>)

  /** The record is the difference between the manifest and what the logged run used. */
  ghost predicate RecordExact(steps: seq<Step>, r: LogRecord, used: seq<StepIndex>) {
    && r.step < |steps| && r.hash == steps[r.step].hash && Indices(steps, used)
    && IsDelta(steps, steps[r.step].dependencies, used, r.ignored, r.additional)
  }

  ghost predicate AllDone(h: History, used: seq<StepIndex>) {
    forall d :: d in used ==> d in Done(h)
  }

  /** What a run used was done when the run succeeded. */
  ghost predicate Timely(h: History, n: StepIndex, used: seq<StepIndex>) {
    exists k :: 0 <= k < |h| && h[k] == Succeeded(n) && AllDone(h[..k], used)
  }

  /** Each step has at most one record. */
  ghost predicate RecordedOnce(log: seq<LogRecord>) {
    forall i, j :: 0 <= i < j < |log| ==> log[i].step != log[j].step
  }

  ghost predicate Logged(steps: seq<Step>, log: seq<LogRecord>, uses: seq<seq<StepIndex>>, h: History) {
    && |uses| == |log| && RecordedOnce(log)
    && forall i :: 0 <= i < |log| ==> RecordExact(steps, log[i], uses[i]) && Timely(h, log[i].step, uses[i])
  }

  /** Like `Logged`, but also when the build ended in an error after a record was written. */
  ghost predicate Traced(steps: seq<Step>, log: seq<LogRecord>, uses: seq<seq<StepIndex>>, h: History) {
    && |uses| == |log| && RecordedOnce(log)
    && forall i :: 0 <= i < |log| ==> RecordExact(steps, log[i], uses[i]) && TracedUse(h, log[i].step, uses[i])
  }

  ghost predicate TracedUse(h: History, n: StepIndex, used: seq<StepIndex>) {
    Timely(h, n, used) || (n !in Done(h) && AllDone(h, used))
  }

  lemma {:induction false} TimelyMore(h: History, e: Event, n: StepIndex, used: seq<StepIndex>)
    requires Timely(h, n, used)
    ensures Timely(h + [e], n, used)
  {
    var k :| 0 <= k < |h| && h[k] == Succeeded(n) && AllDone(h[..k], used);
    assert (h + [e])[k] == h[k] && (h + [e])[..k] == h[..k];
  }

  lemma {:induction false} TimelyIsBuilt(h: History, n: StepIndex, used: seq<StepIndex>)
    requires Timely(h, n, used)
    ensures n in Built(h)
  {
  }

  lemma {:induction false} LoggedMore(
    steps: seq<Step>, log: seq<LogRecord>, uses: seq<seq<StepIndex>>, h: History, e: Event)
    requires Logged(steps, log, uses, h)
    ensures Logged(steps, log, uses, h + [e])
  {
    forall i | 0 <= i < |log| ensures Timely(h + [e], log[i].step, uses[i]) {
      TimelyMore(h, e, log[i].step, uses[i]);
    }
  }

  /** A record is written for a step that was not built before, and the step is then done, unless there is an error. */
  lemma {:induction false} LoggedAppend(
    steps: seq<Step>, log: seq<LogRecord>, uses: seq<seq<StepIndex>>, h: History, r: LogRecord, used: seq<StepIndex>)
    requires Logged(steps, log, uses, h) && RecordExact(steps, r, used) && AllDone(h, used)
    requires r.step !in Done(h) && Built(h) <= Done(h)
    ensures Logged(steps, log + [r], uses + [used], h + [Succeeded(r.step)])
    ensures Traced(steps, log + [r], uses + [used], h)
  {
    var h' := h + [Succeeded(r.step)];
    LoggedMore(steps, log, uses, h, Succeeded(r.step));
    assert h'[|h|] == Succeeded(r.step) && h'[..|h|] == h;
    forall i | 0 <= i < |log| ensures log[i].step != r.step {
      TimelyIsBuilt(h, log[i].step, uses[i]);
    }
  }

  lemma {:induction false} LoggedIsTraced(
    steps: seq<Step>, log: seq<LogRecord>, uses: seq<seq<StepIndex>>, h: History)
    requires Logged(steps, log, uses, h)
    ensures Traced(steps, log, uses, h)
  {
  }

  /** The first part of a log, as a process that is killed leaves it. */
  lemma {:induction false} TracedPrefix(
    steps: seq<Step>, log: seq<LogRecord>, uses: seq<seq<StepIndex>>, h: History, k: nat)
    requires Traced(steps, log, uses, h) && k <= |log|
    ensures Traced(steps, log[..k], uses[..k], h)
  {
  }

  // The next build reads back what was logged.

  function ReadBack(r: LogRecord): Entry {
    Entry([], [], r.ignored, r.additional)
  }

  /** The entries after the records of a build have been added. */
  function Replay(invocations: Invocations, log: seq<LogRecord>): Invocations {
    if log == [] then invocations
    else Replay(invocations, log[..|log| - 1])[log[|log| - 1].hash := ReadBack(log[|log| - 1])]
  }

  /** A step that was logged has the entry of its record, and any other step the entry that it had. */
  lemma {:induction false} ReplayLogged(
    steps: seq<Step>, invocations: Invocations, log: seq<LogRecord>, i: nat)
    requires RecordedOnce(log) && DistinctHashes(steps) && i < |log|
    requires forall j :: 0 <= j < |log| ==> log[j].step < |steps| && log[j].hash == steps[log[j].step].hash
    ensures log[i].hash in Replay(invocations, log) && Replay(invocations, log)[log[i].hash] == ReadBack(log[i])
  {
    if i < |log| - 1 {
      ReplayLogged(steps, invocations, log[..|log| - 1], i);
      assert log[i].step != log[|log| - 1].step;
    }
  }

  lemma {:induction false} ReplayOther(
    steps: seq<Step>, invocations: Invocations, log: seq<LogRecord>, n: StepIndex)
    requires DistinctHashes(steps) && n < |steps|
    requires forall j :: 0 <= j < |log| ==> log[j].step < |steps| && log[j].hash == steps[log[j].step].hash
    requires forall j :: 0 <= j < |log| ==> log[j].step != n
    ensures AdditionalHashes(steps, Replay(invocations, log), n) == AdditionalHashes(steps, invocations, n)
  {
    if log != [] {
      ReplayOther(steps, invocations, log[..|log| - 1], n);
      assert log[|log| - 1].step != n;
    }
  }

  /** What has an entry after the build is sorted as the format requires. */
  lemma {:induction false} ReplayValid(steps: seq<Step>, invocations: Invocations, log: seq<LogRecord>,
                                       uses: seq<seq<StepIndex>>)
    requires ValidSteps(steps) && ValidInvocations(invocations) && |uses| == |log|
    requires forall i :: 0 <= i < |log| ==> RecordExact(steps, log[i], uses[i])
    ensures ValidInvocations(Replay(invocations, log))
  {
    if log != [] {
      var last := |log| - 1;
      ReplayValid(steps, invocations, log[..last], uses[..last]);
      DeltaWellFormed(
        steps, steps[log[last].step].dependencies, uses[last], log[last].ignored, log[last].additional);
    }
  }

  /** In the next build, a logged step depends on what the manifest says and on what its run used. */
  lemma {:induction false} LoggedDependencies(
    steps: seq<Step>, invocations: Invocations, log: seq<LogRecord>, uses: seq<seq<StepIndex>>, i: nat, d: StepIndex)
    requires RecordedOnce(log) && DistinctHashes(steps) && |uses| == |log| && i < |log|
    requires forall j :: 0 <= j < |log| ==> RecordExact(steps, log[j], uses[j])
    requires log[i].step < |steps| && d in Dependencies(steps, Replay(invocations, log), log[i].step)
    ensures d in steps[log[i].step].dependencies || d in uses[i]
  {
    ReplayLogged(steps, invocations, log, i);
    DecodeDelta(steps, steps[log[i].step].dependencies, uses[i], d);
  }

  // The log introduces no cycles.

  ghost predicate Acyclic(g: Graph) {
    forall n :: !OnCycle(g, n)
  }

  /** The steps in the order in which they completed. */
  ghost function Completions(h: History): seq<StepIndex> {
    if h == [] then []
    else
      var e := h[|h| - 1];
      Completions(h[..|h| - 1]) + if e.Completes() then [e.step] else []
  }

  /** A step completes once, after everything it depends on. */
  lemma {:induction false} CompletesAfter(g: Graph, closure: set<nat>, h: History, m: nat)
    requires Legal(g, closure, h) && m < |h| && h[m].Completes()
    ensures h[m].step !in Done(h[..m]) && (h[m].step < |g| ==> forall d :: d in g[h[m].step] ==> d in Done(h[..m]))
    ensures h[m].step in closure
  {
    LegalPrefix(g, closure, h, m);
    LegalFacts(g, closure, h[..m]);
    assert LegalEvent(g, closure, h[..m], h[m]);
  }

  lemma {:induction false} CompletesOnce(g: Graph, closure: set<nat>, h: History, m: nat, k: nat)
    requires Legal(g, closure, h) && m < |h| && k < |h| && h[m].Completes() && h[k].Completes()
    requires h[m].step == h[k].step
    ensures m == k
  {
    var first, second := if m < k then m else k, if m < k then k else m;
    assert forall i :: 0 <= i < second ==> h[..second][i] == h[i];
    CompletesAfter(g, closure, h, second);
  }

  /** What a step depends on in the next graph, if it completed, was done before it. */
  ghost predicate FollowsHistory(next: Graph, h: History) {
    forall m :: 0 <= m < |h| && h[m].Completes() ==>
      h[m].step < |next| && forall d :: d in next[h[m].step] ==> d in Done(h[..m])
  }

  lemma {:induction false} CompletionsTopological(
    g: Graph, closure: set<nat>, h: History, next: Graph, m: nat)
    requires Legal(g, closure, h) && FollowsHistory(next, h) && m <= |h|
    ensures Topological(next, Completions(h[..m]))
    ensures forall n :: n in Completions(h[..m]) <==> n in Done(h[..m])
  {
    if m > 0 {
      CompletionsTopological(g, closure, h, next, m - 1);
      CompletionsAppend(h, m - 1);
      if h[m - 1].Completes() {
        CompletesAfter(g, closure, h, m - 1);
        TopologicalAppend(next, Completions(h[..m - 1]), h[m - 1].step);
      } else {
        assert Completions(h[..m - 1]) + [] == Completions(h[..m - 1]);
      }
    }
  }

  lemma {:induction false} CompletionsAppend(h: History, m: nat)
    requires m < |h|
    ensures Completions(h[..m + 1]) == Completions(h[..m]) + (if h[m].Completes() then [h[m].step] else [])
    ensures Done(h[..m + 1]) == Done(h[..m]) + (if h[m].Completes() then {h[m].step} else {})
  {
    assert h[..m + 1][..m] == h[..m] && h[..m + 1] == h[..m] + [h[m]];
    Append(h[..m], h[m]);
  }

  lemma {:induction false} TopologicalAppend(g: Graph, order: seq<nat>, n: nat)
    requires Topological(g, order) && n < |g| && n !in order && forall d :: d in g[n] ==> d in order
    ensures Topological(g, order + [n])
  {
    var t := order + [n];
    forall i, d | 0 <= i < |t| && d in g[t[i]] ensures d in t[..i] {
      if i < |order| {
        assert t[..i] == order[..i];
      } else {
        assert t[..i] == order;
      }
    }
  }

  /** Outside of what is done, the next graph has no new edges that do not lead to what is done. */
  ghost predicate NewEdgesToDone(g: Graph, next: Graph, done: set<nat>) {
    |g| == |next| &&
    forall n, d :: 0 <= n < |next| && n !in done && d in next[n] ==> d in g[n] || d in done
  }

  lemma {:induction false} StaysAcyclic(g: Graph, closure: set<nat>, h: History, next: Graph)
    requires Acyclic(g) && Legal(g, closure, h) && FollowsHistory(next, h) && NewEdgesToDone(g, next, Done(h))
    ensures Acyclic(next)
  {
    var order := Completions(h);
    assert h[..|h|] == h;
    CompletionsTopological(g, closure, h, next, |h|);
    forall n ensures !OnCycle(next, n) {
      if p :| PathBetween(next, p, n, n) && |p| > 1 {
        PathOutside(g, next, Done(h), order, p);
      }
    }
  }

  lemma {:induction false} PathOutside(g: Graph, next: Graph, done: set<nat>, order: seq<nat>, p: seq<nat>)
    requires NewEdgesToDone(g, next, done) && Topological(next, order)
    requires (forall n :: n in order <==> n in done) && IsPath(next, p) && |p| > 1 && p[0] == p[|p| - 1]
    ensures OnCycle(g, p[0])
  {
    assert PathBetween(next, p, p[0], p[0]);
    assert OnCycle(next, p[0]);
    if p[0] in order {
      TopologicalIsAcyclic(next, order, p[0]);
    }
    forall i | 0 <= i < |p| ensures p[i] in done ==> p[0] in done {
      if p[i] in done {
        PathStaysIn(next, order, p, i);
      }
    }
    forall j | 0 <= j < |p| - 1 ensures p[j + 1] in g[p[j]] {
      assert p[j + 1] in next[p[j]];
    }
    assert PathBetween(g, p, p[0], p[0]);
  }

  lemma {:induction false} PathStaysIn(g: Graph, order: seq<nat>, p: seq<nat>, i: nat)
    requires Topological(g, order) && IsPath(g, p) && i < |p| && p[i] in order
    ensures p[|p| - 1] in order
  {
    var q := p[i..];
    var s := set n | n in order;
    forall j | 0 <= j < |q| - 1 ensures q[j + 1] in g[q[j]] {
      assert p[(i + j) + 1] in g[p[i + j]];
    }
    TopologicalIsClosed(g, order);
    ClosedContainsPath(g, s, q);
  }

  /** The graph of the next build of the same manifest follows the history of this one. */
  lemma {:induction false} NextFollowsHistory(
    steps: seq<Step>, invocations: Invocations, closure: set<nat>, h: History,
    log: seq<LogRecord>, uses: seq<seq<StepIndex>>)
    requires ValidSteps(steps) && DistinctHashes(steps)
    requires Legal(DependencyGraph(steps, invocations), closure, h) && (forall n :: n in closure ==> n < |steps|)
    requires Traced(steps, log, uses, h)
    ensures FollowsHistory(DependencyGraph(steps, Replay(invocations, log)), h)
  {
    var g, next := DependencyGraph(steps, invocations), DependencyGraph(steps, Replay(invocations, log));
    forall m | 0 <= m < |h| && h[m].Completes()
      ensures h[m].step < |next| && forall d :: d in next[h[m].step] ==> d in Done(h[..m])
    {
      CompletesAfter(g, closure, h, m);
      var n := h[m].step;
      if i :| 0 <= i < |log| && log[i].step == n {
        assert n in Done(h);
        var k :| 0 <= k < |h| && h[k] == Succeeded(n) && AllDone(h[..k], uses[i]);
        CompletesOnce(g, closure, h, m, k);
        forall d | d in next[n] ensures d in Done(h[..m]) {
          LoggedDependencies(steps, invocations, log, uses, i, d);
          assert d in steps[n].dependencies ==> d in g[n];
        }
      } else {
        ReplayOther(steps, invocations, log, n);
      }
    }
  }

  lemma {:induction false} NextEdgesToDone(
    steps: seq<Step>, invocations: Invocations, h: History, log: seq<LogRecord>, uses: seq<seq<StepIndex>>)
    requires DistinctHashes(steps) && Traced(steps, log, uses, h)
    ensures NewEdgesToDone(
      DependencyGraph(steps, invocations), DependencyGraph(steps, Replay(invocations, log)), Done(h))
  {
    var g, next := DependencyGraph(steps, invocations), DependencyGraph(steps, Replay(invocations, log));
    forall n, d | 0 <= n < |next| && n !in Done(h) && d in next[n] ensures d in g[n] || d in Done(h) {
      if i :| 0 <= i < |log| && log[i].step == n {
        LoggedDependencies(steps, invocations, log, uses, i, d);
        assert TracedUse(h, log[i].step, uses[i]) && AllDone(h, uses[i]);
      } else {
        ReplayOther(steps, invocations, log, n);
      }
    }
  }

  /** Whatever happens in a build, its records introduce no cycle into the graph of the next one. */
  lemma {:induction false} LogKeepsAcyclic(
    steps: seq<Step>, invocations: Invocations, closure: set<nat>, h: History,
    log: seq<LogRecord>, uses: seq<seq<StepIndex>>)
    requires ValidSteps(steps) && DistinctHashes(steps) && Acyclic(DependencyGraph(steps, invocations))
    requires Legal(DependencyGraph(steps, invocations), closure, h) && (forall n :: n in closure ==> n < |steps|)
    requires Traced(steps, log, uses, h)
    ensures Acyclic(DependencyGraph(steps, Replay(invocations, log)))
  {
    NextFollowsHistory(steps, invocations, closure, h, log, uses);
    NextEdgesToDone(steps, invocations, h, log, uses);
    StaysAcyclic(
      DependencyGraph(steps, invocations), closure, h, DependencyGraph(steps, Replay(invocations, log)));
  }

  /** Entries may be dropped and their files numbered anew, but their dependencies are those that were logged. */
  predicate Keeps(now: Invocations, before: Invocations) {
    forall h :: h in now ==>
      && h in before && now[h].ignoredDependencies == before[h].ignoredDependencies
      && now[h].additionalDependencies == before[h].additionalDependencies
  }

  lemma {:induction false} KeepsAcyclic(steps: seq<Step>, now: Invocations, before: Invocations)
    requires Keeps(now, before) && Acyclic(DependencyGraph(steps, before))
    ensures Acyclic(DependencyGraph(steps, now))
  {
    var g, g' := DependencyGraph(steps, before), DependencyGraph(steps, now);
    forall n, d | 0 <= n < |steps| && d in g'[n] ensures d in g[n] {
    }
    forall n ensures !OnCycle(g', n) {
      if OnCycle(g', n) {
        CycleInMore(g', g, n);
      }
    }
  }

  lemma {:induction false} CycleInMore(g: Graph, more: Graph, n: nat)
    requires |g| == |more| && (forall m, d :: 0 <= m < |g| && d in g[m] ==> d in more[m]) && OnCycle(g, n)
    ensures OnCycle(more, n)
  {
    var p :| PathBetween(g, p, n, n) && |p| > 1;
    forall i | 0 <= i < |p| - 1 ensures p[i + 1] in more[p[i]] {
      assert p[i + 1] in g[p[i]];
    }
    assert PathBetween(more, p, n, n);
  }
}
