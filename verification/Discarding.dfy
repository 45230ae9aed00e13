/** Which steps a build can do without from the start, and the file ids of their outputs. */
module Discarding {
  import opened Graphs
  import opened Manifests
  import opened Histories
  import opened Scheduling
  import opened Completion
  import opened Files
  import opened Options

  /** What the fingerprint checks say; the memo has nothing for files that are not used. */
  type Memo = seq<Option<MatchesResult>>

  /** The exceptions that completing a step can end in. */
  datatype Error = NoError | WrittenTwice | OutputsUnknown

  /** The number of discarded steps that are not phony. */
  datatype DiscardResult = Count(steps: int) | Threw(error: Error)

  /** The step and all that it transitively depends on are clean or phony. */
  ghost predicate Discardable(g: Graph, idle: seq<bool>, n: nat)
    requires |idle| == |g|
  {
    forall m: nat :: Reaches(g, n, m) && m < |g| ==> idle[m]
  }

  lemma {:induction false} ReachesFirst(g: Graph, n: nat, m: nat)
    requires Reaches(g, n, m)
    ensures n == m || (n < |g| && exists d :: d in g[n] && Reaches(g, d, m))
  {
    var p :| PathBetween(g, p, n, m);
    if |p| > 1 {
      var q := p[1..];
      assert p[0 + 1] in g[p[0]];
      forall i | 0 <= i < |q| - 1 ensures q[i + 1] in g[q[i]] {
        assert p[(i + 1) + 1] in g[p[i + 1]];
      }
      assert PathBetween(g, q, p[1], m);
    }
  }

  lemma {:induction false} DiscardableStep(g: Graph, idle: seq<bool>, n: nat)
    requires ValidGraph(g) && |idle| == |g| && n < |g|
    ensures Discardable(g, idle, n) <==> idle[n] && forall d :: d in g[n] ==> Discardable(g, idle, d)
  {
    ReachesSelf(g, n);
    if Discardable(g, idle, n) {
      forall d, m: nat | d in g[n] && Reaches(g, d, m) && m < |g| ensures idle[m] {
        ReachesPrepend(g, n, d, m);
      }
    }
    if idle[n] && forall d :: d in g[n] ==> Discardable(g, idle, d) {
      forall m: nat | Reaches(g, n, m) && m < |g| ensures idle[m] {
        ReachesFirst(g, n, m);
        if n != m {
          var d :| d in g[n] && Reaches(g, d, m);
          assert Discardable(g, idle, d);
        }
      }
    }
  }

  /** A list of steps, dependencies first, in which every idle step with only done dependencies is done. */
  lemma {:induction false} DiscardedExactly(g: Graph, idle: seq<bool>, order: seq<nat>, done: set<nat>, k: nat)
    requires ValidGraph(g) && |idle| == |g| && Topological(g, order) && k <= |order|
    requires forall n :: n in done ==> n < |g| && idle[n] && AllIn(g[n], done)
    requires forall n :: n in order && idle[n] && AllIn(g[n], done) ==> n in done
    ensures forall i :: 0 <= i < k ==> (order[i] in done <==> Discardable(g, idle, order[i]))
  {
    if k > 0 {
      DiscardedExactly(g, idle, order, done, k - 1);
      var n := order[k - 1];
      DiscardableStep(g, idle, n);
      forall d | d in g[n] ensures d in done <==> Discardable(g, idle, d) {
        assert d in order[..k - 1];
      }
    }
  }

  /** The file ids that `outputFileIdsForBuildStep` finds, or nothing where it throws. */
  ghost function StepOutputs(steps: seq<Step>, invocations: Invocations, memo: Memo, n: nat): Option<seq<FileId>>
    requires n < |steps|
  {
    if steps[n].phony || steps[n].generator then Some([])
    else if steps[n].hash !in invocations then None
    else FileIds(memo, invocations[steps[n].hash].outputFiles)
  }

  ghost function FileIds(memo: Memo, files: seq<nat>): Option<seq<FileId>> {
    if files == [] then Some([])
    else
      var rest := FileIds(memo, files[..|files| - 1]);
      var last := files[|files| - 1];
      if rest.None? || last >= |memo| || memo[last].None? then None
      else Some(rest.value + [memo[last].value.fileId])
  }

  /** The ids that the memo has for the files, in their order. */
  ghost predicate LookedUp(memo: Memo, files: seq<nat>, ids: seq<FileId>) {
    && |ids| == |files|
    && forall i :: 0 <= i < |files| ==>
         files[i] < |memo| && memo[files[i]].Some? && ids[i] == memo[files[i]].value.fileId
  }

  lemma {:induction false} FileIdsExact(memo: Memo, files: seq<nat>)
    ensures FileIds(memo, files).Some? ==> LookedUp(memo, files, FileIds(memo, files).value)
    ensures FileIds(memo, files).None? ==> exists f :: f in files && (f >= |memo| || memo[f].None?)
    decreases |files|
  {
    if files != [] {
      FileIdsExact(memo, files[..|files| - 1]);
    }
  }

  /** A generator or phony step has no outputs here; those of another step are unknown if it or one of its files is. */
  method OutputFileIdsForBuildStep(steps: seq<Step>, invocations: Invocations, memo: Memo, n: nat)
    returns (ids: Option<seq<FileId>>)
    requires n < |steps|
    requires forall h, f :: h in invocations && f in invocations[h].outputFiles ==> f < |memo|
    ensures ids == StepOutputs(steps, invocations, memo, n)
    ensures steps[n].phony || steps[n].generator ==> ids == Some([])
    ensures !steps[n].phony && !steps[n].generator ==>
      && (ids.Some? <==>
            steps[n].hash in invocations &&
            forall f :: f in invocations[steps[n].hash].outputFiles ==> memo[f].Some?)
      && (ids.Some? ==> LookedUp(memo, invocations[steps[n].hash].outputFiles, ids.value))
  {
    if steps[n].phony || steps[n].generator {
      return Some([]);
    }
    if steps[n].hash !in invocations {
      return None;
    }
    var files := invocations[steps[n].hash].outputFiles;
    FileIdsExact(memo, files);
    var fileIds := [];
    for i := 0 to |files|
      invariant FileIds(memo, files[..i]) == Some(fileIds)
    {
      assert files[..i + 1][..i] == files[..i];
      assert files[i] in files;
      var found := memo[files[i]];
      if found.None? {
        FileIdsNone(memo, files, i);
        return None;
      }
      fileIds := fileIds + [found.value.fileId];
    }
    assert files[..|files|] == files;
    return Some(fileIds);
  }

  lemma {:induction false} FileIdsNone(memo: Memo, files: seq<nat>, i: nat)
    requires i < |files| && (files[i] >= |memo| || memo[files[i]].None?)
    ensures FileIds(memo, files).None?
    decreases |files|
  {
    if i < |files| - 1 {
      FileIdsNone(memo, files[..|files| - 1], i);
    }
  }

  /** No id in the list is taken, and none but the missing one is repeated. */
  ghost predicate FreshOutputs(files: map<FileId, StepIndex>, ids: seq<FileId>) {
    forall i :: 0 <= i < |ids| && !ids[i].Missing() ==>
      ids[i] !in files && forall j :: 0 <= j < i ==> ids[j] != ids[i]
  }

  ghost function OutputMap(ids: seq<FileId>, n: StepIndex): map<FileId, StepIndex> {
    map f | f in ids && !f.Missing() :: n
  }

  lemma {:induction false} OutputMapNext(files: map<FileId, StepIndex>, ids: seq<FileId>, n: StepIndex, i: nat)
    requires i < |ids|
    ensures files + OutputMap(ids[..i + 1], n) ==
      if ids[i].Missing() then files + OutputMap(ids[..i], n) else (files + OutputMap(ids[..i], n))[ids[i] := n]
  {
    assert ids[..i + 1] == ids[..i] + [ids[i]];
  }

  lemma {:induction false} FreshOutputsNext(files: map<FileId, StepIndex>, ids: seq<FileId>, n: StepIndex, i: nat)
    requires i < |ids| && FreshOutputs(files, ids[..i])
    ensures ids[i].Missing() || ids[i] !in files + OutputMap(ids[..i], n) ==> FreshOutputs(files, ids[..i + 1])
    ensures !ids[i].Missing() && ids[i] in files + OutputMap(ids[..i], n) ==> !FreshOutputs(files, ids)
  {
    var front := ids[..i];
    assert ids[..i + 1] == front + [ids[i]];
    if !ids[i].Missing() && ids[i] in OutputMap(front, n) {
      var j :| 0 <= j < i && front[j] == ids[i];
      assert ids[j] == ids[i];
    }
  }

  /** Every recorded file belongs to one of the given steps. */
  ghost predicate OwnersIn(files: map<FileId, StepIndex>, s: set<nat>) {
    forall f :: f in files ==> files[f] in s
  }

  lemma {:induction false} OwnersAdd(files: map<FileId, StepIndex>, s: set<nat>, ids: seq<FileId>, n: nat)
    requires OwnersIn(files, s)
    ensures OwnersIn(files + OutputMap(ids, n), s + {n})
  {
  }

  /** The outputs of each step, as far as they can be found. */
  ghost function OutputTable(steps: seq<Step>, invocations: Invocations, memo: Memo): seq<seq<FileId>> {
    seq(|steps|, n requires 0 <= n < |steps| =>
      match StepOutputs(steps, invocations, memo, n) case Some(ids) => ids case None => [])
  }

  /** The two lists have no file in common. */
  ghost predicate Apart(a: seq<FileId>, b: seq<FileId>) {
    forall f :: f in a && f in b ==> f.Missing()
  }

  /** All the outputs of the steps in `s` can be entered in `files` without a clash. */
  ghost predicate NoClash(outputs: seq<seq<FileId>>, files: map<FileId, StepIndex>, s: set<nat>) {
    && (forall n :: n in s && n < |outputs| ==> FreshOutputs(files, outputs[n]))
    && (forall n, m :: n in s && m in s && n < |outputs| && m < |outputs| && n != m ==> Apart(outputs[n], outputs[m]))
  }

  ghost predicate Writes(outputs: seq<seq<FileId>>, s: set<nat>, f: FileId) {
    exists n :: n in s && n < |outputs| && f in outputs[n]
  }

  /** The file was there before, or is an output of the step that it belongs to. */
  ghost predicate OwnedBy(
    outputs: seq<seq<FileId>>, files: map<FileId, StepIndex>, s: set<nat>, files': map<FileId, StepIndex>, f: FileId)
    requires f in files'
  {
    || (f in files && files'[f] == files[f])
    || (files'[f] in s && files'[f] < |outputs| && f in outputs[files'[f]])
  }

  /** `files'` has the files in `files` and, for each of the steps in `s`, its outputs. */
  ghost predicate Recorded(
    outputs: seq<seq<FileId>>, files: map<FileId, StepIndex>, s: set<nat>, files': map<FileId, StepIndex>)
  {
    && (forall f :: f in files' <==> f in files || (!f.Missing() && Writes(outputs, s, f)))
    && (forall f :: f in files' ==> OwnedBy(outputs, files, s, files', f))
  }

  lemma {:induction false} RecordApart(
    outputs: seq<seq<FileId>>, files: map<FileId, StepIndex>, s: set<nat>, files': map<FileId, StepIndex>,
    n: nat, m: nat)
    requires Recorded(outputs, files, s, files') && n < |outputs| && m < |outputs| && m in s
    requires FreshOutputs(files', outputs[n])
    ensures Apart(outputs[n], outputs[m]) && Apart(outputs[m], outputs[n])
  {
    forall f | f in outputs[n] && f in outputs[m] ensures f.Missing() {
      var i :| 0 <= i < |outputs[n]| && outputs[n][i] == f;
      assert Writes(outputs, s, f);
    }
  }

  lemma {:induction false} RecordFresh(
    outputs: seq<seq<FileId>>, files: map<FileId, StepIndex>, s: set<nat>, files': map<FileId, StepIndex>, n: nat)
    requires NoClash(outputs, files, s) && Recorded(outputs, files, s, files') && n < |outputs|
    requires FreshOutputs(files', outputs[n])
    ensures NoClash(outputs, files, s + {n})
  {
    forall m | m in s && m < |outputs| ensures Apart(outputs[n], outputs[m]) && Apart(outputs[m], outputs[n]) {
      RecordApart(outputs, files, s, files', n, m);
    }
    assert FreshOutputs(files, outputs[n]) by {
      forall i | 0 <= i < |outputs[n]| && !outputs[n][i].Missing() ensures outputs[n][i] !in files {
        assert outputs[n][i] !in files';
      }
    }
  }

  lemma {:induction false} WritesMore(outputs: seq<seq<FileId>>, s: set<nat>, n: nat, f: FileId)
    requires n < |outputs|
    ensures Writes(outputs, s + {n}, f) <==> Writes(outputs, s, f) || f in outputs[n]
  {
    if f in outputs[n] {
      assert n in s + {n};
    }
  }

  lemma {:induction false} RecordOwned(
    outputs: seq<seq<FileId>>, files: map<FileId, StepIndex>, s: set<nat>, files': map<FileId, StepIndex>, n: nat)
    requires Recorded(outputs, files, s, files') && n < |outputs|
    ensures Recorded(outputs, files, s + {n}, files' + OutputMap(outputs[n], n))
  {
    var added := files' + OutputMap(outputs[n], n);
    forall f ensures f in added <==> f in files || (!f.Missing() && Writes(outputs, s + {n}, f)) {
      WritesMore(outputs, s, n, f);
    }
    forall f | f in added ensures OwnedBy(outputs, files, s + {n}, added, f) {
      if f !in OutputMap(outputs[n], n) {
        assert OwnedBy(outputs, files, s, files', f);
      }
    }
  }

  lemma {:induction false} RecordClash(
    outputs: seq<seq<FileId>>, files: map<FileId, StepIndex>, s: set<nat>, files': map<FileId, StepIndex>,
    n: nat, all: set<nat>)
    requires Recorded(outputs, files, s, files') && n < |outputs|
    requires n !in s && n in all && s <= all
    requires !FreshOutputs(files', outputs[n])
    ensures !NoClash(outputs, files, all)
  {
    var ids := outputs[n];
    var i :| 0 <= i < |ids| && !ids[i].Missing() &&
      !(ids[i] !in files' && forall j :: 0 <= j < i ==> ids[j] != ids[i]);
    if ids[i] in files' && ids[i] !in files {
      var m :| m in s && m < |outputs| && ids[i] in outputs[m];
      assert !Apart(outputs[n], outputs[m]);
    } else {
      assert !FreshOutputs(files, ids);
    }
  }

  /** What holds while clean steps are being discarded. */
  ghost predicate DiscardPhase(g: Graph, idle: seq<bool>, h: History, held: set<nat>, visited: seq<bool>) {
    && |idle| == |g| == |visited|
    && AllDiscarded(h)
    && (forall n :: n in Launched(h) ==> n < |g| && idle[n])
    && (forall n :: n in held ==> n < |g| && !idle[n])
    && (forall n :: 0 <= n < |g| ==> (visited[n] <==> n in Launched(h) || n in held))
  }

  lemma {:induction false} DiscardedOnly(h: History)
    requires AllDiscarded(h)
    ensures Done(h) == Launched(h) && Built(h) == {} && FailedSteps(h) == {} && Running(h) == {}
  {
  }

  /** Steps discarded so far are discardable, and so is an idle step that only depends on them. */
  lemma {:induction false} DiscardNext(
    g: Graph, idle: seq<bool>, closure: set<nat>, h: History, held: set<nat>, visited: seq<bool>, n: nat)
    requires ValidGraph(g) && Legal(g, closure, h) && DiscardPhase(g, idle, h, held, visited)
    requires n < |g| && idle[n] && AllIn(g[n], Done(h))
    ensures Discardable(g, idle, n) && forall m :: m in Done(h) ==> Discardable(g, idle, m)
  {
    DiscardedOnly(h);
    LegalFacts(g, closure, h);
    DoneIsClosed(g, closure, h);
    forall m | m in Done(h) ensures Discardable(g, idle, m) {
      forall k: nat | Reaches(g, m, k) && k < |g| ensures idle[k] {
        ClosedContainsReachable(g, Done(h), m, k);
      }
    }
    DiscardableStep(g, idle, n);
  }

  /** When no ready step is left to look at, exactly the discardable steps are done. */
  lemma {:induction false} DiscardFinished(
    g: Graph, idle: seq<bool>, order: seq<nat>, h: History, held: set<nat>, visited: seq<bool>)
    requires ValidGraph(g) && Topological(g, order) && Legal(g, Closure(order), h)
    requires DiscardPhase(g, idle, h, held, visited) && ReadyExactly(g, Closure(order), h, [], held)
    ensures forall n :: n in Done(h) <==> n in order && Discardable(g, idle, n)
  {
    DiscardedOnly(h);
    LegalFacts(g, Closure(order), h);
    var done := Done(h);
    forall n | n in order && idle[n] && AllIn(g[n], done) ensures n in done {
      assert !IsReady(g, Closure(order), h, n) || n in held;
    }
    DiscardedExactly(g, idle, order, done, |order|);
  }

  ghost predicate AllDiscarded(h: History) {
    forall i :: 0 <= i < |h| ==> h[i].Discarded?
  }

  ghost function NonPhony(steps: seq<Step>, s: set<nat>): set<nat> {
    set n | n in s && n < |steps| && !steps[n].phony
  }

  ghost function DiscardSet(g: Graph, idle: seq<bool>, order: seq<nat>): set<nat>
    requires |idle| == |g|
  {
    set n | n in order && Discardable(g, idle, n)
  }

  lemma {:induction false} DiscardSetIsIdle(g: Graph, idle: seq<bool>, order: seq<nat>)
    requires |idle| == |g|
    ensures forall n :: n in DiscardSet(g, idle, order) && n < |g| ==> idle[n]
  {
    forall n | n in DiscardSet(g, idle, order) && n < |g| ensures idle[n] {
      ReachesSelf(g, n);
    }
  }

  lemma {:induction false} DiscardPhaseStart(g: Graph, idle: seq<bool>, visited: seq<bool>)
    requires |idle| == |g| == |visited| && forall n :: 0 <= n < |g| ==> !visited[n]
    ensures DiscardPhase(g, idle, [], {}, visited)
  {
  }

  /** A discarded step. */
  lemma {:induction false} DiscardPhaseDone(
    g: Graph, idle: seq<bool>, h: History, held: set<nat>, visited: seq<bool>, n: nat)
    requires DiscardPhase(g, idle, h, held, visited) && n < |g| && idle[n] && n !in Launched(h)
    ensures DiscardPhase(g, idle, h + [Discarded(n)], held, visited[n := true])
    ensures Done(h + [Discarded(n)]) == Done(h) + {n} && Launched(h + [Discarded(n)]) == Launched(h) + {n}
  {
    Append(h, Discarded(n));
  }

  /** A step that has to wait for its turn. */
  lemma {:induction false} DiscardPhaseHeld(
    g: Graph, idle: seq<bool>, h: History, held: set<nat>, visited: seq<bool>, n: nat)
    requires DiscardPhase(g, idle, h, held, visited) && n < |g| && !idle[n]
    ensures DiscardPhase(g, idle, h, held + {n}, visited[n := true])
  {
  }

  lemma {:induction false} NonPhonyAdd(steps: seq<Step>, s: set<nat>, n: nat)
    requires n < |steps| && n !in s
    ensures |NonPhony(steps, s + {n})| == |NonPhony(steps, s)| + if steps[n].phony then 0 else 1
  {
    assert NonPhony(steps, s + {n}) == NonPhony(steps, s) + if steps[n].phony then {} else {n};
  }

  /** Discarding all the steps in `all` meets no error. */
  ghost predicate Recordable(
    steps: seq<Step>, invocations: Invocations, memo: Memo, files: map<FileId, StepIndex>, all: set<nat>)
  {
    && (forall n :: n in all && n < |steps| ==> StepOutputs(steps, invocations, memo, n).Some?)
    && NoClash(OutputTable(steps, invocations, memo), files, all)
  }

  /** Where the discarding has come to, starting with `files`. */
  ghost predicate DiscardState(
    steps: seq<Step>, invocations: Invocations, memo: Memo, g: Graph, idle: seq<bool>, files: map<FileId, StepIndex>,
    h: History, held: set<nat>, visited: seq<bool>, files': map<FileId, StepIndex>, discarded: int)
  {
    && |g| == |steps|
    && DiscardPhase(g, idle, h, held, visited)
    && Recordable(steps, invocations, memo, files, Done(h))
    && Recorded(OutputTable(steps, invocations, memo), files, Done(h), files')
    && discarded == |NonPhony(steps, Done(h))|
  }

  /** An idle step at its turn may be discarded. */
  lemma {:induction false} DiscardTurn(
    g: Graph, idle: seq<bool>, order: seq<nat>, h: History, held: set<nat>, visited: seq<bool>, n: nat)
    requires ValidGraph(g) && Topological(g, order) && Legal(g, Closure(order), h)
    requires DiscardPhase(g, idle, h, held, visited)
    requires IsReady(g, Closure(order), h, n) && idle[n]
    ensures Completing(g, Closure(order), h, held + {n}, Discarded(n))
    ensures n in DiscardSet(g, idle, order) && Done(h) <= DiscardSet(g, idle, order)
  {
    DiscardNext(g, idle, Closure(order), h, held, visited, n);
    DiscardedOnly(h);
    LegalFacts(g, Closure(order), h);
  }

  lemma {:induction false} DiscardAccepted(
    steps: seq<Step>, invocations: Invocations, memo: Memo, g: Graph, idle: seq<bool>, files: map<FileId, StepIndex>,
    h: History, held: set<nat>, visited: seq<bool>, files': map<FileId, StepIndex>, discarded: int, n: nat)
    requires DiscardState(steps, invocations, memo, g, idle, files, h, held, visited, files', discarded)
    requires n < |g| && idle[n] && n !in Launched(h)
    requires StepOutputs(steps, invocations, memo, n).Some?
    requires FreshOutputs(files', StepOutputs(steps, invocations, memo, n).value)
    ensures
      var ids := StepOutputs(steps, invocations, memo, n).value;
      DiscardState(
        steps, invocations, memo, g, idle, files, h + [Discarded(n)], held, visited[n := true],
        files' + OutputMap(ids, n), discarded + if steps[n].phony then 0 else 1)
  {
    var outputs := OutputTable(steps, invocations, memo);
    assert outputs[n] == StepOutputs(steps, invocations, memo, n).value;
    DiscardedOnly(h);
    DiscardPhaseDone(g, idle, h, held, visited, n);
    NonPhonyAdd(steps, Done(h), n);
    RecordFresh(outputs, files, Done(h), files', n);
    RecordOwned(outputs, files, Done(h), files', n);
  }

  lemma {:induction false} DiscardRefused(
    steps: seq<Step>, invocations: Invocations, memo: Memo, g: Graph, idle: seq<bool>, files: map<FileId, StepIndex>,
    h: History, held: set<nat>, visited: seq<bool>, files': map<FileId, StepIndex>, discarded: int,
    n: nat, all: set<nat>)
    requires DiscardState(steps, invocations, memo, g, idle, files, h, held, visited, files', discarded)
    requires n < |g| && n !in Launched(h) && n in all && Done(h) <= all
    requires
      var ids := StepOutputs(steps, invocations, memo, n);
      ids.Some? ==> !FreshOutputs(files', ids.value)
    ensures !Recordable(steps, invocations, memo, files, all)
  {
    var outputs := OutputTable(steps, invocations, memo);
    var ids := StepOutputs(steps, invocations, memo, n);
    if ids.Some? {
      assert outputs[n] == ids.value;
      DiscardedOnly(h);
      RecordClash(outputs, files, Done(h), files', n, all);
    }
  }

  /** Each round leaves fewer steps to look at. */
  lemma {:induction false} LeftShrinks(closure: set<nat>, h: History, held: set<nat>, n: nat)
    requires n in closure && n !in Launched(h) && n !in held
    ensures closure - Launched(h + [Discarded(n)]) - held < closure - Launched(h) - held
    ensures closure - Launched(h) - (held + {n}) < closure - Launched(h) - held
  {
    Append(h, Discarded(n));
    assert n in closure - Launched(h) - held;
  }

  lemma {:induction false} HoldBack(ready: seq<nat>, n: nat)
    requires Distinct(ready) && n !in ready
    ensures Distinct(ready + [n]) && Closure(ready + [n]) == Closure(ready) + {n}
  {
  }

  /** When the ready list has been emptied, the steps that were held back are the ready ones. */
  lemma {:induction false} DiscardOutcome(
    steps: seq<Step>, invocations: Invocations, memo: Memo, g: Graph, known: seq<bool>, idle: seq<bool>,
    order: seq<nat>, nodes: seq<StepNode>, files: map<FileId, StepIndex>, h: History,
    held: seq<nat>, visited: seq<bool>, files': map<FileId, StepIndex>, discarded: int)
    requires ValidGraph(g) && Topological(g, order) && Distinct(held)
    requires Consistent(steps, invocations, g, known, Closure(order), nodes, [], Closure(held), h)
    requires DiscardState(steps, invocations, memo, g, idle, files, h, Closure(held), visited, files', discarded)
    ensures Consistent(steps, invocations, g, known, Closure(order), nodes, held, {}, h)
    ensures
      var all := DiscardSet(g, idle, order);
      && AllDiscarded(h) && Done(h) == all && Recordable(steps, invocations, memo, files, all)
      && discarded == |NonPhony(steps, all)|
      && Recorded(OutputTable(steps, invocations, memo), files, all, files')
      && forall n :: n in held <==> n in order && n !in all && AllIn(g[n], all)
  {
    DiscardFinished(g, idle, order, h, Closure(held), visited);
    assert Done(h) == DiscardSet(g, idle, order);
    DiscardedOnly(h);
  }
}
