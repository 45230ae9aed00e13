/** What the command runner reports on commands, and what the tables, the log and the history of a build make of it. */
module Reports {
  import opened Manifests
  import opened DependencyDelta
  import opened Histories
  import opened Discarding
  import opened Files
  import opened Graphs
  import opened BuildLogs

  datatype ExitStatus = Success | Failure | Interrupted

  datatype OutputFile = OutputFile(fileId: FileId, couldAccess: bool, hash: Hash)

  /** What the runner reports when a command is finished. */
  datatype CommandResult = CommandResult(
    exitStatus: ExitStatus, outputs: seq<OutputFile>, inputs: seq<FileId>)

  /** The reports of a build so far, by the step that they are about. */
  type Reports = map<StepIndex, CommandResult>

  function FileIdsOf(outputs: seq<OutputFile>): (ids: seq<FileId>)
    ensures |ids| == |outputs| && forall i :: 0 <= i < |ids| ==> ids[i] == outputs[i].fileId
  {
    seq(|outputs|, i requires 0 <= i < |outputs| => outputs[i].fileId)
  }

  // The table of output files.

  /** The outputs of a step that is done: those that its command reported, or those in the log if it was skipped. */
  ghost function OutputsOf(logged: seq<seq<FileId>>, reports: Reports, built: set<nat>, n: nat): seq<FileId> {
    if n in built then
      if n in reports then FileIdsOf(reports[n].outputs) else []
    else
      if n < |logged| then logged[n] else []
  }

  /** The step is done, and the file is one of its outputs. */
  ghost predicate Makes(logged: seq<seq<FileId>>, reports: Reports, h: History, n: nat, f: FileId) {
    n in Done(h) && !f.Missing() && f in OutputsOf(logged, reports, Built(h), n)
  }

  /** The table has exactly the outputs of the steps that are done, each for the step that it is an output of. */
  ghost predicate TableExact(
    logged: seq<seq<FileId>>, reports: Reports, h: History, files: map<FileId, StepIndex>)
  {
    && (forall f :: f in files ==> Makes(logged, reports, h, files[f], f))
    && (forall f, n :: Makes(logged, reports, h, n, f) ==> f in files && files[f] == n)
  }

  /** All the entries stay. */
  ghost predicate Extends(files: map<FileId, StepIndex>, files': map<FileId, StepIndex>) {
    forall f :: f in files ==> f in files' && files'[f] == files[f]
  }

  /** The outputs that a command reports belong to its step. */
  ghost predicate OwnsOutputs(files: map<FileId, StepIndex>, n: StepIndex, outputs: seq<OutputFile>) {
    forall i :: 0 <= i < |outputs| && !outputs[i].fileId.Missing() ==>
      outputs[i].fileId in files && files[outputs[i].fileId] == n
  }

  lemma {:induction false} OutputsEntered(files: map<FileId, StepIndex>, n: StepIndex, outputs: seq<OutputFile>)
    requires FreshOutputs(files, FileIdsOf(outputs))
    ensures Extends(files, files + OutputMap(FileIdsOf(outputs), n))
    ensures OwnsOutputs(files + OutputMap(FileIdsOf(outputs), n), n, outputs)
  {
    var ids := FileIdsOf(outputs);
    forall i | 0 <= i < |outputs| && !outputs[i].fileId.Missing() ensures outputs[i].fileId in OutputMap(ids, n) {
      assert ids[i] == outputs[i].fileId;
    }
  }

  /** The reports on built steps are the same. */
  ghost predicate Agree(reports: Reports, reports': Reports, built: set<nat>) {
    forall m :: m in built ==> m in reports && m in reports' && reports[m] == reports'[m]
  }

  lemma {:induction false} MakesSame(
    logged: seq<seq<FileId>>, reports: Reports, reports': Reports, h: History, h': History, n: nat, f: FileId)
    requires Agree(reports, reports', Built(h)) && Done(h') == Done(h) && Built(h') == Built(h)
    ensures Makes(logged, reports', h', n, f) <==> Makes(logged, reports, h, n, f)
  {
  }

  /** Nothing has been completed, but there may be another report. */
  lemma {:induction false} TableSame(
    logged: seq<seq<FileId>>, reports: Reports, reports': Reports, h: History, h': History,
    files: map<FileId, StepIndex>)
    requires TableExact(logged, reports, h, files)
    requires Agree(reports, reports', Built(h)) && Done(h') == Done(h) && Built(h') == Built(h)
    ensures TableExact(logged, reports', h', files)
  {
    forall n, f ensures Makes(logged, reports', h', n, f) <==> Makes(logged, reports, h, n, f) {
      MakesSame(logged, reports, reports', h, h', n, f);
    }
  }

  lemma {:induction false} MakesNext(
    logged: seq<seq<FileId>>, reports: Reports, reports': Reports, h: History, e: Event, n: nat, f: FileId)
    requires Agree(reports, reports', Built(h)) && Built(h) <= Done(h) && e.Completes() && e.step !in Done(h)
    ensures Makes(logged, reports', h + [e], n, f) <==>
      || Makes(logged, reports, h, n, f)
      || (n == e.step && !f.Missing() && f in OutputsOf(logged, reports', Built(h + [e]), n))
  {
    Append(h, e);
  }

  /** A step has been completed, and its outputs have been entered. */
  lemma {:induction false} TableNext(
    logged: seq<seq<FileId>>, reports: Reports, reports': Reports, h: History, e: Event,
    files: map<FileId, StepIndex>, ids: seq<FileId>)
    requires TableExact(logged, reports, h, files) && FreshOutputs(files, ids)
    requires Agree(reports, reports', Built(h)) && Built(h) <= Done(h) && e.Completes() && e.step !in Done(h)
    requires ids == OutputsOf(logged, reports', Built(h + [e]), e.step)
    ensures TableExact(logged, reports', h + [e], files + OutputMap(ids, e.step))
  {
    var files' := files + OutputMap(ids, e.step);
    forall f | f in files' ensures Makes(logged, reports', h + [e], files'[f], f) {
      MakesNext(logged, reports, reports', h, e, files'[f], f);
    }
    forall f, n | Makes(logged, reports', h + [e], n, f) ensures f in files' && files'[f] == n {
      MakesNext(logged, reports, reports', h, e, n, f);
    }
  }

  /** After the discarding of clean steps, which has left their logged outputs. */
  lemma {:induction false} TableStart(
    logged: seq<seq<FileId>>, h: History, files: map<FileId, StepIndex>)
    requires AllDiscarded(h) && NoClash(logged, map[], Done(h)) && Recorded(logged, map[], Done(h), files)
    ensures TableExact(logged, map[], h, files)
  {
    DiscardedOnly(h);
    forall f | f in files ensures Makes(logged, map[], h, files[f], f) {
      assert OwnedBy(logged, map[], Done(h), files, f);
    }
    forall f, n: nat | Makes(logged, map[], h, n, f) ensures f in files && files[f] == n {
      assert Writes(logged, Done(h), f);
      assert OwnedBy(logged, map[], Done(h), files, f);
      assert Apart(logged[n], logged[files[f]]) || n == files[f];
    }
  }

  // The written files, and which reports are accepted as successes.

  /** The file is one of the accessible outputs. */
  ghost predicate Wrote(outputs: seq<OutputFile>, f: FileId) {
    exists i :: 0 <= i < |outputs| && outputs[i].couldAccess && outputs[i].fileId == f
  }

  /** A command that has been reported on, successful or not, wrote the file. */
  ghost predicate WrittenIn(reports: Reports, h: History, f: FileId) {
    exists m :: m in Built(h) + FailedSteps(h) && m in reports && Wrote(reports[m].outputs, f)
  }

  /** No accessible file is listed twice. */
  ghost predicate ListedOnce(outputs: seq<OutputFile>) {
    forall i, j :: 0 <= j < i < |outputs| && outputs[i].couldAccess && outputs[j].couldAccess ==>
      outputs[j].fileId != outputs[i].fileId
  }

  /** The command was successful, and wrote each file once and none that another command wrote before. */
  ghost predicate Accepted(reports: Reports, before: History, result: CommandResult) {
    && result.exitStatus == Success
    && ListedOnce(result.outputs)
    && forall f :: Wrote(result.outputs, f) ==> !WrittenIn(reports, before, f)
  }

  ghost predicate VerdictAt(reports: Reports, before: History, e: Event) {
    e.Succeeded? || e.Failed? ==>
      e.step in reports && (e.Succeeded? <==> Accepted(reports, before, reports[e.step]))
  }

  /** A step counts as built exactly if the report on its command was accepted when it came. */
  ghost predicate Verdicts(reports: Reports, h: History) {
    forall k :: 0 <= k < |h| ==> VerdictAt(reports, h[..k], h[k])
  }

  /** The written files, with the hashes of those that successful commands wrote. */
  ghost predicate WrittenExact(reports: Reports, h: History, written: map<FileId, Hash>) {
    && (forall f :: f in written <==> WrittenIn(reports, h, f))
    && (forall m, i :: m in Built(h) && m in reports && 0 <= i < |reports[m].outputs| ==>
          reports[m].outputs[i].couldAccess ==> HashKept(written, reports[m].outputs[i]))
  }

  ghost predicate HashKept(written: map<FileId, Hash>, output: OutputFile) {
    output.fileId in written && written[output.fileId] == output.hash
  }

  /** No accessible file in the list was written before, and none is listed twice. */
  ghost predicate FreshWrites(files: map<FileId, Hash>, outputs: seq<OutputFile>) {
    forall i :: 0 <= i < |outputs| && outputs[i].couldAccess ==>
      && outputs[i].fileId !in files
      && forall j :: 0 <= j < i && outputs[j].couldAccess ==> outputs[j].fileId != outputs[i].fileId
  }

  /** The written files with the accessible ones in the list; what was written first stays. */
  ghost function Written(files: map<FileId, Hash>, outputs: seq<OutputFile>): map<FileId, Hash> {
    if outputs == [] then files
    else
      var rest := Written(files, outputs[..|outputs| - 1]);
      var last := outputs[|outputs| - 1];
      if last.couldAccess && last.fileId !in rest then rest[last.fileId := last.hash] else rest
  }

  lemma {:induction false} WrittenKeys(files: map<FileId, Hash>, outputs: seq<OutputFile>, f: FileId)
    ensures f in Written(files, outputs) <==> f in files || Wrote(outputs, f)
    ensures f in files ==> f in Written(files, outputs) && Written(files, outputs)[f] == files[f]
    decreases |outputs|
  {
    if outputs != [] {
      var front := outputs[..|outputs| - 1];
      WrittenKeys(files, front, f);
    }
  }

  lemma {:induction false} WrittenHash(files: map<FileId, Hash>, outputs: seq<OutputFile>, i: nat)
    requires FreshWrites(files, outputs) && i < |outputs| && outputs[i].couldAccess
    ensures HashKept(Written(files, outputs), outputs[i])
    decreases |outputs|
  {
    var front := outputs[..|outputs| - 1];
    if i < |outputs| - 1 {
      WrittenHash(files, front, i);
    } else {
      WrittenKeys(files, front, outputs[i].fileId);
    }
  }

  lemma {:induction false} FreshWritesNext(files: map<FileId, Hash>, outputs: seq<OutputFile>, i: nat)
    requires i < |outputs|
    ensures FreshWrites(files, outputs[..i + 1]) <==>
      FreshWrites(files, outputs[..i]) &&
      (outputs[i].couldAccess ==> outputs[i].fileId !in Written(files, outputs[..i]))
    ensures Written(files, outputs[..i + 1]) ==
      var rest := Written(files, outputs[..i]);
      if outputs[i].couldAccess && outputs[i].fileId !in rest then rest[outputs[i].fileId := outputs[i].hash] else rest
  {
    assert outputs[..i + 1][..i] == outputs[..i];
    WrittenKeys(files, outputs[..i], outputs[i].fileId);
  }

  /** The check against the written files is the one against all earlier reports. */
  lemma {:induction false} FreshIsAccepted(
    reports: Reports, h: History, written: map<FileId, Hash>, result: CommandResult)
    requires WrittenExact(reports, h, written)
    ensures result.exitStatus == Success && FreshWrites(written, result.outputs) <==> Accepted(reports, h, result)
  {
    var outputs := result.outputs;
    if FreshWrites(written, outputs) {
      forall f | Wrote(outputs, f) ensures !WrittenIn(reports, h, f) {
        var i :| 0 <= i < |outputs| && outputs[i].couldAccess && outputs[i].fileId == f;
        assert outputs[i].fileId !in written;
      }
    }
    if Accepted(reports, h, result) {
      forall i | 0 <= i < |outputs| && outputs[i].couldAccess ensures outputs[i].fileId !in written {
        assert Wrote(outputs, outputs[i].fileId);
      }
    }
  }

  lemma {:induction false} WrittenInSame(reports: Reports, reports': Reports, h: History, h': History, f: FileId)
    requires Built(h') + FailedSteps(h') == Built(h) + FailedSteps(h)
    requires Agree(reports, reports', Built(h) + FailedSteps(h))
    ensures WrittenIn(reports', h', f) <==> WrittenIn(reports, h, f)
  {
  }

  /** Nothing has been reported. */
  lemma {:induction false} WrittenSame(
    reports: Reports, h: History, e: Event, written: map<FileId, Hash>)
    requires WrittenExact(reports, h, written) && !e.Succeeded? && !e.Failed?
    ensures WrittenExact(reports, h + [e], written)
  {
    Append(h, e);
    assert Built(h + [e]) == Built(h) && FailedSteps(h + [e]) == FailedSteps(h);
  }

  lemma {:induction false} WrittenInNext(
    reports: Reports, h: History, n: StepIndex, result: CommandResult, e: Event, f: FileId)
    requires n !in Built(h) + FailedSteps(h) && (e == Succeeded(n) || e == Failed(n))
    ensures WrittenIn(reports[n := result], h + [e], f) <==> WrittenIn(reports, h, f) || Wrote(result.outputs, f)
  {
    Append(h, e);
    var reports' := reports[n := result];
    if WrittenIn(reports, h, f) {
      var m :| m in Built(h) + FailedSteps(h) && m in reports && Wrote(reports[m].outputs, f);
      assert m in Built(h + [e]) + FailedSteps(h + [e]) && reports'[m] == reports[m];
    }
    if Wrote(result.outputs, f) {
      assert n in Built(h + [e]) + FailedSteps(h + [e]) && reports'[n] == result;
    }
  }

  /** A report has come, and the written files have been noted. */
  lemma {:induction false} WrittenNext(
    reports: Reports, h: History, written: map<FileId, Hash>, n: StepIndex, result: CommandResult, e: Event)
    requires WrittenExact(reports, h, written) && n !in Built(h) + FailedSteps(h)
    requires e == Failed(n) || (e == Succeeded(n) && FreshWrites(written, result.outputs))
    ensures WrittenExact(reports[n := result], h + [e], Written(written, result.outputs))
  {
    var reports', written' := reports[n := result], Written(written, result.outputs);
    forall f ensures f in written' <==> WrittenIn(reports', h + [e], f) {
      WrittenKeys(written, result.outputs, f);
      WrittenInNext(reports, h, n, result, e, f);
    }
    Append(h, e);
    forall m, i | m in Built(h + [e]) && m in reports' && 0 <= i < |reports'[m].outputs| &&
                  reports'[m].outputs[i].couldAccess
      ensures HashKept(written', reports'[m].outputs[i])
    {
      if m == n {
        WrittenHash(written, result.outputs, i);
      } else {
        assert HashKept(written, reports[m].outputs[i]);
        WrittenKeys(written, result.outputs, reports[m].outputs[i].fileId);
      }
    }
  }

  lemma {:induction false} PrefixFacts(h: History, k: nat)
    requires k <= |h|
    ensures Built(h[..k]) <= Built(h) && FailedSteps(h[..k]) <= FailedSteps(h) && Done(h[..k]) <= Done(h)
  {
    assert forall i :: 0 <= i < k ==> h[..k][i] == h[i];
  }

  /** A further report does not change the verdicts on the earlier ones. */
  lemma {:induction false} VerdictsAgree(reports: Reports, reports': Reports, h: History)
    requires Verdicts(reports, h) && Agree(reports, reports', Built(h) + FailedSteps(h))
    ensures Verdicts(reports', h)
  {
    forall k | 0 <= k < |h| ensures VerdictAt(reports', h[..k], h[k]) {
      assert VerdictAt(reports, h[..k], h[k]);
      PrefixFacts(h, k);
      forall f ensures WrittenIn(reports', h[..k], f) <==> WrittenIn(reports, h[..k], f) {
        WrittenInSame(reports, reports', h[..k], h[..k], f);
      }
    }
  }

  lemma {:induction false} VerdictsNext(reports: Reports, h: History, e: Event)
    requires Verdicts(reports, h) && VerdictAt(reports, h, e)
    ensures Verdicts(reports, h + [e])
  {
    var t := h + [e];
    forall k | 0 <= k < |t| ensures VerdictAt(reports, t[..k], t[k]) {
      if k < |h| {
        assert t[k] == h[k] && t[..k] == h[..k];
      } else {
        assert t[..k] == h;
      }
    }
  }

  // What the records in the log are derived from.

  /** What is logged for a run of `n`. Phony steps and those that use the console leave no record. */
  ghost predicate LogsRun(
    steps: seq<Step>, n: StepIndex, inputs: seq<FileId>, files: map<FileId, StepIndex>,
    log0: seq<LogRecord>, uses0: seq<seq<StepIndex>>, log: seq<LogRecord>, uses: seq<seq<StepIndex>>)
  {
    && n < |steps|
    && if steps[n].consolePool || steps[n].phony then
         log == log0 && uses == uses0
       else
         && |log| == |log0| + 1 == |uses0| + 1 == |uses| && log0 <= log && uses0 <= uses
         && log[|log0|].step == n && RecordExact(steps, log[|log0|], uses[|log0|])
         && forall d :: d in uses[|log0|] <==> Uses(files, inputs, d)
  }

  /** The step is done, and one of its outputs is among the inputs. */
  ghost predicate Feeds(logged: seq<seq<FileId>>, reports: Reports, h: History, inputs: seq<FileId>, d: nat) {
    exists f :: f in inputs && Makes(logged, reports, h, d, f)
  }

  /** What a run used is exactly the steps that were done and of which it read an output. */
  ghost predicate UsedFrom(
    logged: seq<seq<FileId>>, reports: Reports, before: History, n: StepIndex, used: seq<StepIndex>)
  {
    n in reports && forall d :: d in used <==> Feeds(logged, reports, before, reports[n].inputs, d)
  }

  /** At the time of the success, or now if an error has kept the step from being done. */
  ghost predicate Derived(
    logged: seq<seq<FileId>>, reports: Reports, h: History, n: StepIndex, used: seq<StepIndex>)
  {
    || (exists k :: 0 <= k < |h| && h[k] == Succeeded(n) && UsedFrom(logged, reports, h[..k], n, used))
    || (n !in Done(h) && UsedFrom(logged, reports, h, n, used))
  }

  ghost predicate AllDerived(
    logged: seq<seq<FileId>>, reports: Reports, h: History, log: seq<LogRecord>, uses: seq<seq<StepIndex>>)
  {
    |uses| == |log| && forall i :: 0 <= i < |log| ==> Derived(logged, reports, h, log[i].step, uses[i])
  }

  /** What a step that is done has made stays. */
  lemma {:induction false} MakesLater(
    g: Graph, closure: set<nat>, logged: seq<seq<FileId>>, reports: Reports, h: History, k: nat, d: nat, f: FileId)
    requires Legal(g, closure, h) && k <= |h| && Makes(logged, reports, h[..k], d, f)
    ensures Makes(logged, reports, h, d, f)
  {
    PrefixFacts(h, k);
    if d in Built(h) {
      var m :| 0 <= m < |h[..k]| && h[..k][m].Completes() && h[..k][m].step == d;
      var j :| 0 <= j < |h| && h[j].Succeeded? && h[j].step == d;
      assert h[m] == h[..k][m];
      CompletesOnce(g, closure, h, m, j);
      assert d in Built(h[..k]);
    }
  }

  lemma {:induction false} FeedsLater(
    g: Graph, closure: set<nat>, logged: seq<seq<FileId>>, reports: Reports, h: History, k: nat,
    inputs: seq<FileId>, d: nat)
    requires Legal(g, closure, h) && k <= |h| && Feeds(logged, reports, h[..k], inputs, d)
    ensures Feeds(logged, reports, h, inputs, d)
  {
    var f :| f in inputs && Makes(logged, reports, h[..k], d, f);
    MakesLater(g, closure, logged, reports, h, k, d, f);
  }

  lemma {:induction false} FeedsSame(
    logged: seq<seq<FileId>>, reports: Reports, reports': Reports, h: History, inputs: seq<FileId>, d: nat)
    requires Agree(reports, reports', Built(h))
    ensures Feeds(logged, reports', h, inputs, d) <==> Feeds(logged, reports, h, inputs, d)
  {
    forall f ensures Makes(logged, reports', h, d, f) <==> Makes(logged, reports, h, d, f) {
      MakesSame(logged, reports, reports', h, h, d, f);
    }
  }

  lemma {:induction false} UsedFromSame(
    logged: seq<seq<FileId>>, reports: Reports, reports': Reports, h: History, n: StepIndex, used: seq<StepIndex>)
    requires UsedFrom(logged, reports, h, n, used) && Agree(reports, reports', Built(h))
    requires n in reports' && reports'[n] == reports[n]
    ensures UsedFrom(logged, reports', h, n, used)
  {
    forall d: nat ensures d in used <==> Feeds(logged, reports', h, reports'[n].inputs, d) {
      FeedsSame(logged, reports, reports', h, reports[n].inputs, d);
    }
  }

  /** A record of a step that is done stays derived, whatever is reported or happens next. */
  lemma {:induction false} DerivedMore(
    logged: seq<seq<FileId>>, reports: Reports, reports': Reports, h: History, h': History,
    n: StepIndex, used: seq<StepIndex>)
    requires Derived(logged, reports, h, n, used) && n in Built(h) && Built(h) <= Done(h) && h <= h'
    requires Agree(reports, reports', Built(h))
    ensures Derived(logged, reports', h', n, used)
  {
    var k :| 0 <= k < |h| && h[k] == Succeeded(n) && UsedFrom(logged, reports, h[..k], n, used);
    PrefixFacts(h, k);
    UsedFromSame(logged, reports, reports', h[..k], n, used);
    assert h'[k] == h[k] && h'[..k] == h[..k];
  }

  lemma {:induction false} AllDerivedMore(
    steps: seq<Step>, logged: seq<seq<FileId>>, reports: Reports, reports': Reports, h: History, h': History,
    log: seq<LogRecord>, uses: seq<seq<StepIndex>>)
    requires AllDerived(logged, reports, h, log, uses) && Logged(steps, log, uses, h)
    requires Built(h) <= Done(h) && h <= h' && Agree(reports, reports', Built(h))
    ensures AllDerived(logged, reports', h', log, uses)
  {
    forall i | 0 <= i < |log| ensures Derived(logged, reports', h', log[i].step, uses[i]) {
      TimelyIsBuilt(h, log[i].step, uses[i]);
      DerivedMore(logged, reports, reports', h, h', log[i].step, uses[i]);
    }
  }

  /** What the table says that a run used is what it read of the outputs of other steps. */
  lemma {:induction false} UsesAreFeeds(
    logged: seq<seq<FileId>>, reports: Reports, h: History, files: map<FileId, StepIndex>,
    n: StepIndex, used: seq<StepIndex>)
    requires TableExact(logged, reports, h, files) && n in reports
    requires forall d :: d in used <==> Uses(files, reports[n].inputs, d)
    ensures UsedFrom(logged, reports, h, n, used)
  {
    forall d: nat
      ensures Uses(files, reports[n].inputs, d) <==> Feeds(logged, reports, h, reports[n].inputs, d)
    {
      if Uses(files, reports[n].inputs, d) {
        var f :| f in reports[n].inputs && !f.Missing() && f in files && files[f] == d;
        assert Makes(logged, reports, h, d, f);
      }
      if Feeds(logged, reports, h, reports[n].inputs, d) {
        var f :| f in reports[n].inputs && Makes(logged, reports, h, d, f);
        assert f in files && files[f] == d;
      }
    }
  }

  /** A run is logged; the records are derived whether or not the step is then done. */
  lemma {:induction false} DerivedNext(
    steps: seq<Step>, logged: seq<seq<FileId>>, reports: Reports, h: History, files: map<FileId, StepIndex>,
    result: CommandResult, log: seq<LogRecord>, uses: seq<seq<StepIndex>>, r: LogRecord, used: seq<StepIndex>)
    requires AllDerived(logged, reports, h, log, uses) && Logged(steps, log, uses, h) && Built(h) <= Done(h)
    requires TableExact(logged, reports, h, files) && r.step !in Done(h) && reports.Keys >= Built(h)
    requires forall d :: d in used <==> Uses(files, result.inputs, d)
    ensures
      var reports', h' := reports[r.step := result], h + [Succeeded(r.step)];
      && AllDerived(logged, reports', h, log + [r], uses + [used])
      && AllDerived(logged, reports', h', log + [r], uses + [used])
  {
    var reports', h' := reports[r.step := result], h + [Succeeded(r.step)];
    AllDerivedMore(steps, logged, reports, reports', h, h, log, uses);
    AllDerivedMore(steps, logged, reports, reports', h, h', log, uses);
    TableSame(logged, reports, reports', h, h, files);
    UsesAreFeeds(logged, reports', h, files, r.step, used);
    assert h'[|h|] == Succeeded(r.step) && h'[..|h|] == h;
  }

  // All of it together, and what each event makes of it.

  /** The reports are those on the commands that have finished, and the tables are right for them. */
  ghost predicate Accounts(
    logged: seq<seq<FileId>>, reports: Reports, h: History, files: map<FileId, StepIndex>, written: map<FileId, Hash>)
  {
    && reports.Keys == Built(h) + FailedSteps(h)
    && Verdicts(reports, h)
    && TableExact(logged, reports, h, files)
    && WrittenExact(reports, h, written)
  }

  lemma {:induction false} AccountsStart(logged: seq<seq<FileId>>, h: History, files: map<FileId, StepIndex>)
    requires AllDiscarded(h) && NoClash(logged, map[], Done(h)) && Recorded(logged, map[], Done(h), files)
    ensures Accounts(logged, map[], h, files, map[])
  {
    DiscardedOnly(h);
    TableStart(logged, h, files);
  }

  lemma {:induction false} AccountsStarted(
    logged: seq<seq<FileId>>, reports: Reports, h: History, files: map<FileId, StepIndex>, written: map<FileId, Hash>,
    n: StepIndex)
    requires Accounts(logged, reports, h, files, written)
    ensures Accounts(logged, reports, h + [Started(n)], files, written)
  {
    Append(h, Started(n));
    VerdictsNext(reports, h, Started(n));
    TableSame(logged, reports, reports, h, h + [Started(n)], files);
    WrittenSame(reports, h, Started(n), written);
  }

  lemma {:induction false} AccountsBypassed(
    logged: seq<seq<FileId>>, reports: Reports, h: History, files: map<FileId, StepIndex>, written: map<FileId, Hash>,
    n: StepIndex)
    requires Accounts(logged, reports, h, files, written) && n < |logged|
    requires n !in Done(h) && Built(h) <= Done(h) && FreshOutputs(files, logged[n])
    ensures Accounts(logged, reports, h + [Bypassed(n)], files + OutputMap(logged[n], n), written)
  {
    Append(h, Bypassed(n));
    VerdictsNext(reports, h, Bypassed(n));
    TableNext(logged, reports, reports, h, Bypassed(n), files, logged[n]);
    WrittenSame(reports, h, Bypassed(n), written);
  }

  lemma {:induction false} ReportKeeps(reports: Reports, h: History, n: StepIndex, result: CommandResult)
    requires reports.Keys == Built(h) + FailedSteps(h) && n !in Built(h) + FailedSteps(h) && Verdicts(reports, h)
    ensures Agree(reports, reports[n := result], Built(h) + FailedSteps(h)) && Verdicts(reports[n := result], h)
    ensures Accepted(reports[n := result], h, result) <==> Accepted(reports, h, result)
  {
    var reports' := reports[n := result];
    VerdictsAgree(reports, reports', h);
    forall f ensures WrittenIn(reports', h, f) <==> WrittenIn(reports, h, f) {
      WrittenInSame(reports, reports', h, h, f);
    }
  }

  lemma {:induction false} VerdictsReported(
    reports: Reports, h: History, written: map<FileId, Hash>, n: StepIndex, result: CommandResult)
    requires reports.Keys == Built(h) + FailedSteps(h) && n !in Built(h) + FailedSteps(h)
    requires Verdicts(reports, h) && WrittenExact(reports, h, written)
    ensures
      var accepted := result.exitStatus == Success && FreshWrites(written, result.outputs);
      Verdicts(reports[n := result], h + [if accepted then Succeeded(n) else Failed(n)])
  {
    ReportKeeps(reports, h, n, result);
    FreshIsAccepted(reports, h, written, result);
    var accepted := result.exitStatus == Success && FreshWrites(written, result.outputs);
    VerdictsNext(reports[n := result], h, if accepted then Succeeded(n) else Failed(n));
  }

  lemma {:induction false} AccountsSucceeded(
    logged: seq<seq<FileId>>, reports: Reports, h: History, files: map<FileId, StepIndex>, written: map<FileId, Hash>,
    n: StepIndex, result: CommandResult)
    requires Accounts(logged, reports, h, files, written) && Built(h) <= Done(h)
    requires n !in Done(h) && n !in FailedSteps(h)
    requires result.exitStatus == Success && FreshWrites(written, result.outputs)
    requires FreshOutputs(files, FileIdsOf(result.outputs))
    ensures Accounts(
      logged, reports[n := result], h + [Succeeded(n)], files + OutputMap(FileIdsOf(result.outputs), n),
      Written(written, result.outputs))
  {
    Append(h, Succeeded(n));
    VerdictsReported(reports, h, written, n, result);
    TableNext(logged, reports, reports[n := result], h, Succeeded(n), files, FileIdsOf(result.outputs));
    WrittenNext(reports, h, written, n, result, Succeeded(n));
  }

  lemma {:induction false} AccountsFailed(
    logged: seq<seq<FileId>>, reports: Reports, h: History, files: map<FileId, StepIndex>, written: map<FileId, Hash>,
    n: StepIndex, result: CommandResult)
    requires Accounts(logged, reports, h, files, written) && Built(h) <= Done(h)
    requires n !in Done(h) && n !in FailedSteps(h)
    requires !(result.exitStatus == Success && FreshWrites(written, result.outputs))
    ensures Accounts(logged, reports[n := result], h + [Failed(n)], files, Written(written, result.outputs))
  {
    Append(h, Failed(n));
    VerdictsReported(reports, h, written, n, result);
    TableSame(logged, reports, reports[n := result], h, h + [Failed(n)], files);
    WrittenNext(reports, h, written, n, result, Failed(n));
  }

  // The errors.

  /** One of the files is an output of a step that is done, or is listed twice. */
  ghost predicate Clashing(logged: seq<seq<FileId>>, reports: Reports, h: History, ids: seq<FileId>) {
    exists i :: 0 <= i < |ids| && !ids[i].Missing() &&
      ((exists d :: Makes(logged, reports, h, d, ids[i])) || ids[i] in ids[..i])
  }

  lemma {:induction false} NotFreshIsClashing(
    logged: seq<seq<FileId>>, reports: Reports, h: History, files: map<FileId, StepIndex>, ids: seq<FileId>)
    requires TableExact(logged, reports, h, files) && !FreshOutputs(files, ids)
    ensures Clashing(logged, reports, h, ids)
  {
    var i :| 0 <= i < |ids| && !ids[i].Missing() &&
      !(ids[i] !in files && forall j :: 0 <= j < i ==> ids[j] != ids[i]);
    if ids[i] in files {
      assert Makes(logged, reports, h, files[ids[i]], ids[i]);
    } else {
      var j :| 0 <= j < i && ids[j] == ids[i];
      assert ids[..i][j] == ids[i];
    }
  }

  /** A step that would be done, were it not for its outputs: its command was successful, or it was to be skipped. */
  ghost predicate Obstructed(logged: seq<seq<FileId>>, reports: Reports, h: History, n: StepIndex) {
    && n !in Done(h)
    && if n in Launched(h) then
         && n in reports && Accepted(reports, h, reports[n])
         && Clashing(logged, reports, h, FileIdsOf(reports[n].outputs))
       else
         n < |logged| && Clashing(logged, reports, h, logged[n])
  }

  lemma {:induction false} SuccessObstructed(
    logged: seq<seq<FileId>>, reports: Reports, h: History, files: map<FileId, StepIndex>, written: map<FileId, Hash>,
    n: StepIndex, result: CommandResult)
    requires Accounts(logged, reports, h, files, written) && n in Launched(h) && Built(h) <= Done(h)
    requires n !in Done(h) && n !in FailedSteps(h)
    requires result.exitStatus == Success && FreshWrites(written, result.outputs)
    requires !FreshOutputs(files, FileIdsOf(result.outputs))
    ensures Obstructed(logged, reports[n := result], h, n)
  {
    ReportKeeps(reports, h, n, result);
    FreshIsAccepted(reports, h, written, result);
    TableSame(logged, reports, reports[n := result], h, h, files);
    NotFreshIsClashing(logged, reports[n := result], h, files, FileIdsOf(result.outputs));
  }

  /** What has become of a report, apart from launches of further steps. */
  ghost predicate Processed(
    steps: seq<Step>, n: StepIndex, result: CommandResult, accepted: bool,
    h: History, files: map<FileId, StepIndex>, log: seq<LogRecord>, uses: seq<seq<StepIndex>>,
    h': History, files': map<FileId, StepIndex>, log': seq<LogRecord>, uses': seq<seq<StepIndex>>, error: Error)
  {
    && (error == NoError ==>
          && OnlyLaunches(h + [if accepted then Succeeded(n) else Failed(n)], h')
          && Extends(files, files') && (accepted ==> OwnsOutputs(files', n, result.outputs)))
    && (if accepted then LogsRun(steps, n, result.inputs, files, log, uses, log', uses')
        else log' == log && uses' == uses)
    && h <= h'
  }

  lemma {:induction false} ProcessedMore(
    steps: seq<Step>, n: StepIndex, result: CommandResult, accepted: bool,
    h: History, files: map<FileId, StepIndex>, log: seq<LogRecord>, uses: seq<seq<StepIndex>>,
    h1: History, files1: map<FileId, StepIndex>, log': seq<LogRecord>, uses': seq<seq<StepIndex>>,
    h2: History, files2: map<FileId, StepIndex>, error: Error)
    requires Processed(steps, n, result, accepted, h, files, log, uses, h1, files1, log', uses', NoError)
    requires OnlyLaunches(h1, h2) && (error == NoError ==> Extends(files1, files2))
    ensures Processed(steps, n, result, accepted, h, files, log, uses, h2, files2, log', uses', error)
  {
    var e := if accepted then Succeeded(n) else Failed(n);
    assert OnlyLaunches(h + [e], h2) by {
      forall i | |h| + 1 <= i < |h2| ensures h2[i].Launches() {
        assert i < |h1| ==> h2[i] == h1[i];
      }
    }
    assert h <= h + [e];
  }

  ghost predicate OnlyLaunches(h: History, h': History) {
    h <= h' && forall i :: |h| <= i < |h'| ==> h'[i].Launches()
  }
}
