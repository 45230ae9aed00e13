/** Which steps are clean at the start of a build, from the log and the fingerprint checks. */
module CleanSteps {
  import opened Manifests
  import opened Scheduling
  import opened Discarding
  import opened Files
  import opened Options

  /** The checks that a build makes cover all files in the log entry of a step. */
  ghost predicate Checked(steps: seq<Step>, invocations: Invocations, memo: Memo, n: StepIndex)
    requires n < |steps|
  {
    steps[n].hash in invocations ==>
      && AllChecked(memo, invocations[steps[n].hash].outputFiles)
      && AllChecked(memo, invocations[steps[n].hash].inputFiles)
  }

  ghost predicate AllChecked(memo: Memo, files: seq<nat>) {
    forall i :: 0 <= i < |files| ==> files[i] < |memo| && memo[files[i]].Some?
  }

  ghost predicate AllClean(memo: Memo, files: seq<nat>)
    requires AllChecked(memo, files)
  {
    forall i :: 0 <= i < |files| ==> memo[files[i]].value.clean
  }

  ghost predicate SomeUpdate(memo: Memo, files: seq<nat>)
    requires AllChecked(memo, files)
  {
    exists i :: 0 <= i < |files| && memo[files[i]].value.shouldUpdate
  }

  /** Goes through files until one is not clean. */
  method ProcessFiles(memo: Memo, files: seq<nat>, clean0: bool, update0: bool) returns (clean: bool, update: bool)
    requires AllChecked(memo, files)
    ensures clean <==> clean0 && AllClean(memo, files)
    ensures clean ==> (update <==> update0 || SomeUpdate(memo, files))
  {
    clean, update := clean0, update0;
    for i := 0 to |files|
      invariant clean <==> clean0 && forall j :: 0 <= j < i ==> memo[files[j]].value.clean
      invariant clean ==> (update <==> update0 || exists j :: 0 <= j < i && memo[files[j]].value.shouldUpdate)
    {
      if !clean {
        return;
      }
      var found := memo[files[i]].value;
      if !found.clean {
        clean := false;
      }
      if found.shouldUpdate {
        update := true;
      }
    }
  }

  /** A step with a log entry of which all files are clean. */
  ghost predicate LoggedClean(steps: seq<Step>, invocations: Invocations, memo: Memo, n: StepIndex)
    requires n < |steps| && Checked(steps, invocations, memo, n)
  {
    && steps[n].hash in invocations
    && AllClean(memo, invocations[steps[n].hash].outputFiles)
    && AllClean(memo, invocations[steps[n].hash].inputFiles)
  }

  /** Whether a step that is no generator is clean, and whether it should be logged again. */
  method NonGeneratorStepIsClean(steps: seq<Step>, invocations: Invocations, memo: Memo, n: StepIndex)
    returns (clean: bool, relog: bool)
    requires n < |steps| && Checked(steps, invocations, memo, n)
    ensures clean <==> LoggedClean(steps, invocations, memo, n)
    ensures relog <==>
      && LoggedClean(steps, invocations, memo, n)
      && (|| SomeUpdate(memo, invocations[steps[n].hash].outputFiles)
          || SomeUpdate(memo, invocations[steps[n].hash].inputFiles))
  {
    if steps[n].hash !in invocations {
      return false, false;
    }
    var entry := invocations[steps[n].hash];
    var update := false;
    clean := true;
    clean, update := ProcessFiles(memo, entry.outputFiles, clean, update);
    clean, update := ProcessFiles(memo, entry.inputFiles, clean, update);
    relog := update && clean;
  }

  /** The outputs of every clean step are known. */
  ghost predicate OutputsKnown(steps: seq<Step>, invocations: Invocations, memo: Memo, cleanSteps: seq<bool>) {
    |cleanSteps| == |steps| &&
    forall n :: 0 <= n < |steps| && cleanSteps[n] ==> StepOutputs(steps, invocations, memo, n).Some?
  }

  lemma {:induction false} CheckedOutputsKnown(memo: Memo, files: seq<nat>)
    requires AllChecked(memo, files)
    ensures FileIds(memo, files).Some?
  {
    if files != [] {
      CheckedOutputsKnown(memo, files[..|files| - 1]);
    }
  }

  /**
   Among the steps to build, generators are as clean as a comparison of file times says, and the
   others exactly if they were logged and none of the logged files has changed. The outputs of
   all clean steps are known.
   */
  method ComputeCleanSteps(
    steps: seq<Step>, invocations: Invocations, stepNodes: seq<StepNode>, memo: Memo, generatorsClean: seq<bool>)
    returns (cleanSteps: seq<bool>)
    requires |stepNodes| == |steps| == |generatorsClean|
    requires forall n :: 0 <= n < |steps| && stepNodes[n].shouldBuild ==> Checked(steps, invocations, memo, n)
    ensures |cleanSteps| == |steps|
    ensures forall n :: 0 <= n < |steps| ==>
      (cleanSteps[n] <==>
        && stepNodes[n].shouldBuild
        && if steps[n].generator then generatorsClean[n] else LoggedClean(steps, invocations, memo, n))
    ensures OutputsKnown(steps, invocations, memo, cleanSteps)
  {
    cleanSteps := seq(|steps|, _ => false);
    for i := 0 to |steps|
      invariant |cleanSteps| == |steps| && forall n :: i <= n < |steps| ==> !cleanSteps[n]
      invariant forall n :: 0 <= n < i ==>
        (cleanSteps[n] <==>
          && stepNodes[n].shouldBuild
          && if steps[n].generator then generatorsClean[n] else LoggedClean(steps, invocations, memo, n))
    {
      if !stepNodes[i].shouldBuild {
        continue;
      }
      var clean := generatorsClean[i];
      if !steps[i].generator {
        var relog;
        clean, relog := NonGeneratorStepIsClean(steps, invocations, memo, i);
      }
      cleanSteps := cleanSteps[i := clean];
    }
    forall n | 0 <= n < |steps| && cleanSteps[n]
      ensures StepOutputs(steps, invocations, memo, n).Some?
    {
      if !steps[n].generator {
        CheckedOutputsKnown(memo, invocations[steps[n].hash].outputFiles);
      }
    }
  }

  /** If all outputs are known, only clashes keep a set of clean and phony steps from being recorded. */
  lemma {:induction false} RecordableIfNoClash(
    steps: seq<Step>, invocations: Invocations, memo: Memo, cleanSteps: seq<bool>, files: map<FileId, StepIndex>,
    all: set<nat>)
    requires OutputsKnown(steps, invocations, memo, cleanSteps)
    requires forall n :: n in all && n < |steps| ==> cleanSteps[n] || steps[n].phony
    ensures Recordable(steps, invocations, memo, files, all) <==>
      NoClash(OutputTable(steps, invocations, memo), files, all)
  {
  }

  lemma {:induction false} OneFileId(memo: Memo, file: FileId)
    requires memo == [Some(MatchesResult(true, false, file))]
    ensures FileIds(memo, [0]) == Some([file])
  {
    assert [0][..0] == [] && FileIds(memo, []) == Some([]) && [] + [file] == [file];
  }

  lemma {:induction false} ClashIsNotRecordable(
    steps: seq<Step>, invocations: Invocations, memo: Memo, files: map<FileId, StepIndex>, all: set<nat>,
    n: nat, m: nat, file: FileId)
    requires n < |steps| && m < |steps| && n in all && m in all && n != m && !file.Missing()
    requires StepOutputs(steps, invocations, memo, n) == StepOutputs(steps, invocations, memo, m) == Some([file])
    ensures !Recordable(steps, invocations, memo, files, all)
  {
    var outputs := OutputTable(steps, invocations, memo);
    assert file in outputs[n] && file in outputs[m];
    assert !Apart(outputs[n], outputs[m]);
  }

  /** A step that was logged with one output, which is clean. */
  lemma {:induction false} OneOutput(
    steps: seq<Step>, invocations: Invocations, memo: Memo, n: nat, file: FileId)
    requires n < |steps| && !steps[n].phony && !steps[n].generator
    requires memo == [Some(MatchesResult(true, false, file))]
    requires steps[n].hash in invocations && invocations[steps[n].hash] == Entry([0], [], [], [])
    ensures Checked(steps, invocations, memo, n) && LoggedClean(steps, invocations, memo, n)
    ensures StepOutputs(steps, invocations, memo, n) == Some([file])
  {
    OneFileId(memo, file);
  }

  /** Two steps with the same output: both can be clean, but they cannot both be recorded. */
  lemma {:induction false} SharedOutput(file: FileId) returns (steps: seq<Step>, invocations: Invocations, memo: Memo)
    requires !file.Missing()
    ensures ValidSteps(steps) && DistinctHashes(steps) && ValidInvocations(invocations) && |steps| == 2
    ensures forall n :: 0 <= n < 2 ==>
      Checked(steps, invocations, memo, n) && LoggedClean(steps, invocations, memo, n)
    ensures OutputsKnown(steps, invocations, memo, [true, true])
    ensures !Recordable(steps, invocations, memo, map[], {0, 1})
  {
    var entry := Entry([0], [], [], []);
    var first, second := Step(1, [], false, false, false), Step(2, [], false, false, false);
    steps, invocations := [first, second], map[1 := entry, 2 := entry];
    memo := [Some(MatchesResult(true, false, file))];
    assert steps[0] == first && steps[1] == second;
    OneOutput(steps, invocations, memo, 0, file);
    OneOutput(steps, invocations, memo, 1, file);
    ClashIsNotRecordable(steps, invocations, memo, map[], {0, 1}, 0, 1, file);
  }
}
