/**
 The dependency record that a finished step writes to the invocation log, as a
 difference against the manifest, and what the next build decodes from it.
 */
module DependencyDelta {
  import opened Manifests
  import opened Files

  function Insert(x: nat, s: seq<nat>): seq<nat> {
    if s == [] || x <= s[0] then [x] + s else [s[0]] + Insert(x, s[1..])
  }

  function Sort(s: seq<nat>): seq<nat> {
    if s == [] then [] else Insert(s[0], Sort(s[1..]))
  }

  lemma {:induction false} InsertElements(x: nat, s: seq<nat>)
    ensures multiset(Insert(x, s)) == multiset{x} + multiset(s)
  {
    if s != [] && x > s[0] {
      InsertElements(x, s[1..]);
      assert s == [s[0]] + s[1..];
    }
  }

  lemma {:induction false} SortedPrepend(x: nat, s: seq<nat>)
    requires Sorted(s) && forall j :: 0 <= j < |s| ==> x <= s[j]
    ensures Sorted([x] + s)
  {
  }

  lemma {:induction false} InsertSorted(x: nat, s: seq<nat>)
    requires Sorted(s)
    ensures Sorted(Insert(x, s))
  {
    if s == [] || x <= s[0] {
      SortedPrepend(x, s);
    } else {
      var rest := Insert(x, s[1..]);
      InsertSorted(x, s[1..]);
      InsertElements(x, s[1..]);
      forall j | 0 <= j < |rest| ensures s[0] <= rest[j] {
        assert rest[j] in multiset(rest);
        assert rest[j] == x || rest[j] in s[1..];
      }
      SortedPrepend(s[0], rest);
    }
  }

  lemma {:induction false} SortSorts(s: seq<nat>)
    ensures Sorted(Sort(s)) && multiset(Sort(s)) == multiset(s)
  {
    if s != [] {
      SortSorts(s[1..]);
      InsertSorted(s[0], Sort(s[1..]));
      InsertElements(s[0], Sort(s[1..]));
      assert s == [s[0]] + s[1..];
    }
  }

  lemma {:induction false} SameElements(s: seq<nat>, t: seq<nat>)
    requires multiset(s) == multiset(t)
    ensures forall x :: x in s <==> x in t
  {
    forall x ensures x in s <==> x in t {
      assert x in s <==> x in multiset(s);
      assert x in t <==> x in multiset(t);
    }
  }

  /** Drops repetitions of adjacent elements. */
  function Unique(s: seq<nat>): seq<nat> {
    if |s| <= 1 then s
    else if s[0] == s[1] then Unique(s[1..])
    else [s[0]] + Unique(s[1..])
  }

  lemma {:induction false} UniqueElements(s: seq<nat>)
    ensures forall x :: x in Unique(s) <==> x in s
  {
    if |s| > 1 {
      UniqueElements(s[1..]);
      assert s == [s[0]] + s[1..];
    }
  }

  lemma {:induction false} UniqueOfSorted(s: seq<nat>)
    requires Sorted(s)
    ensures StrictlySorted(Unique(s))
  {
    if |s| > 1 {
      UniqueOfSorted(s[1..]);
      if s[0] != s[1] {
        var rest := Unique(s[1..]);
        UniqueElements(s[1..]);
        forall j | 0 <= j < |rest| ensures s[0] < rest[j] {
          assert rest[j] in s[1..];
        }
        StrictlySortedPrepend(s[0], rest);
      }
    }
  }

  lemma {:induction false} StrictlySortedPrepend(x: nat, s: seq<nat>)
    requires StrictlySorted(s) && forall j :: 0 <= j < |s| ==> x < s[j]
    ensures StrictlySorted([x] + s)
  {
  }

  /** `d` wrote one of the files with the given ids. */
  ghost predicate Uses(outputFiles: map<FileId, StepIndex>, inputFileIds: seq<FileId>, d: nat) {
    exists f :: f in inputFileIds && !f.Missing() && f in outputFiles && outputFiles[f] == d
  }

  method UsedDependencies(outputFiles: map<FileId, StepIndex>, inputFileIds: seq<FileId>)
    returns (used: seq<StepIndex>)
    ensures StrictlySorted(used)
    ensures forall d :: d in used <==> Uses(outputFiles, inputFileIds, d)
  {
    var found: seq<StepIndex> := [];
    for i := 0 to |inputFileIds|
      invariant forall d :: d in found <==> Uses(outputFiles, inputFileIds[..i], d)
    {
      var f := inputFileIds[i];
      assert inputFileIds[..i + 1] == inputFileIds[..i] + [f];
      if f.Missing() || f !in outputFiles {
        continue;
      }
      found := found + [outputFiles[f]];
    }
    assert inputFileIds[..|inputFileIds|] == inputFileIds;
    used := SortedUnique(found);
  }

  /** The sort followed by the removal of duplicates. */
  method SortedUnique(s: seq<StepIndex>) returns (r: seq<StepIndex>)
    ensures StrictlySorted(r)
    ensures forall d :: d in r <==> d in s
  {
    var sorted := Sort(s);
    SortSorts(s);
    SameElements(sorted, s);
    UniqueOfSorted(sorted);
    UniqueElements(sorted);
    r := Unique(sorted);
  }

  /** The elements of `a` that are not in `b`, in order. */
  ghost function Minus(a: seq<nat>, b: seq<nat>): seq<nat> {
    if a == [] then [] else (if a[0] in b then [] else [a[0]]) + Minus(a[1..], b)
  }

  lemma {:induction false} MinusElements(a: seq<nat>, b: seq<nat>)
    ensures forall x :: x in Minus(a, b) <==> x in a && x !in b
  {
    if a != [] {
      MinusElements(a[1..], b);
      assert a == [a[0]] + a[1..];
    }
  }

  lemma {:induction false} MinusSorted(a: seq<nat>, b: seq<nat>)
    requires StrictlySorted(a)
    ensures StrictlySorted(Minus(a, b))
  {
    if a != [] {
      var rest := Minus(a[1..], b);
      MinusSorted(a[1..], b);
      MinusElements(a[1..], b);
      forall j | 0 <= j < |rest| ensures a[0] < rest[j] {
        assert rest[j] in a[1..];
      }
      if a[0] in b {
        assert [] + rest == rest;
      } else {
        StrictlySortedPrepend(a[0], rest);
      }
    }
  }

  ghost predicate Indices(steps: seq<Step>, s: seq<nat>) {
    forall i :: 0 <= i < |s| ==> s[i] < |steps|
  }

  /** The hashes of the steps in `a` that are not in `b`, in order. */
  ghost function MinusHashes(steps: seq<Step>, a: seq<StepIndex>, b: seq<StepIndex>): seq<Hash>
    requires Indices(steps, a)
  {
    if a == [] then []
    else (if a[0] in b then [] else [steps[a[0]].hash]) + MinusHashes(steps, a[1..], b)
  }

  lemma {:induction false} MinusHashesElements(steps: seq<Step>, a: seq<StepIndex>, b: seq<StepIndex>, h: Hash)
    requires Indices(steps, a)
    ensures h in MinusHashes(steps, a, b) <==>
      exists i :: 0 <= i < |a| && a[i] !in b && steps[a[i]].hash == h
  {
    if a != [] {
      MinusHashesElements(steps, a[1..], b, h);
      if h in MinusHashes(steps, a[1..], b) {
        var i :| 0 <= i < |a[1..]| && a[1..][i] !in b && steps[a[1..][i]].hash == h;
        assert a[i + 1] == a[1..][i];
      }
      if i :| 0 < i < |a| && a[i] !in b && steps[a[i]].hash == h {
        assert a[1..][i - 1] == a[i];
      }
    }
  }

  /** The record for a step: unused manifest dependencies, and hashes of used undeclared ones. */
  ghost predicate IsDelta(
    steps: seq<Step>, dependencies: seq<StepIndex>, used: seq<StepIndex>,
    ignored: seq<StepIndex>, additional: seq<Hash>)
    requires Indices(steps, used)
  {
    && ignored == Minus(dependencies, used)
    && additional == Sort(MinusHashes(steps, used, dependencies))
  }

  lemma {:induction false} MinusUnfold(a: seq<nat>, b: seq<nat>, i: nat)
    requires i < |a|
    ensures Minus(a[i..], b) == if a[i] in b then Minus(a[i + 1..], b) else [a[i]] + Minus(a[i + 1..], b)
  {
    assert a[i..][1..] == a[i + 1..];
  }

  lemma {:induction false} MinusHashesUnfold(steps: seq<Step>, a: seq<StepIndex>, b: seq<StepIndex>, i: nat)
    requires i < |a| && Indices(steps, a)
    ensures MinusHashes(steps, a[i..], b) ==
      if a[i] in b then MinusHashes(steps, a[i + 1..], b)
      else [steps[a[i]].hash] + MinusHashes(steps, a[i + 1..], b)
  {
    assert a[i..][1..] == a[i + 1..];
  }

  lemma {:induction false} AppendAssociative<T>(a: seq<T>, b: seq<T>, c: seq<T>)
    ensures a + (b + c) == a + b + c
  {
  }

  /** Everything before the two positions is smaller than everything after them. */
  ghost predicate Separated(a: seq<nat>, b: seq<nat>, i: nat, j: nat)
    requires i <= |a| && j <= |b|
  {
    && (forall k, l :: 0 <= k < i && j <= l < |b| ==> a[k] < b[l])
    && (forall k, l :: i <= k < |a| && 0 <= l < j ==> b[l] < a[k])
  }

  lemma {:induction false} SeparatedNotIn(a: seq<nat>, b: seq<nat>, i: nat, j: nat)
    requires StrictlySorted(a) && StrictlySorted(b) && i <= |a| && j <= |b| && Separated(a, b, i, j)
    ensures i < |a| && (j == |b| || a[i] < b[j]) ==> a[i] !in b && Separated(a, b, i + 1, j)
    ensures j < |b| && (i == |a| || b[j] < a[i]) ==> b[j] !in a && Separated(a, b, i, j + 1)
    ensures i < |a| && j < |b| && a[i] == b[j] ==> Separated(a, b, i + 1, j + 1)
  {
  }

  /** How far the pass over the two lists has come. */
  ghost predicate Merged(
    steps: seq<Step>, deps: seq<StepIndex>, used: seq<StepIndex>, i: nat, j: nat,
    ignored: seq<StepIndex>, additional: seq<Hash>)
    requires Indices(steps, used)
  {
    && i <= |deps| && j <= |used| && Separated(deps, used, i, j)
    && ignored + Minus(deps[i..], used) == Minus(deps, used)
    && additional + MinusHashes(steps, used[j..], deps) == MinusHashes(steps, used, deps)
  }

  lemma {:induction false} MergeIgnored(
    steps: seq<Step>, deps: seq<StepIndex>, used: seq<StepIndex>, i: nat, j: nat,
    ignored: seq<StepIndex>, additional: seq<Hash>)
    requires StrictlySorted(deps) && StrictlySorted(used) && Indices(steps, used)
    requires Merged(steps, deps, used, i, j, ignored, additional) && i < |deps| && (j == |used| || deps[i] < used[j])
    ensures Merged(steps, deps, used, i + 1, j, ignored + [deps[i]], additional)
  {
    SeparatedNotIn(deps, used, i, j);
    MinusUnfold(deps, used, i);
    AppendAssociative(ignored, [deps[i]], Minus(deps[i + 1..], used));
  }

  lemma {:induction false} MergeAdditional(
    steps: seq<Step>, deps: seq<StepIndex>, used: seq<StepIndex>, i: nat, j: nat,
    ignored: seq<StepIndex>, additional: seq<Hash>)
    requires StrictlySorted(deps) && StrictlySorted(used) && Indices(steps, used)
    requires Merged(steps, deps, used, i, j, ignored, additional) && j < |used| && (i == |deps| || used[j] < deps[i])
    ensures Merged(steps, deps, used, i, j + 1, ignored, additional + [steps[used[j]].hash])
  {
    SeparatedNotIn(deps, used, i, j);
    MinusHashesUnfold(steps, used, deps, j);
    AppendAssociative(additional, [steps[used[j]].hash], MinusHashes(steps, used[j + 1..], deps));
  }

  lemma {:induction false} MergeBoth(
    steps: seq<Step>, deps: seq<StepIndex>, used: seq<StepIndex>, i: nat, j: nat,
    ignored: seq<StepIndex>, additional: seq<Hash>)
    requires StrictlySorted(deps) && StrictlySorted(used) && Indices(steps, used)
    requires Merged(steps, deps, used, i, j, ignored, additional)
    requires i < |deps| && j < |used| && deps[i] == used[j]
    ensures Merged(steps, deps, used, i + 1, j + 1, ignored, additional)
  {
    SeparatedNotIn(deps, used, i, j);
    MinusUnfold(deps, used, i);
    MinusHashesUnfold(steps, used, deps, j);
  }

  /** One pass over the two ascending lists. */
  method IgnoredAndAdditionalDependencies(steps: seq<Step>, step: Step, used: seq<StepIndex>)
    returns (ignored: seq<StepIndex>, additional: seq<Hash>)
    requires StrictlySorted(step.dependencies)
    requires StrictlySorted(used) && Indices(steps, used)
    ensures IsDelta(steps, step.dependencies, used, ignored, additional)
  {
    var deps := step.dependencies;
    ignored, additional := [], [];
    var i: nat, j: nat := 0, 0;
    while i < |deps| || j < |used|
      invariant Merged(steps, deps, used, i, j, ignored, additional)
      decreases |deps| - i + |used| - j
    {
      if i < |deps| && j < |used| && deps[i] == used[j] {
        MergeBoth(steps, deps, used, i, j, ignored, additional);
        i, j := i + 1, j + 1;
      } else if j == |used| || (i < |deps| && deps[i] < used[j]) {
        MergeIgnored(steps, deps, used, i, j, ignored, additional);
        ignored := ignored + [deps[i]];
        i := i + 1;
      } else {
        MergeAdditional(steps, deps, used, i, j, ignored, additional);
        additional := additional + [steps[used[j]].hash];
        j := j + 1;
      }
    }
    assert ignored == ignored + [] && additional == additional + [];
    additional := Sort(additional);
  }

  /** The lists in a record have the form that the log format prescribes. */
  lemma {:induction false} DeltaWellFormed(
    steps: seq<Step>, dependencies: seq<StepIndex>, used: seq<StepIndex>,
    ignored: seq<StepIndex>, additional: seq<Hash>)
    requires StrictlySorted(dependencies) && Indices(steps, used)
    requires IsDelta(steps, dependencies, used, ignored, additional)
    ensures StrictlySorted(ignored) && Sorted(additional)
    ensures forall d :: d in ignored <==> d in dependencies && d !in used
  {
    MinusElements(dependencies, used);
    MinusSorted(dependencies, used);
    SortSorts(MinusHashes(steps, used, dependencies));
  }

  /** Looking up the logged hashes finds exactly the used steps that the manifest does not declare. */
  lemma {:induction false} DecodeDelta(
    steps: seq<Step>, dependencies: seq<StepIndex>, used: seq<StepIndex>, d: StepIndex)
    requires DistinctHashes(steps) && Indices(steps, used)
    ensures
      var additional := Sort(MinusHashes(steps, used, dependencies));
      d in Decode(IndexMap(steps), additional) <==> d in used && d !in dependencies
  {
    var hashes := MinusHashes(steps, used, dependencies);
    var additional := Sort(hashes);
    var indices := IndexMap(steps);
    SortSorts(hashes);
    SameElements(additional, hashes);
    DecodeElements(indices, additional, d);
    if d in Decode(indices, additional) {
      var h :| h in additional && h in indices && indices[h] == d;
      MinusHashesElements(steps, used, dependencies, h);
      var i :| 0 <= i < |used| && used[i] !in dependencies && steps[used[i]].hash == h;
      IndexMapInverts(steps, used[i]);
    }
    if d in used && d !in dependencies {
      var i :| 0 <= i < |used| && used[i] == d;
      IndexMapInverts(steps, d);
      MinusHashesElements(steps, used, dependencies, steps[d].hash);
    }
  }

  lemma {:induction false} DeltaHashesKnown(steps: seq<Step>, dependencies: seq<StepIndex>, used: seq<StepIndex>)
    requires DistinctHashes(steps) && Indices(steps, used)
    ensures AllKnown(IndexMap(steps), Sort(MinusHashes(steps, used, dependencies)))
  {
    var hashes := MinusHashes(steps, used, dependencies);
    SortSorts(hashes);
    SameElements(Sort(hashes), hashes);
    forall h | h in hashes ensures h in IndexMap(steps) {
      MinusHashesElements(steps, used, dependencies, h);
      var i :| 0 <= i < |used| && used[i] !in dependencies && steps[used[i]].hash == h;
      IndexMapInverts(steps, used[i]);
    }
  }

  /** The log entry of step `n` is the record of a run that used exactly `used`. */
  ghost predicate LoggedUse(steps: seq<Step>, invocations: Invocations, n: StepIndex, used: seq<StepIndex>)
    requires n < |steps|
  {
    && Indices(steps, used)
    && steps[n].hash in invocations
    && var entry := invocations[steps[n].hash];
       IsDelta(steps, steps[n].dependencies, used, entry.ignoredDependencies, entry.additionalDependencies)
  }

  /**
   Decoding in a later build with the same manifest gives back the used dependencies: they
   are exactly the graph's dependencies of the step that the log does not mark as ignored.
   */
  lemma {:induction false} DeltaRoundTrip(
    steps: seq<Step>, invocations: Invocations, n: StepIndex, used: seq<StepIndex>)
    requires ValidSteps(steps) && DistinctHashes(steps) && n < |steps|
    requires LoggedUse(steps, invocations, n, used)
    ensures forall d :: d in used <==>
      d in Dependencies(steps, invocations, n) && !Ignores(invocations, steps[n].hash, d)
    ensures AllKnown(IndexMap(steps), AdditionalHashes(steps, invocations, n))
  {
    var deps := steps[n].dependencies;
    var entry := invocations[steps[n].hash];
    DeltaWellFormed(steps, deps, used, entry.ignoredDependencies, entry.additionalDependencies);
    DeltaHashesKnown(steps, deps, used);
    forall d ensures d in used <==>
        d in Dependencies(steps, invocations, n) && !Ignores(invocations, steps[n].hash, d) {
      DecodeDelta(steps, deps, used, d);
    }
  }
}
