/** Compiled manifest steps, invocation log entries, and the graph that a build derives from the two. */
module Manifests {
  import opened Graphs

  /** A digest, read as a number. */
  type Hash = nat
  type StepIndex = nat

  datatype Step = Step(
    hash: Hash,
    dependencies: seq<StepIndex>,
    phony: bool,
    generator: bool,
    consolePool: bool)

  /** What the log remembers about one run of a step. Files are indices into a fingerprint table. */
  datatype Entry = Entry(
    outputFiles: seq<nat>,
    inputFiles: seq<nat>,
    ignoredDependencies: seq<StepIndex>,
    additionalDependencies: seq<Hash>)

  type Invocations = map<Hash, Entry>

  ghost predicate StrictlySorted(s: seq<nat>) {
    forall i, j :: 0 <= i < j < |s| ==> s[i] < s[j]
  }

  predicate Sorted(s: seq<nat>) {
    forall i, j :: 0 <= i < j < |s| ==> s[i] <= s[j]
  }

  /** Dependency lists are ascending, without duplicates, and refer to existing steps. */
  ghost predicate ValidSteps(steps: seq<Step>) {
    forall n :: 0 <= n < |steps| ==>
      && StrictlySorted(steps[n].dependencies)
      && (forall d :: d in steps[n].dependencies ==> d < |steps|)
  }

  ghost predicate DistinctHashes(steps: seq<Step>) {
    forall i, j :: 0 <= i < j < |steps| ==> steps[i].hash != steps[j].hash
  }

  /** The lists of ignored dependencies that binary search is applied to are ascending. */
  predicate ValidInvocations(invocations: Invocations) {
    forall h :: h in invocations ==> Sorted(invocations[h].ignoredDependencies)
  }

  /** The index of the last step with a given hash. */
  ghost function IndexMap(steps: seq<Step>): map<Hash, StepIndex> {
    if steps == [] then map[]
    else IndexMap(steps[..|steps| - 1])[steps[|steps| - 1].hash := |steps| - 1]
  }

  method ComputeIndices(steps: seq<Step>) returns (indices: map<Hash, StepIndex>)
    ensures indices == IndexMap(steps)
  {
    indices := map[];
    for i := 0 to |steps|
      invariant indices == IndexMap(steps[..i])
    {
      assert steps[..i + 1][..i] == steps[..i];
      indices := indices[steps[i].hash := i];
    }
    assert steps[..|steps|] == steps;
  }

  lemma {:induction false} IndexMapSound(steps: seq<Step>, h: Hash)
    requires h in IndexMap(steps)
    ensures IndexMap(steps)[h] < |steps| && steps[IndexMap(steps)[h]].hash == h
  {
    if steps != [] && h != steps[|steps| - 1].hash {
      IndexMapSound(steps[..|steps| - 1], h);
    }
  }

  lemma {:induction false} IndexMapInverts(steps: seq<Step>, n: StepIndex)
    requires n < |steps| && DistinctHashes(steps)
    ensures steps[n].hash in IndexMap(steps) && IndexMap(steps)[steps[n].hash] == n
  {
    if n < |steps| - 1 {
      IndexMapInverts(steps[..|steps| - 1], n);
    }
  }

  /** The steps that logged hashes refer to; hashes of steps that no longer exist are dropped. */
  ghost function Decode(indices: map<Hash, StepIndex>, hashes: seq<Hash>): seq<StepIndex> {
    if hashes == [] then []
    else
      var rest := Decode(indices, hashes[..|hashes| - 1]);
      var h := hashes[|hashes| - 1];
      if h in indices then rest + [indices[h]] else rest
  }

  lemma {:induction false} DecodePrefix(indices: map<Hash, StepIndex>, hashes: seq<Hash>, i: nat)
    requires i < |hashes|
    ensures Decode(indices, hashes[..i + 1]) ==
      Decode(indices, hashes[..i]) + (if hashes[i] in indices then [indices[hashes[i]]] else [])
    ensures Decode(indices, hashes[..i + 1]) <= Decode(indices, hashes)
    decreases |hashes|
  {
    assert hashes[..i + 1][..i] == hashes[..i];
    if i + 1 == |hashes| {
      assert hashes[..i + 1] == hashes;
    } else {
      var front := hashes[..|hashes| - 1];
      DecodePrefix(indices, front, i);
      assert front[..i + 1] == hashes[..i + 1];
    }
  }

  /** Where the dependency decoded from hash `i` stands. */
  lemma {:induction false} DecodeNext(
    indices: map<Hash, StepIndex>, deps: seq<StepIndex>, hashes: seq<Hash>, i: nat)
    requires i < |hashes| && hashes[i] in indices
    ensures
      var k := |deps| + |Decode(indices, hashes[..i])|;
      var all := deps + Decode(indices, hashes);
      k < |all| && all[k] == indices[hashes[i]]
  {
    DecodePrefix(indices, hashes, i);
  }

  lemma {:induction false} DecodeElements(indices: map<Hash, StepIndex>, hashes: seq<Hash>, d: StepIndex)
    ensures d in Decode(indices, hashes) <==> exists h :: h in hashes && h in indices && indices[h] == d
  {
    if hashes != [] {
      var last := hashes[|hashes| - 1];
      DecodeElements(indices, hashes[..|hashes| - 1], d);
      assert hashes == hashes[..|hashes| - 1] + [last];
    }
  }

  function AdditionalHashes(steps: seq<Step>, invocations: Invocations, n: StepIndex): seq<Hash>
    requires n < |steps|
  {
    if steps[n].hash in invocations then invocations[steps[n].hash].additionalDependencies else []
  }

  /** Manifest dependencies followed by the additional ones that the log knows about. */
  ghost function Dependencies(steps: seq<Step>, invocations: Invocations, n: StepIndex): seq<StepIndex>
    requires n < |steps|
  {
    steps[n].dependencies + Decode(IndexMap(steps), AdditionalHashes(steps, invocations, n))
  }

  ghost function DependencyGraph(steps: seq<Step>, invocations: Invocations): Graph {
    seq(|steps|, n requires 0 <= n < |steps| => Dependencies(steps, invocations, n))
  }

  /** Every additional dependency in the log still exists in the manifest. */
  ghost predicate AllKnown(indices: map<Hash, StepIndex>, hashes: seq<Hash>) {
    forall h :: h in hashes ==> h in indices
  }

  lemma {:induction false} AllKnownPrefix(indices: map<Hash, StepIndex>, hashes: seq<Hash>, i: nat)
    requires i < |hashes|
    ensures AllKnown(indices, hashes[..i + 1]) <==> AllKnown(indices, hashes[..i]) && hashes[i] in indices
  {
    assert hashes[..i + 1] == hashes[..i] + [hashes[i]];
  }

  /** What becomes known with hash `i`. */
  lemma {:induction false} DecodeTurn(
    indices: map<Hash, StepIndex>, deps: seq<StepIndex>, hashes: seq<Hash>, i: nat)
    requires i < |hashes|
    ensures |Decode(indices, hashes[..i + 1])| == |Decode(indices, hashes[..i])| + if hashes[i] in indices then 1 else 0
    ensures AllKnown(indices, hashes[..i + 1]) <==> AllKnown(indices, hashes[..i]) && hashes[i] in indices
    ensures
      var k := |deps| + |Decode(indices, hashes[..i])|;
      var all := deps + Decode(indices, hashes);
      hashes[i] in indices ==> k < |all| && all[k] == indices[hashes[i]]
  {
    AllKnownPrefix(indices, hashes, i);
    DecodePrefix(indices, hashes, i);
    if hashes[i] in indices {
      DecodeNext(indices, deps, hashes, i);
    }
  }

  lemma {:induction false} DependencyGraphValid(steps: seq<Step>, invocations: Invocations)
    requires ValidSteps(steps)
    ensures ValidGraph(DependencyGraph(steps, invocations))
  {
    var g := DependencyGraph(steps, invocations);
    forall n, d | 0 <= n < |g| && d in g[n] ensures d < |g| {
      var hashes := AdditionalHashes(steps, invocations, n);
      if d !in steps[n].dependencies {
        DecodeElements(IndexMap(steps), hashes, d);
        var h :| h in hashes && h in IndexMap(steps) && IndexMap(steps)[h] == d;
        IndexMapSound(steps, h);
      }
    }
  }

  /** Whether the log says that the step with hash `hash` did not use dependency `d`. */
  ghost predicate Ignores(invocations: Invocations, hash: Hash, d: StepIndex) {
    hash in invocations && d in invocations[hash].ignoredDependencies
  }

  method BinarySearch(s: seq<nat>, x: nat) returns (found: bool)
    requires Sorted(s)
    ensures found <==> x in s
  {
    var lo, hi := 0, |s|;
    while lo < hi
      invariant 0 <= lo <= hi <= |s|
      invariant forall i :: 0 <= i < lo ==> s[i] < x
      invariant forall i :: hi <= i < |s| ==> s[i] >= x
    {
      var mid := lo + (hi - lo) / 2;
      if s[mid] < x {
        lo := mid + 1;
      } else {
        hi := mid;
      }
    }
    found := lo < |s| && s[lo] == x;
  }

  method StepIsIgnored(invocations: Invocations, hash: Hash, d: StepIndex) returns (ignored: bool)
    requires ValidInvocations(invocations)
    ensures ignored <==> Ignores(invocations, hash, d)
  {
    if hash !in invocations {
      return false;
    }
    ignored := BinarySearch(invocations[hash].ignoredDependencies, d);
  }
}
