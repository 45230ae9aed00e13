/** An invocation log that holds entries back until their fingerprints cannot be racily clean any more. */
module DelayedLogs {
  import opened Fingerprints
  import opened Options

  datatype Call =
    | RanCommand(
        step: nat, outputFiles: seq<Path>, outputs: seq<Fingerprint>, inputFiles: seq<Path>, inputs: seq<Fingerprint>,
        ignored: seq<nat>, additional: seq<nat>)
    | CleanedCommand(step: nat)

  datatype Entry = Entry(timestamp: int, call: Call)

  const MAX_TIME := 0x7FFF_FFFF_FFFF_FFFF

  /** The same fingerprints, except that none of them is racily clean. */
  ghost predicate FlagsCleared(logged: seq<Fingerprint>, written: seq<Fingerprint>) {
    && |written| == |logged|
    && forall i :: 0 <= i < |logged| ==>
         written[i].stat == logged[i].stat && written[i].hash == logged[i].hash && !written[i].racilyClean
  }

  /** What is written for a call: the same, except that no fingerprint is racily clean. */
  ghost predicate Settled(logged: Call, written: Call) {
    if logged.CleanedCommand? then written == logged
    else
      && written.RanCommand? && written.step == logged.step
      && written.outputFiles == logged.outputFiles && FlagsCleared(logged.outputs, written.outputs)
      && written.inputFiles == logged.inputFiles && FlagsCleared(logged.inputs, written.inputs)
      && written.ignored == logged.ignored && written.additional == logged.additional
  }

  /** The calls in `written` have been settled, the others are waiting. */
  ghost predicate InOrder(logged: seq<Call>, written: seq<Call>, waiting: seq<Entry>) {
    && |logged| == |written| + |waiting|
    && (forall i :: 0 <= i < |written| ==> Settled(logged[i], written[i]))
    && (forall i {:trigger waiting[i]} :: 0 <= i < |waiting| ==> waiting[i].call == logged[|written| + i])
  }

  /** Every call that is written was logged before the second in which it was written. */
  ghost predicate OnTime(loggedAt: seq<int>, writtenAt: seq<int>, waiting: seq<Entry>) {
    && |loggedAt| == |writtenAt| + |waiting|
    && (forall i :: 0 <= i < |writtenAt| ==> loggedAt[i] < writtenAt[i])
    && (forall i {:trigger waiting[i]} :: 0 <= i < |waiting| ==> waiting[i].timestamp == loggedAt[|writtenAt| + i])
  }

  lemma {:induction false} Enqueued(logged: seq<Call>, loggedAt: seq<int>, written: seq<Call>, writtenAt: seq<int>,
                                    waiting: seq<Entry>, e: Entry)
    requires InOrder(logged, written, waiting) && OnTime(loggedAt, writtenAt, waiting)
    ensures InOrder(logged + [e.call], written, waiting + [e])
    ensures OnTime(loggedAt + [e.timestamp], writtenAt, waiting + [e])
  {
  }

  lemma {:induction false} WriteNext(logged: seq<Call>, loggedAt: seq<int>, written: seq<Call>, writtenAt: seq<int>,
                                     entries: seq<Entry>, it: nat, now: int, call: Call)
    requires it < |entries| && entries[it].timestamp < now && Settled(entries[it].call, call)
    requires InOrder(logged, written, entries[it..]) && OnTime(loggedAt, writtenAt, entries[it..])
    ensures InOrder(logged, written + [call], entries[it + 1..])
    ensures OnTime(loggedAt, writtenAt + [now], entries[it + 1..])
  {
    var waiting := entries[it..];
    assert waiting[0] == entries[it] && waiting[1..] == entries[it + 1..];
    forall i | 0 <= i < |waiting[1..]|
      ensures waiting[1..][i].call == logged[|written| + 1 + i]
      ensures waiting[1..][i].timestamp == loggedAt[|writtenAt| + 1 + i]
    {
      assert waiting[1..][i] == waiting[i + 1];
    }
  }

  /**
   * A fingerprint that was taken of a file, of which no modification is younger than the entry, is written as the
   * fingerprint that would be taken of the unmodified file at the time of writing.
   */
  ghost predicate Retaken(logged: Fingerprint, loggedAt: int, written: Fingerprint, writtenAt: int) {
    forall file, timestamp {:trigger Taken(file, timestamp)} ::
      logged == Taken(file, timestamp) && FromStat(file, NO_STAT).mtime <= loggedAt ==>
      written == Taken(file, writtenAt)
  }

  ghost predicate AllRetaken(logged: seq<Fingerprint>, loggedAt: int, written: seq<Fingerprint>, writtenAt: int) {
    |logged| == |written| &&
    forall i :: 0 <= i < |logged| ==> Retaken(logged[i], loggedAt, written[i], writtenAt)
  }

  ghost predicate CallRetaken(logged: Call, loggedAt: int, written: Call, writtenAt: int) {
    if logged.RanCommand? then
      && written.RanCommand? && AllRetaken(logged.outputs, loggedAt, written.outputs, writtenAt)
      && AllRetaken(logged.inputs, loggedAt, written.inputs, writtenAt)
    else
      written == logged
  }

  lemma {:induction false} SettledIsRetaken(logged: Call, loggedAt: int, written: Call, writtenAt: int)
    requires loggedAt < writtenAt && Settled(logged, written)
    ensures CallRetaken(logged, loggedAt, written, writtenAt)
  {
    forall file, timestamp | FromStat(file, NO_STAT).mtime <= loggedAt
      ensures Taken(file, timestamp).(racilyClean := false) == Taken(file, writtenAt)
    {
      SettledIsTaken(file, timestamp, loggedAt, writtenAt);
    }
  }

  /** How many of the entries are written at some time: those before the first that is not older. */
  ghost function Due(entries: seq<Entry>, now: int): (n: nat)
    ensures n <= |entries| && (n < |entries| ==> entries[n].timestamp >= now)
    ensures forall i :: 0 <= i < n ==> entries[i].timestamp < now
  {
    if entries == [] || entries[0].timestamp >= now then 0 else 1 + Due(entries[1..], now)
  }

  lemma {:induction false} DueIs(entries: seq<Entry>, now: int, n: nat)
    requires n <= |entries| && (n < |entries| ==> entries[n].timestamp >= now)
    requires forall i :: 0 <= i < n ==> entries[i].timestamp < now
    ensures Due(entries, now) == n
  {
    if n > 0 {
      DueIs(entries[1..], now, n - 1);
    }
  }

  class DelayedInvocationLog {
    var delayedEntries: seq<Entry>

    /** The inner log. */
    var written: seq<Call>

    /** All calls so far, when they were made, and when those that are written were written. */
    ghost var logged: seq<Call>
    ghost var loggedAt: seq<int>
    ghost var writtenAt: seq<int>

    constructor ()
      ensures Valid() && logged == [] && delayedEntries == []
    {
      delayedEntries, written, logged, loggedAt, writtenAt := [], [], [], [], [];
    }

    ghost predicate Valid()
      reads this
    {
      && |written| == |writtenAt|
      && InOrder(logged, written, delayedEntries) && OnTime(loggedAt, writtenAt, delayedEntries)
    }

    method RanCommand(now: int, step: nat, outputFiles: seq<Path>, outputs: seq<Fingerprint>, inputFiles: seq<Path>,
                      inputs: seq<Fingerprint>, ignored: seq<nat>, additional: seq<nat>)
      requires Valid()
      modifies this
      ensures Valid()
      ensures logged == old(logged) +
        [Call.RanCommand(step, outputFiles, outputs, inputFiles, inputs, ignored, additional)]
      ensures delayedEntries ==
        old(delayedEntries)[Due(old(delayedEntries), now)..] + [Entry(now, logged[|logged| - 1])]
      ensures old(written) <= written && loggedAt == old(loggedAt) + [now]
    {
      WriteDelayedEntries(now);
      var call := Call.RanCommand(step, outputFiles, outputs, inputFiles, inputs, ignored, additional);
      Enqueued(logged, loggedAt, written, writtenAt, delayedEntries, Entry(now, call));
      delayedEntries := delayedEntries + [Entry(now, call)];
      logged, loggedAt := logged + [call], loggedAt + [now];
    }

    method CleanedCommand(now: int, step: nat)
      requires Valid()
      modifies this
      ensures Valid() && logged == old(logged) + [Call.CleanedCommand(step)]
      ensures delayedEntries ==
        old(delayedEntries)[Due(old(delayedEntries), now)..] + [Entry(now, Call.CleanedCommand(step))]
      ensures old(written) <= written && loggedAt == old(loggedAt) + [now]
    {
      WriteDelayedEntries(now);
      var call := Call.CleanedCommand(step);
      Enqueued(logged, loggedAt, written, writtenAt, delayedEntries, Entry(now, call));
      delayedEntries := delayedEntries + [Entry(now, call)];
      logged, loggedAt := logged + [call], loggedAt + [now];
    }

    /** Writes the entries that are strictly older than `now`, up to the first that is not. */
    method WriteDelayedEntries(now: int)
      requires Valid()
      modifies this`delayedEntries, this`written, this`writtenAt
      ensures Valid() && old(written) <= written
      ensures old(writtenAt) <= writtenAt && forall i :: |old(writtenAt)| <= i < |writtenAt| ==> writtenAt[i] == now
      ensures delayedEntries == old(delayedEntries)[Due(old(delayedEntries), now)..]
    {
      var it := 0;
      while it != |delayedEntries|
        invariant it <= |delayedEntries| && delayedEntries == old(delayedEntries) && old(written) <= written
        invariant forall i :: 0 <= i < it ==> delayedEntries[i].timestamp < now
        invariant |written| == |writtenAt|
        invariant InOrder(logged, written, delayedEntries[it..]) && OnTime(loggedAt, writtenAt, delayedEntries[it..])
        invariant old(writtenAt) <= writtenAt && forall i :: |old(writtenAt)| <= i < |writtenAt| ==> writtenAt[i] == now
        decreases |delayedEntries| - it
      {
        if delayedEntries[it].timestamp >= now {
          break;
        }
        WriteEntry(it, now);
        it := it + 1;
      }
      DueIs(delayedEntries, now, it);
      delayedEntries := delayedEntries[it..];
    }

    method WriteEntry(it: nat, now: int)
      requires it < |delayedEntries| && delayedEntries[it].timestamp < now && |written| == |writtenAt|
      requires InOrder(logged, written, delayedEntries[it..]) && OnTime(loggedAt, writtenAt, delayedEntries[it..])
      modifies this`written, this`writtenAt
      ensures old(written) <= written && writtenAt == old(writtenAt) + [now] && |written| == |writtenAt|
      ensures InOrder(logged, written, delayedEntries[it + 1..])
      ensures OnTime(loggedAt, writtenAt, delayedEntries[it + 1..])
    {
      Forward(delayedEntries[it].call);
      ghost var call := written[|written| - 1];
      WriteNext(logged, loggedAt, old(written), writtenAt, delayedEntries, it, now, call);
      writtenAt := writtenAt + [now];
    }

    method Forward(call: Call)
      modifies this`written
      ensures |written| == |old(written)| + 1 && old(written) <= written
      ensures Settled(call, written[|written| - 1])
    {
      match call {
        case CleanedCommand(_) =>
          written := written + [call];
        case RanCommand(step, outputFiles, outputs, inputFiles, inputs, ignored, additional) =>
          var settledOutputs := SetFingerprintNotRacilyClean(outputs);
          var settledInputs := SetFingerprintNotRacilyClean(inputs);
          written := written +
            [Call.RanCommand(step, outputFiles, settledOutputs, inputFiles, settledInputs, ignored, additional)];
      }
    }

    static method SetFingerprintNotRacilyClean(fingerprints: seq<Fingerprint>) returns (r: seq<Fingerprint>)
      ensures FlagsCleared(fingerprints, r)
    {
      r := fingerprints;
      for i := 0 to |fingerprints|
        invariant |r| == |fingerprints| && r[i..] == fingerprints[i..]
        invariant forall j :: 0 <= j < i ==> r[j] == fingerprints[j].(racilyClean := false)
      {
        assert r[i] == r[i..][0] == fingerprints[i];
        r := r[i := r[i].(racilyClean := false)];
        assert r[i + 1..] == fingerprints[i..][1..];
      }
    }

    /** The destructor writes everything, unless an entry was logged at the end of time. */
    method Close()
      requires Valid()
      modifies this`delayedEntries, this`written, this`writtenAt
      ensures Valid() && old(written) <= written
      ensures delayedEntries == [] <==>
        forall i :: 0 <= i < |old(delayedEntries)| ==> old(delayedEntries)[i].timestamp < 0x7FFF_FFFF_FFFF_FFFF
      ensures delayedEntries == [] ==>
        |written| == |logged| && forall i :: 0 <= i < |logged| ==> Settled(logged[i], written[i])
    {
      WriteDelayedEntries(MAX_TIME);
    }

    /**
     * With any clock, what is written is what was logged, in order, except that the flags of the fingerprints are
     * cleared, so that they are the ones that would be taken of the unmodified files at the time of writing.
     */
    method AnyRun()
      requires Valid()
      modifies this
      ensures Valid() && old(logged) <= logged && old(written) <= written
      ensures |written| == |writtenAt| && |logged| == |loggedAt|
      ensures forall i :: 0 <= i < |written| ==>
        loggedAt[i] < writtenAt[i] && Settled(logged[i], written[i]) &&
        CallRetaken(logged[i], loggedAt[i], written[i], writtenAt[i])
    {
      var count: int := *;
      for i := 0 to if count > 0 then count else 0
        invariant Valid() && old(logged) <= logged && old(written) <= written
      {
        var now: int, call: Call := *, *;
        match call {
          case CleanedCommand(step) =>
            CleanedCommand(now, step);
          case RanCommand(step, outputFiles, outputs, inputFiles, inputs, ignored, additional) =>
            RanCommand(now, step, outputFiles, outputs, inputFiles, inputs, ignored, additional);
        }
      }
      forall i | 0 <= i < |written|
        ensures CallRetaken(logged[i], loggedAt[i], written[i], writtenAt[i])
      {
        SettledIsRetaken(logged[i], loggedAt[i], written[i], writtenAt[i]);
      }
    }
  }

  /** With the flag cleared, a fingerprint is what would be taken of the unmodified file later on. */
  lemma {:induction false} SettledIsTaken(file: Option<File>, timestamp: int, loggedAt: int, writtenAt: int)
    requires FromStat(file, NO_STAT).mtime <= loggedAt < writtenAt
    ensures Taken(file, timestamp).(racilyClean := false) == Taken(file, writtenAt)
  {
  }

  /** So what was written detects every later change, and reports no other. */
  lemma {:induction false} SettledMatches(w: World, actions: seq<Action>, path: Path, timestamp: int, loggedAt: int,
                                          writtenAt: int)
    requires loggedAt < writtenAt <= w.clock && AllPossible(w, actions)
    requires FromStat(Examine(w, path), NO_STAT).mtime <= loggedAt
    requires SameDevice(Examine(w, path), Examine(DoAll(w, actions), path))
    ensures
      Clean(Taken(Examine(w, path), timestamp).(racilyClean := false), Examine(DoAll(w, actions), path)) <==>
      LooksSame(Examine(w, path), Examine(DoAll(w, actions), path))
  {
    SettledIsTaken(Examine(w, path), timestamp, loggedAt, writtenAt);
    MatchesAfterAnyHistory(w, actions, path, writtenAt);
  }
}
