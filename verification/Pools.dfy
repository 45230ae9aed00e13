/** The command runner that limits how many commands of each pool run at the same time. */
module Pools {

  /** A command to run, with the pool of its step; the empty name stands for no pool. */
  datatype Command = Command(text: string, pool: string)

  /** The commands of one pool, in order. */
  ghost function OfPool(s: seq<Command>, pool: string): seq<Command> {
    if s == [] then []
    else
      var rest := OfPool(s[..|s| - 1], pool);
      if s[|s| - 1].pool == pool then rest + [s[|s| - 1]] else rest
  }

  ghost function Reverse<T>(s: seq<T>): seq<T> {
    if s == [] then [] else Reverse(s[1..]) + [s[0]]
  }

  lemma {:induction false} OfPoolAppend(s: seq<Command>, c: Command, pool: string)
    ensures OfPool(s + [c], pool) == OfPool(s, pool) + if c.pool == pool then [c] else []
  {
    assert (s + [c])[..|s|] == s;
  }

  lemma {:induction false} OfPoolRemove(s: seq<Command>, i: nat, pool: string)
    requires i < |s|
    ensures |OfPool(s, pool)| == |OfPool(s[..i] + s[i + 1..], pool)| + if s[i].pool == pool then 1 else 0
  {
    var front, last := s[..|s| - 1], s[|s| - 1];
    if i == |s| - 1 {
      assert s[..i] + s[i + 1..] == front;
    } else {
      OfPoolRemove(front, i, pool);
      assert s[..i] + s[i + 1..] == (front[..i] + front[i + 1..]) + [last];
      OfPoolAppend(front[..i] + front[i + 1..], last, pool);
    }
  }

  lemma {:induction false} ReverseLast<T>(s: seq<T>)
    requires s != []
    ensures Reverse(s) == [s[|s| - 1]] + Reverse(s[..|s| - 1])
  {
    if |s| > 1 {
      ReverseLast(s[1..]);
      assert s[1..][|s[1..]| - 1] == s[|s| - 1];
      assert s[1..][..|s[1..]| - 1] == s[..|s| - 1][1..];
    }
  }

  /** The number of commands in all queues. */
  ghost function Total(queues: map<string, seq<Command>>): nat {
    if queues == map[] then 0
    else
      var pool :| pool in queues;
      |queues[pool]| + Total(queues - {pool})
  }

  lemma {:induction false} TotalSplit(queues: map<string, seq<Command>>, pool: string)
    requires pool in queues
    ensures Total(queues) == |queues[pool]| + Total(queues - {pool})
    decreases queues
  {
    var first :| first in queues && Total(queues) == |queues[first]| + Total(queues - {first});
    if first != pool {
      TotalSplit(queues - {first}, pool);
      TotalSplit(queues - {pool}, first);
      assert queues - {first} - {pool} == queues - {pool} - {first};
    }
  }

  lemma {:induction false} TotalUpdate(queues: map<string, seq<Command>>, pool: string, queue: seq<Command>)
    ensures Total(queues[pool := queue]) ==
      Total(queues) - (if pool in queues then |queues[pool]| else 0) + |queue|
  {
    var queues' := queues[pool := queue];
    TotalSplit(queues', pool);
    assert queues' - {pool} == queues - {pool};
    if pool in queues {
      TotalSplit(queues, pool);
    } else {
      assert queues - {pool} == queues;
    }
  }

  ghost function QueueOf(queues: map<string, seq<Command>>, pool: string): seq<Command> {
    if pool in queues then queues[pool] else []
  }

  /** The spots of a declared pool are either free or taken by a running command; others are never used. */
  ghost predicate SpotsConserved(
    depth: map<string, nat>, pools: map<string, int>, queues: map<string, seq<Command>>, inner: seq<Command>,
    pool: string)
  {
    var running := |OfPool(inner, pool)|;
    if pool == "" then QueueOf(queues, pool) == []
    else if pool in depth then
      && pool in pools && pools[pool] >= 0
      && pools[pool] + running == depth[pool]
      && (QueueOf(queues, pool) != [] ==> pools[pool] == 0)
    else
      pool !in pools && running == 0
  }

  /** Commands of a pool start in the order in which they were invoked. */
  ghost predicate InOrder(
    queues: map<string, seq<Command>>, started: seq<Command>, invoked: seq<Command>, pool: string)
  {
    OfPool(started, pool) + Reverse(QueueOf(queues, pool)) == OfPool(invoked, pool)
  }

  ghost function Take(pools: map<string, int>, pool: string): map<string, int>
    requires pool == "" || pool in pools
  {
    if pool == "" then pools else pools[pool := pools[pool] - 1]
  }

  ghost function Release(pools: map<string, int>, pool: string): map<string, int> {
    pools[pool := (if pool in pools then pools[pool] else 0) + 1]
  }

  predicate Free(pools: map<string, int>, pool: string) {
    pool == "" || (pool in pools && pools[pool] != 0)
  }

  lemma {:induction false} SpotsTaken(
    depth: map<string, nat>, pools: map<string, int>, queues: map<string, seq<Command>>, inner: seq<Command>,
    c: Command, pool: string)
    requires SpotsConserved(depth, pools, queues, inner, pool) && Free(pools, c.pool)
    ensures SpotsConserved(depth, Take(pools, c.pool), queues, inner + [c], pool)
  {
    OfPoolAppend(inner, c, pool);
  }

  lemma {:induction false} SpotsDelayed(
    depth: map<string, nat>, pools: map<string, int>, queues: map<string, seq<Command>>, inner: seq<Command>,
    c: Command, pool: string)
    requires SpotsConserved(depth, pools, queues, inner, pool) && !Free(pools, c.pool)
    ensures SpotsConserved(depth, pools, queues[c.pool := [c] + QueueOf(queues, c.pool)], inner, pool)
  {
  }

  /** A command is finished, and the command that waited longest, if any, takes its spot. */
  lemma {:induction false} SpotsReleased(
    depth: map<string, nat>, pools: map<string, int>, queues: map<string, seq<Command>>, inner: seq<Command>,
    i: nat, pool: string)
    requires SpotsConserved(depth, pools, queues, inner, pool) && i < |inner|
    ensures
      var c, rest := inner[i], inner[..i] + inner[i + 1..];
      var queue := QueueOf(queues, c.pool);
      if queue == [] then
        SpotsConserved(depth, Release(pools, c.pool), queues, rest, pool)
      else
        var next := queue[|queue| - 1];
        next.pool == c.pool && c.pool in pools && pools[c.pool] == 0 ==>
          SpotsConserved(
            depth, Take(Release(pools, c.pool), c.pool), queues[c.pool := queue[..|queue| - 1]], rest + [next], pool)
  {
    OfPoolRemove(inner, i, pool);
    var c, rest := inner[i], inner[..i] + inner[i + 1..];
    var queue := QueueOf(queues, c.pool);
    if queue != [] {
      OfPoolAppend(rest, queue[|queue| - 1], pool);
    }
  }

  lemma {:induction false} OrderTaken(
    queues: map<string, seq<Command>>, started: seq<Command>, invoked: seq<Command>, c: Command, pool: string)
    requires InOrder(queues, started, invoked, pool) && QueueOf(queues, c.pool) == []
    ensures InOrder(queues, started + [c], invoked + [c], pool)
  {
    OfPoolAppend(started, c, pool);
    OfPoolAppend(invoked, c, pool);
  }

  lemma {:induction false} OrderDelayed(
    queues: map<string, seq<Command>>, started: seq<Command>, invoked: seq<Command>, c: Command, pool: string)
    requires InOrder(queues, started, invoked, pool)
    ensures InOrder(queues[c.pool := [c] + QueueOf(queues, c.pool)], started, invoked + [c], pool)
  {
    OfPoolAppend(invoked, c, pool);
    var queue := QueueOf(queues, c.pool);
    assert ([c] + queue)[1..] == queue;
    assert OfPool(started, pool) + (Reverse(queue) + [c]) == OfPool(started, pool) + Reverse(queue) + [c];
  }

  lemma {:induction false} OrderReleased(
    queues: map<string, seq<Command>>, started: seq<Command>, invoked: seq<Command>, own: string, pool: string)
    requires InOrder(queues, started, invoked, pool) && QueueOf(queues, own) != []
    requires QueueOf(queues, own)[|QueueOf(queues, own)| - 1].pool == own
    ensures
      var queue := QueueOf(queues, own);
      InOrder(queues[own := queue[..|queue| - 1]], started + [queue[|queue| - 1]], invoked, pool)
  {
    var queue := QueueOf(queues, own);
    var next := queue[|queue| - 1];
    OfPoolAppend(started, next, pool);
    if pool == own {
      ReverseLast(queue);
      assert OfPool(started, pool) + ([next] + Reverse(queue[..|queue| - 1])) ==
             OfPool(started, pool) + [next] + Reverse(queue[..|queue| - 1]);
    }
  }

  ghost predicate OwnQueues(queues: map<string, seq<Command>>) {
    forall pool, i :: pool in queues && 0 <= i < |queues[pool]| ==> queues[pool][i].pool == pool
  }

  ghost predicate AllSpotsConserved(
    depth: map<string, nat>, pools: map<string, int>, queues: map<string, seq<Command>>, inner: seq<Command>)
  {
    forall pool :: SpotsConserved(depth, pools, queues, inner, pool)
  }

  ghost predicate AllInOrder(queues: map<string, seq<Command>>, started: seq<Command>, invoked: seq<Command>) {
    forall pool :: InOrder(queues, started, invoked, pool)
  }

  lemma {:induction false} InvokedNow(
    depth: map<string, nat>, pools: map<string, int>, queues: map<string, seq<Command>>, inner: seq<Command>,
    started: seq<Command>, invoked: seq<Command>, c: Command)
    requires AllSpotsConserved(depth, pools, queues, inner) && AllInOrder(queues, started, invoked)
    requires Free(pools, c.pool)
    ensures AllSpotsConserved(depth, Take(pools, c.pool), queues, inner + [c])
    ensures AllInOrder(queues, started + [c], invoked + [c])
  {
    assert SpotsConserved(depth, pools, queues, inner, c.pool);
    var pools', inner', started', invoked' := Take(pools, c.pool), inner + [c], started + [c], invoked + [c];
    forall pool
      ensures SpotsConserved(depth, pools', queues, inner', pool) && InOrder(queues, started', invoked', pool)
    {
      SpotsTaken(depth, pools, queues, inner, c, pool);
      OrderTaken(queues, started, invoked, c, pool);
    }
  }

  lemma {:induction false} InvokedLater(
    depth: map<string, nat>, pools: map<string, int>, queues: map<string, seq<Command>>, inner: seq<Command>,
    started: seq<Command>, invoked: seq<Command>, c: Command)
    requires AllSpotsConserved(depth, pools, queues, inner) && AllInOrder(queues, started, invoked)
    requires !Free(pools, c.pool) && OwnQueues(queues)
    ensures
      var queues' := queues[c.pool := [c] + QueueOf(queues, c.pool)];
      && AllSpotsConserved(depth, pools, queues', inner) && AllInOrder(queues', started, invoked + [c])
      && OwnQueues(queues') && Total(queues') == Total(queues) + 1
  {
    var queues', invoked' := queues[c.pool := [c] + QueueOf(queues, c.pool)], invoked + [c];
    forall pool
      ensures SpotsConserved(depth, pools, queues', inner, pool) && InOrder(queues', started, invoked', pool)
    {
      SpotsDelayed(depth, pools, queues, inner, c, pool);
      OrderDelayed(queues, started, invoked, c, pool);
    }
    TotalUpdate(queues, c.pool, [c] + QueueOf(queues, c.pool));
  }

  /** If commands wait for the spot of a finished command, then there was no free spot. */
  lemma {:induction false} WaitingMeansFull(
    depth: map<string, nat>, pools: map<string, int>, queues: map<string, seq<Command>>, inner: seq<Command>, i: nat)
    requires AllSpotsConserved(depth, pools, queues, inner) && i < |inner|
    requires QueueOf(queues, inner[i].pool) != []
    ensures inner[i].pool != "" && inner[i].pool in pools && pools[inner[i].pool] == 0
  {
    assert SpotsConserved(depth, pools, queues, inner, inner[i].pool);
    OfPoolRemove(inner, i, inner[i].pool);
  }

  lemma {:induction false} FinishedIdle(
    depth: map<string, nat>, pools: map<string, int>, queues: map<string, seq<Command>>, inner: seq<Command>, i: nat)
    requires AllSpotsConserved(depth, pools, queues, inner) && i < |inner|
    requires QueueOf(queues, inner[i].pool) == []
    ensures AllSpotsConserved(depth, Release(pools, inner[i].pool), queues, inner[..i] + inner[i + 1..])
  {
    var pools', inner' := Release(pools, inner[i].pool), inner[..i] + inner[i + 1..];
    forall pool ensures SpotsConserved(depth, pools', queues, inner', pool) {
      SpotsReleased(depth, pools, queues, inner, i, pool);
    }
  }

  lemma {:induction false} FinishedNext(
    depth: map<string, nat>, pools: map<string, int>, queues: map<string, seq<Command>>, inner: seq<Command>,
    started: seq<Command>, invoked: seq<Command>, i: nat)
    requires AllSpotsConserved(depth, pools, queues, inner) && AllInOrder(queues, started, invoked)
    requires i < |inner| && QueueOf(queues, inner[i].pool) != [] && OwnQueues(queues)
    ensures
      var own := inner[i].pool;
      var queue := QueueOf(queues, own);
      var next, queues' := queue[|queue| - 1], queues[own := queue[..|queue| - 1]];
      && AllSpotsConserved(
           depth, Take(Release(pools, own), own), queues', inner[..i] + inner[i + 1..] + [next])
      && AllInOrder(queues', started + [next], invoked)
      && OwnQueues(queues') && Total(queues') == Total(queues) - 1
  {
    var own := inner[i].pool;
    var queue := QueueOf(queues, own);
    var next, queues' := queue[|queue| - 1], queues[own := queue[..|queue| - 1]];
    var pools', inner' := Take(Release(pools, own), own), inner[..i] + inner[i + 1..] + [next];
    var started' := started + [next];
    WaitingMeansFull(depth, pools, queues, inner, i);
    forall pool
      ensures SpotsConserved(depth, pools', queues', inner', pool) && InOrder(queues', started', invoked, pool)
    {
      SpotsReleased(depth, pools, queues, inner, i, pool);
      OrderReleased(queues, started, invoked, own, pool);
    }
    TotalUpdate(queues, own, queue[..|queue| - 1]);
  }

  /** Whether commands of a pool are ever run: they have none, or it is declared and has a spot. */
  ghost predicate HasSpots(depth: map<string, nat>, pool: string) {
    pool == "" || (pool in depth && depth[pool] > 0)
  }

  /** The command needs no pool, or fewer commands of its pool are running than the pool has spots. */
  ghost predicate SpotLeft(depth: map<string, nat>, inner: seq<Command>, pool: string) {
    pool == "" || (pool in depth && |OfPool(inner, pool)| < depth[pool])
  }

  lemma {:induction false} FreeIsSpotLeft(
    depth: map<string, nat>, pools: map<string, int>, queues: map<string, seq<Command>>, inner: seq<Command>,
    pool: string)
    requires AllSpotsConserved(depth, pools, queues, inner)
    ensures Free(pools, pool) <==> SpotLeft(depth, inner, pool)
  {
    assert SpotsConserved(depth, pools, queues, inner, pool);
  }

  lemma {:induction false} FreeHasSpots(
    depth: map<string, nat>, pools: map<string, int>, queues: map<string, seq<Command>>, inner: seq<Command>,
    pool: string)
    requires AllSpotsConserved(depth, pools, queues, inner) && Free(pools, pool)
    ensures HasSpots(depth, pool)
  {
    assert SpotsConserved(depth, pools, queues, inner, pool);
  }

  lemma {:induction false} RunningHasSpots(
    depth: map<string, nat>, pools: map<string, int>, queues: map<string, seq<Command>>, inner: seq<Command>, i: nat)
    requires AllSpotsConserved(depth, pools, queues, inner) && i < |inner|
    ensures HasSpots(depth, inner[i].pool)
  {
    assert SpotsConserved(depth, pools, queues, inner, inner[i].pool);
    OfPoolRemove(inner, i, inner[i].pool);
  }

  lemma {:induction false} OfPoolIn(s: seq<Command>, c: Command, pool: string)
    ensures c in OfPool(s, pool) <==> c in s && c.pool == pool
  {
    if s != [] {
      OfPoolIn(s[..|s| - 1], c, pool);
      assert s == s[..|s| - 1] + [s[|s| - 1]];
    }
  }

  lemma {:induction false} NoneWaiting(queues: map<string, seq<Command>>, pool: string)
    requires Total(queues) == 0
    ensures QueueOf(queues, pool) == []
  {
    if pool in queues {
      TotalSplit(queues, pool);
    }
  }

  lemma {:induction false} AllEmpty(queues: map<string, seq<Command>>)
    requires forall pool :: QueueOf(queues, pool) == []
    ensures Total(queues) == 0
    decreases queues
  {
    if queues != map[] {
      var pool :| pool in queues;
      TotalSplit(queues, pool);
      assert QueueOf(queues, pool) == [];
      forall other ensures QueueOf(queues - {pool}, other) == [] {
        assert QueueOf(queues, other) == [];
      }
      AllEmpty(queues - {pool});
    }
  }

  class PooledCommandRunner {
    /** Spots left in each pool. */
    var pools: map<string, int>
    /** Commands that wait for a spot; the next one to run is at the end. */
    var delayedCommands: map<string, seq<Command>>
    var delayedCommandsCount: nat
    /** The commands that the inner runner is running. */
    var inner: seq<Command>

    ghost const depth: map<string, nat>
    /** The commands that were invoked, and those that were handed to the inner runner, in order. */
    ghost var invoked: seq<Command>
    ghost var started: seq<Command>
    ghost var finished: nat

    constructor (pools: map<string, nat>)
      ensures Valid() && depth == pools
      ensures invoked == started == inner == [] && finished == 0
    {
      this.pools, depth := pools, pools;
      delayedCommands, delayedCommandsCount, inner := map[], 0, [];
      invoked, started, finished := [], [], 0;
    }

    ghost predicate Valid()
      reads this
    {
      && AllSpotsConserved(depth, pools, delayedCommands, inner)
      && AllInOrder(delayedCommands, started, invoked)
      && OwnQueues(delayedCommands)
      && delayedCommandsCount == Total(delayedCommands)
      && |inner| + finished == |started|
      && |started| + delayedCommandsCount == |invoked|
      && forall c :: c in started ==> HasSpots(depth, c.pool)
    }

    function Size(): nat
      reads this
    {
      |inner| + delayedCommandsCount
    }

    predicate CanRunNow(pool: string)
      reads this
    {
      Free(pools, pool)
    }

    /** Hands a command to the inner runner. */
    method InvokeNow(c: Command)
      requires c.pool == "" || c.pool in pools
      modifies this`pools, this`inner, this`started
      ensures pools == Take(old(pools), c.pool)
      ensures inner == old(inner) + [c] && started == old(started) + [c]
    {
      if c.pool != "" {
        pools := pools[c.pool := pools[c.pool] - 1];
      }
      inner, started := inner + [c], started + [c];
    }

    method Delay(c: Command)
      modifies this`delayedCommands, this`delayedCommandsCount
      ensures delayedCommands == old(delayedCommands)[c.pool := [c] + QueueOf(old(delayedCommands), c.pool)]
      ensures delayedCommandsCount == old(delayedCommandsCount) + 1
    {
      delayedCommandsCount := delayedCommandsCount + 1;
      var commands := if c.pool in delayedCommands then delayedCommands[c.pool] else [];
      delayedCommands := delayedCommands[c.pool := [c] + commands];
    }

    method Invoke(c: Command)
      requires Valid()
      modifies this
      ensures Valid() && invoked == old(invoked) + [c] && finished == old(finished)
      ensures Size() == old(Size()) + 1
      ensures started == old(started) + if SpotLeft(depth, old(inner), c.pool) then [c] else []
    {
      FreeIsSpotLeft(depth, pools, delayedCommands, inner, c.pool);
      if CanRunNow(c.pool) {
        InvokedNow(depth, pools, delayedCommands, inner, started, invoked, c);
        FreeHasSpots(depth, pools, delayedCommands, inner, c.pool);
        InvokeNow(c);
      } else {
        InvokedLater(depth, pools, delayedCommands, inner, started, invoked, c);
        Delay(c);
      }
      invoked := invoked + [c];
    }

    /** Starts the command of the pool that has waited longest, if there is one. */
    method InvokeDelayedJob(pool: string)
      requires pool == "" || pool in pools
      requires OwnQueues(delayedCommands)
      requires QueueOf(delayedCommands, pool) != [] ==> delayedCommandsCount > 0
      modifies this`pools, this`inner, this`started, this`delayedCommands, this`delayedCommandsCount
      ensures
        var queue := QueueOf(old(delayedCommands), pool);
        if queue == [] then
          && pools == old(pools) && inner == old(inner) && started == old(started)
          && delayedCommandsCount == old(delayedCommandsCount) && delayedCommands == old(delayedCommands)
        else
          var next := queue[|queue| - 1];
          && pools == Take(old(pools), pool) && inner == old(inner) + [next] && started == old(started) + [next]
          && delayedCommandsCount == old(delayedCommandsCount) - 1
          && delayedCommands == old(delayedCommands)[pool := queue[..|queue| - 1]]
    {
      var commands := if pool in delayedCommands then delayedCommands[pool] else [];
      if commands != [] {
        delayedCommandsCount := delayedCommandsCount - 1;
        InvokeNow(commands[|commands| - 1]);
        delayedCommands := delayedCommands[pool := commands[..|commands| - 1]];
      }
    }

    /** Gives back a spot of a pool, and starts the command that waits for it, if there is one. */
    method ReturnSpot(pool: string)
      requires OwnQueues(delayedCommands)
      requires QueueOf(delayedCommands, pool) != [] ==>
        delayedCommandsCount > 0 && (pool in pools ==> pools[pool] == 0)
      modifies this`pools, this`inner, this`started, this`delayedCommands, this`delayedCommandsCount
      ensures
        var queue := QueueOf(old(delayedCommands), pool);
        if queue == [] then
          && pools == Release(old(pools), pool) && inner == old(inner) && started == old(started)
          && delayedCommandsCount == old(delayedCommandsCount) && delayedCommands == old(delayedCommands)
        else
          var next := queue[|queue| - 1];
          && pools == Take(Release(old(pools), pool), pool)
          && inner == old(inner) + [next] && started == old(started) + [next]
          && delayedCommandsCount == old(delayedCommandsCount) - 1
          && delayedCommands == old(delayedCommands)[pool := queue[..|queue| - 1]]
    {
      var spots := if pool in pools then pools[pool] else 0;
      pools := pools[pool := spots + 1];
      if spots == 0 {
        InvokeDelayedJob(pool);
      }
    }

    /** The inner runner reports that the `i`th of its commands is finished. */
    method Finish(i: nat)
      requires Valid() && i < |inner|
      modifies this
      ensures Valid() && invoked == old(invoked) && finished == old(finished) + 1
      ensures Size() == old(Size()) - 1
      ensures
        var c := old(inner[i]);
        var queue := QueueOf(old(delayedCommands), c.pool);
        started == old(started) + if queue == [] then [] else [queue[|queue| - 1]]
    {
      var c := inner[i];
      RunningHasSpots(depth, pools, delayedCommands, inner, i);
      if QueueOf(delayedCommands, c.pool) == [] {
        FinishedIdle(depth, pools, delayedCommands, inner, i);
      } else {
        WaitingMeansFull(depth, pools, delayedCommands, inner, i);
        FinishedNext(depth, pools, delayedCommands, inner, started, invoked, i);
      }
      inner := inner[..i] + inner[i + 1..];
      finished := finished + 1;
      ReturnSpot(c.pool);
    }

    /** Any history of invocations and reports, in any order. */
    method Replay(operations: seq<Operation>)
      requires Valid()
      modifies this
      ensures Valid() && invoked == old(invoked) + Invocations(operations)
      ensures Size() + finished == |invoked|
    {
      for i := 0 to |operations|
        invariant Valid() && invoked == old(invoked) + Invocations(operations[..i])
      {
        assert operations[..i + 1][..i] == operations[..i];
        match operations[i]
        case Invocation(c) =>
          Invoke(c);
        case Report(k) =>
          if k < |inner| {
            Finish(k);
          }
      }
      assert operations[..|operations|] == operations;
    }

    /**
     No command is stranded: when the inner runner has nothing to do, the only commands that still
     wait are those of pools that are not declared or have no spots at all.
     */
    lemma {:induction false} NothingStranded(pool: string)
      requires Valid() && inner == [] && QueueOf(delayedCommands, pool) != []
      ensures pool !in depth || depth[pool] == 0
    {
      assert SpotsConserved(depth, pools, delayedCommands, inner, pool);
    }

    /**
     * The build waits until nothing is left. With an idle inner runner that is the case exactly if every command has no
     * pool, or one that is declared and has spots; otherwise the build waits forever.
     */
    lemma {:induction false} NothingLeft()
      requires Valid() && inner == []
      ensures Size() == 0 <==> forall c :: c in invoked ==> HasSpots(depth, c.pool)
    {
      if Size() == 0 {
        forall c | c in invoked ensures HasSpots(depth, c.pool) {
          assert InOrder(delayedCommands, started, invoked, c.pool);
          NoneWaiting(delayedCommands, c.pool);
          OfPoolIn(invoked, c, c.pool);
          OfPoolIn(started, c, c.pool);
          assert Reverse(QueueOf(delayedCommands, c.pool)) == [];
        }
      }
      if forall c :: c in invoked ==> HasSpots(depth, c.pool) {
        forall pool ensures QueueOf(delayedCommands, pool) == [] {
          if QueueOf(delayedCommands, pool) != [] {
            Waits(pool);
          }
        }
        AllEmpty(delayedCommands);
      }
    }

    /** A command that waits while the inner runner is idle was invoked for a pool without spots. */
    lemma {:induction false} Waits(pool: string)
      requires Valid() && inner == [] && QueueOf(delayedCommands, pool) != []
      ensures exists c :: c in invoked && !HasSpots(depth, c.pool)
    {
      var queue := QueueOf(delayedCommands, pool);
      NothingStranded(pool);
      assert SpotsConserved(depth, pools, delayedCommands, inner, pool);
      assert InOrder(delayedCommands, started, invoked, pool);
      ReverseLast(queue);
      var all := OfPool(invoked, pool);
      assert all[|OfPool(started, pool)|] in all;
      OfPoolIn(invoked, all[|OfPool(started, pool)|], pool);
    }

    /** At no time do more commands of a pool run than the pool has spots. */
    lemma {:induction false} DepthRespected(pool: string)
      requires Valid() && pool != ""
      ensures |OfPool(inner, pool)| <= if pool in depth then depth[pool] else 0
    {
      assert SpotsConserved(depth, pools, delayedCommands, inner, pool);
    }

    /** The commands of a pool that have started are the first ones of that pool that were invoked. */
    lemma {:induction false} StartedFirst(pool: string)
      requires Valid()
      ensures OfPool(started, pool) <= OfPool(invoked, pool)
    {
      assert InOrder(delayedCommands, started, invoked, pool);
    }
  }

  /** A step of a history: a command is invoked, or the inner runner reports on one that runs. */
  datatype Operation = Invocation(command: Command) | Report(index: nat)

  ghost function Invocations(operations: seq<Operation>): seq<Command> {
    if operations == [] then []
    else
      var rest := Invocations(operations[..|operations| - 1]);
      match operations[|operations| - 1]
      case Invocation(c) => rest + [c]
      case Report(_) => rest
  }
}
