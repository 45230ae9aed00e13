/** Checking fingerprints on several threads, which share a cursor and a memo. */
module MatchesMemos {
  import opened Options

  datatype Worker = Looking | Checking(position: nat) | Stopped

  lemma {:induction false} BelowCardinality(s: set<nat>, n: nat)
    requires forall x :: x in s ==> x < n
    ensures |s| <= n
  {
    if n == 0 {
      assert s == {};
    } else {
      BelowCardinality(s - {n - 1}, n - 1);
    }
  }

  /** Every position that was claimed is written or held by the worker that claimed it, and by no other. */
  ghost predicate ClaimsKept(workers: seq<Worker>, claimedBy: seq<nat>, written: set<nat>) {
    && (forall p :: p in written ==> p < |claimedBy|)
    && (forall p :: 0 <= p < |claimedBy| && p !in written ==>
          claimedBy[p] < |workers| && workers[claimedBy[p]] == Checking(p))
    && (forall w: nat :: w < |workers| && workers[w].Checking? ==>
          var p := workers[w].position; p < |claimedBy| && claimedBy[p] == w && p !in written)
  }

  lemma {:induction false} ClaimNext(workers: seq<Worker>, claimedBy: seq<nat>, written: set<nat>, w: nat)
    requires ClaimsKept(workers, claimedBy, written) && w < |workers| && workers[w] == Looking
    ensures ClaimsKept(workers[w := Checking(|claimedBy|)], claimedBy + [w], written)
    ensures ClaimsKept(workers[w := Stopped], claimedBy, written)
  {
  }

  lemma {:induction false} WriteClaimed(workers: seq<Worker>, claimedBy: seq<nat>, written: set<nat>, w: nat)
    requires ClaimsKept(workers, claimedBy, written) && w < |workers| && workers[w].Checking?
    ensures ClaimsKept(workers[w := Looking], claimedBy, written + {workers[w].position})
  {
  }

  ghost predicate StoppedExactly(workers: seq<Worker>, stopped: set<nat>) {
    forall w: nat :: w in stopped <==> w < |workers| && workers[w] == Stopped
  }

  ghost predicate Remembered(used: seq<nat>, written: set<nat>, i: nat) {
    exists p :: p in written && p < |used| && used[p] == i
  }

  /** The memo holds the results for the positions that have been written. */
  ghost predicate MemoRight<R>(matches: seq<R>, used: seq<nat>, memo: seq<Option<R>>, written: set<nat>) {
    && |memo| == |matches|
    && forall i: nat :: i < |memo| ==> memo[i] == if Remembered(used, written, i) then Some(matches[i]) else None
  }

  lemma {:induction false} MemoNext<R>(matches: seq<R>, used: seq<nat>, memo: seq<Option<R>>, written: set<nat>, p: nat)
    requires MemoRight(matches, used, memo, written) && p < |used| && used[p] < |matches|
    ensures MemoRight(matches, used, memo[used[p] := Some(matches[used[p]])], written + {p})
  {
    var next := written + {p};
    assert p in next;
    forall i: nat | i < |memo|
      ensures Remembered(used, next, i) <==> Remembered(used, written, i) || i == used[p]
    {
      if q :| q in written && q < |used| && used[q] == i {
        assert q in next;
      }
    }
  }

  class Check<R> {
    /** The result of checking each fingerprint, and the indices of the ones that are used. */
    const matches: seq<R>
    const used: seq<nat>

    var cursor: nat
    var memo: seq<Option<R>>
    var workers: seq<Worker>

    /** Who claimed each position, which positions have been written, and which workers have stopped. */
    ghost var claimedBy: seq<nat>
    ghost var written: set<nat>
    ghost var stopped: set<nat>

    constructor (matches: seq<R>, used: seq<nat>, numThreads: nat)
      requires forall p :: 0 <= p < |used| ==> used[p] < |matches|
      ensures Valid() && this.matches == matches && this.used == used && |workers| == numThreads
      ensures forall w :: 0 <= w < |workers| ==> workers[w] == Looking
    {
      this.matches, this.used := matches, used;
      cursor := 0;
      memo := seq(|matches|, _ => None);
      workers := seq(numThreads, _ => Looking);
      claimedBy, written, stopped := [], {}, {};
    }

    ghost predicate Holds(w: nat, p: nat)
      reads this
    {
      w < |workers| && workers[w] == Checking(p)
    }

    ghost predicate Claims()
      reads this
    {
      && |claimedBy| <= |used| && cursor == |claimedBy| + |stopped|
      && (stopped != {} ==> |claimedBy| == |used|)
      && StoppedExactly(workers, stopped)
      && ClaimsKept(workers, claimedBy, written)
    }

    ghost predicate Valid()
      reads this
    {
      && (forall p :: 0 <= p < |used| ==> used[p] < |matches|)
      && Claims()
      && MemoRight(matches, used, memo, written)
    }

    /** No two workers are ever at the same position, nor at the same fingerprint if none is used twice. */
    lemma {:induction false} NoRaces(v: nat, w: nat, p: nat, q: nat)
      requires Valid() && v != w && Holds(v, p) && Holds(w, q)
      ensures p != q
      ensures (forall i, j :: 0 <= i < j < |used| ==> used[i] != used[j]) ==> used[p] != used[q]
    {
      assert claimedBy[p] == v && claimedBy[q] == w;
    }

    /** What is left to do. Each step of any worker makes it less. */
    ghost function Left(): int
      reads this
    {
      (|used| - |claimedBy|) + (|used| - |written|) + (|workers| - |stopped|)
    }

    lemma {:induction false} LeftIsNotNegative()
      requires Claims()
      ensures Left() >= 0
    {
      BelowCardinality(written, |claimedBy|);
      BelowCardinality(stopped, |workers|);
    }

    /** One step of a worker: to claim the next position, or to check and write the one that it has. */
    method Step(w: nat)
      requires Valid() && w < |workers| && workers[w] != Stopped
      modifies this
      ensures Valid() && |workers| == |old(workers)| && Left() < old(Left())
      ensures forall v :: 0 <= v < |workers| && v != w ==> workers[v] == old(workers)[v]
      ensures old(claimedBy) <= claimedBy && old(written) <= written
      ensures old(workers)[w] == Looking && old(cursor) < |used| ==>
        workers[w] == Checking(old(cursor)) && claimedBy == old(claimedBy) + [w]
      ensures old(workers)[w] == Looking && old(cursor) >= |used| ==> workers[w] == Stopped
      ensures old(workers)[w].Checking? ==>
        workers[w] == Looking && written == old(written) + {old(workers)[w].position}
    {
      match workers[w] {
        case Looking =>
          Look(w);
        case Checking(position) =>
          Write(w, position);
      }
    }

    method Look(w: nat)
      requires Valid() && w < |workers| && workers[w] == Looking
      modifies this`cursor, this`workers, this`claimedBy, this`stopped
      ensures Valid() && Left() < old(Left()) && old(claimedBy) <= claimedBy
      ensures if old(cursor) < |used| then
          workers == old(workers)[w := Checking(old(cursor))] && claimedBy == old(claimedBy) + [w]
        else
          workers == old(workers)[w := Stopped]
    {
      ClaimNext(workers, claimedBy, written, w);
      var position := cursor;
      cursor := cursor + 1;
      if position >= |used| {
        workers := workers[w := Stopped];
        stopped := stopped + {w};
      } else {
        workers := workers[w := Checking(position)];
        claimedBy := claimedBy + [w];
      }
    }

    method Write(w: nat, position: nat)
      requires Valid() && Holds(w, position)
      modifies this`memo, this`workers, this`written
      ensures Valid() && Left() < old(Left())
      ensures workers == old(workers)[w := Looking] && written == old(written) + {position}
    {
      WriteClaimed(workers, claimedBy, written, w);
      MemoNext(matches, used, memo, written, position);
      var index := used[position];
      memo := memo[index := Some(matches[index])];
      workers := workers[w := Looking];
      written := written + {position};
    }

    /** When all workers are done, the memo holds a result for exactly the fingerprints that are used. */
    lemma {:induction false} Joined()
      requires Valid() && |workers| > 0 && forall w :: 0 <= w < |workers| ==> workers[w] == Stopped
      ensures forall i: nat :: i < |memo| ==> memo[i] == if i in used then Some(matches[i]) else None
      ensures |claimedBy| == |used| && forall p :: 0 <= p < |used| ==> p in written
    {
      assert 0 in stopped;
      forall p | 0 <= p < |used|
        ensures p in written
      {
        var w := claimedBy[p];
        assert w < |workers| ==> workers[w] == Stopped;
      }
      forall i: nat | i < |memo|
        ensures Remembered(used, written, i) <==> i in used
      {
        if i in used {
          var p :| 0 <= p < |used| && used[p] == i;
          assert p in written;
        }
      }
    }
  }

  /** Any number of threads, scheduled in any way, compute the memo. */
  method ComputeFingerprintMatchesMemo<R>(matches: seq<R>, used: seq<nat>, numThreads: nat)
    returns (memo: seq<Option<R>>)
    requires numThreads > 0 && forall p :: 0 <= p < |used| ==> used[p] < |matches|
    ensures |memo| == |matches|
    ensures forall i: nat :: i < |memo| ==> memo[i] == if i in used then Some(matches[i]) else None
  {
    var check := new Check(matches, used, numThreads);
    while exists w :: 0 <= w < |check.workers| && check.workers[w] != Stopped
      invariant check.Valid() && |check.workers| == numThreads
      decreases check.Left()
    {
      var w :| 0 <= w < |check.workers| && check.workers[w] != Stopped;
      check.LeftIsNotNegative();
      check.Step(w);
      check.LeftIsNotNegative();
    }
    check.Joined();
    return check.memo;
  }
}
