/** The writing half that client-side calls with a stream of requests have in common. */
module ClientWriting {
  import opened Options
  import opened Signals

  /** What the completion of an operation means for the call. */
  datatype Outcome = Continue | Final | Lost

  class RequestWriter<Q(0)> {
    var started: bool
    var operationInProgress: bool
    var cancelled: bool
    var sentFinalRequest: bool
    var nextRequest: Option<Q>
    var enqueuedWritesDone: bool
    var enqueuedFinish: bool
    var requestStreamError: Option<string>

    /** gRPC: whether it has something to report on, and what it was given. */
    var outstanding: bool
    ghost var written: seq<Q>
    ghost var writesDone: bool
    ghost var finishing: bool

    /** The producer of requests: how many more elements it may emit, and what it has signalled. */
    ghost var demand: nat
    /** The producer is being subscribed to, and nothing has been requested of it. */
    ghost var subscribing: bool
    ghost var ended: Option<Status>
    ghost var emitted: seq<Q>
    /** It has never emitted an element that was not requested, nor signalled after its end. */
    ghost var wellBehaved: bool

    constructor ()
      ensures Valid() && !started && !cancelled && emitted == [] && wellBehaved && !subscribing
    {
      started, operationInProgress, cancelled, sentFinalRequest := false, false, false, false;
      nextRequest, enqueuedWritesDone, enqueuedFinish, requestStreamError := None, false, false, None;
      outstanding, written, writesDone, finishing := false, [], false, false;
      demand, subscribing, ended, emitted, wellBehaved := 0, false, None, [], true;
    }

    /** Holds for every producer. */
    ghost predicate Disciplined()
      reads this
    {
      && (!started ==>
            && !operationInProgress && !outstanding && nextRequest == None && ended == None
            && written == [] && emitted == [] && demand == 0 && !subscribing && wellBehaved)
      && (outstanding ==> operationInProgress)
      && (sentFinalRequest <==> finishing) && (finishing ==> operationInProgress)
    }

    /**
     * Holds for a producer that follows the protocol: elements are written in order, then the end of writing, then the
     * request for the final status.
     */
    ghost predicate Faithful()
      reads this
    {
      && Accepted(written, nextRequest) == emitted
      && demand <= (if nextRequest.Some? then 0 else 1)
      && (ended.Some? <==> enqueuedWritesDone || writesDone) && !(enqueuedWritesDone && writesDone)
      && (writesDone <==> enqueuedFinish || finishing) && !(enqueuedFinish && finishing)
      && (writesDone ==> nextRequest == None)
      && requestStreamError == (if ended.Some? && ended.value.Failed? then Some(ended.value.message) else None)
    }

    ghost predicate Invariant()
      reads this
    {
      Disciplined() && (wellBehaved ==> Faithful())
    }

    /** Nothing that could be sent is left waiting. */
    ghost predicate Settled()
      reads this
    {
      && Invariant()
      && (!operationInProgress && !cancelled ==> nextRequest == None && !enqueuedWritesDone && !enqueuedFinish)
    }

    /** How many elements the producer has been asked for: one more than were written, once it is subscribed to. */
    ghost predicate Asked()
      reads this
    {
      wellBehaved ==> demand + |emitted| == |written| + if subscribing then 0 else 1
    }

    ghost predicate Valid()
      reads this
    {
      Settled() && (started ==> Asked())
    }

    /** An operation can only be started when none is in progress, which bounds how deep calls can be nested. */
    ghost function Rank(): nat
      reads this
    {
      if operationInProgress || cancelled then 0 else 1
    }

    /** What is never taken back. */
    twostate predicate Progress()
      reads this
    {
      && old(emitted) <= emitted && old(written) <= written
      && (wellBehaved ==> old(wellBehaved) && (old(ended).Some? ==> ended == old(ended)))
      && (old(finishing) ==> finishing && written == old(written)) && (old(started) ==> started)
      && (old(cancelled) ==> cancelled)
    }

    /** An operation that is in progress stays the only one. */
    twostate predicate OneAtATime()
      reads this
    {
      if old(operationInProgress) then
        && operationInProgress && outstanding == old(outstanding)
        && sentFinalRequest == old(sentFinalRequest) && written == old(written)
      else
        operationInProgress ==> outstanding
    }

    // The contract of gRPC: one operation at a time and, if the producer keeps to the protocol, in the right order.

    method StreamWrite(request: Q)
      requires started && !outstanding && !finishing && (wellBehaved ==> !writesDone)
      modifies this`outstanding, this`written
      ensures outstanding && written == old(written) + [request]
    {
      outstanding, written := true, written + [request];
    }

    method StreamWritesDone()
      requires started && !outstanding && !finishing && (wellBehaved ==> !writesDone)
      modifies this`outstanding, this`writesDone
      ensures outstanding && writesDone
    {
      outstanding, writesDone := true, true;
    }

    method StreamFinish()
      requires started && !outstanding && !finishing && (wellBehaved ==> writesDone)
      modifies this`outstanding, this`finishing
      ensures outstanding && finishing
    {
      outstanding, finishing := true, true;
    }

    /** Makes the call. The caller goes on to subscribe to the producer. */
    method Open()
      requires Valid() && !started && !cancelled
      modifies this`operationInProgress, this`started, this`outstanding
      ensures Settled() && Progress() && started && operationInProgress && outstanding && !sentFinalRequest
      ensures demand == 0 && nextRequest == None && !subscribing
    {
      operationInProgress := true;
      started, outstanding := true, true;
    }

    method Cancel()
      requires Valid()
      modifies this`cancelled
      ensures Valid() && cancelled
    {
      cancelled := true;
    }

    method RunEnqueuedOperation()
      requires Invariant() && started && Asked()
      modifies this
      ensures Valid() && Rank() <= old(Rank()) && Progress()
      ensures subscribing == old(subscribing)
      ensures OneAtATime()
      ensures old(!operationInProgress && !cancelled && nextRequest.Some?) ==>
        old(written) + [old(nextRequest).value] <= written
      ensures old(!operationInProgress && !cancelled && nextRequest == None && enqueuedWritesDone) ==> writesDone
      ensures
        old(!operationInProgress && !cancelled && nextRequest == None && !enqueuedWritesDone && enqueuedFinish) ==>
        finishing
      ensures old(operationInProgress || cancelled) ==> unchanged(this)
      decreases Rank(), 0
    {
      if operationInProgress || cancelled {
        return;
      }
      if nextRequest.Some? {
        operationInProgress := true;
        StreamWrite(nextRequest.value);
        nextRequest := None;
        RequestOne();
      } else if enqueuedWritesDone {
        enqueuedWritesDone := false;
        enqueuedFinish := true;
        operationInProgress := true;
        StreamWritesDone();
      } else if enqueuedFinish {
        enqueuedFinish := false;
        operationInProgress := true;
        sentFinalRequest := true;
        StreamFinish();
      }
    }

    method OnNext(request: Q)
      requires Valid() && started
      modifies this
      ensures Valid() && Rank() <= old(Rank()) && Progress()
      ensures subscribing == old(subscribing)
      ensures OneAtATime()
      ensures old(emitted) + [request] <= emitted
      ensures wellBehaved ==> old(demand > 0 && ended == None)
      ensures old(nextRequest).Some? ==>
        && requestStreamError == Some("Backpressure violation") && enqueuedWritesDone
        && nextRequest == old(nextRequest) && written == old(written)
      decreases Rank(), 3
    {
      ghost var asked := demand > 0 && ended == None;
      emitted := emitted + [request];
      if asked {
        demand := demand - 1;
      }
      wellBehaved := wellBehaved && asked;
      if nextRequest.Some? {
        assert !wellBehaved;
        OnError("Backpressure violation");
      } else {
        nextRequest := Some(request);
        RunEnqueuedOperation();
      }
    }

    method OnError(message: string)
      requires Valid() && started
      modifies this
      ensures Valid() && Rank() <= old(Rank()) && Progress()
      ensures subscribing == old(subscribing)
      ensures OneAtATime()
      ensures old(emitted) <= emitted
      ensures wellBehaved ==> old(ended == None) && ended == Some(Failed(message))
      ensures old(operationInProgress || cancelled) ==>
        && requestStreamError == Some(message) && enqueuedWritesDone
        && nextRequest == old(nextRequest) && written == old(written)
      decreases Rank(), 2
    {
      wellBehaved := wellBehaved && ended == None;
      ended := Some(Failed(message));
      requestStreamError := Some(message);
      enqueuedWritesDone := true;
      RunEnqueuedOperation();
    }

    method OnComplete()
      requires Valid() && started
      modifies this
      ensures Valid() && Rank() <= old(Rank()) && Progress()
      ensures subscribing == old(subscribing)
      ensures OneAtATime()
      ensures wellBehaved ==> old(ended == None) && ended == Some(Ok)
      ensures old(operationInProgress || cancelled) ==>
        && requestStreamError == old(requestStreamError) && enqueuedWritesDone
        && nextRequest == old(nextRequest) && written == old(written)
      decreases Rank(), 2
    {
      wellBehaved := wellBehaved && ended == None;
      ended := Some(Ok);
      enqueuedWritesDone := true;
      RunEnqueuedOperation();
    }

    /** Subscribes to the producer, which may signal before the subscription is there, and requests one element. */
    method Subscribe()
      requires Settled() && started && operationInProgress && demand == 0 && nextRequest == None && !subscribing
      modifies this
      ensures Valid() && Progress() && OneAtATime() && !subscribing
    {
      subscribing := true;
      ProducerSignals();
      subscribing := false;
      RequestOne();
    }

    /** Requests one more element of the producer, which may signal before the request returns. */
    method RequestOne()
      requires Settled() && started && (wellBehaved ==> demand == 0 && nextRequest == None && !subscribing)
      modifies this
      ensures Valid() && Rank() <= old(Rank()) && Progress()
      ensures subscribing == old(subscribing)
      ensures OneAtATime()
      decreases Rank(), 5
    {
      demand := demand + 1;
      ProducerSignals();
    }

    /** Any number of signals from the producer, which may also cancel the call. */
    method ProducerSignals()
      requires Valid() && started
      modifies this
      ensures Valid() && Rank() <= old(Rank()) && Progress()
      ensures subscribing == old(subscribing)
      ensures OneAtATime()
      decreases Rank(), 4
    {
      var count: int := *;
      for i := 0 to if count > 0 then count else 0
        invariant Valid() && started && Rank() <= old(Rank()) && Progress()
        invariant subscribing == old(subscribing)
        invariant OneAtATime()
      {
        var choice: int := *;
        if choice == 0 {
          var request: Q := *;
          OnNext(request);
        } else if choice == 1 {
          OnComplete();
        } else if choice == 2 {
          Cancel();
        } else {
          var message: string := *;
          OnError(message);
        }
      }
    }

    /** gRPC reports on the outstanding operation. */
    method TagOperationDone(success: bool) returns (outcome: Outcome)
      requires Valid() && outstanding
      modifies this
      ensures Valid() && Progress()
      ensures outcome == (if old(sentFinalRequest) then Final else if success then Continue else Lost)
      ensures outcome == Continue ==> (operationInProgress ==> outstanding)
      ensures outcome != Continue ==> operationInProgress && !outstanding && cancelled == old(cancelled)
      ensures outcome != Continue ==> written == old(written) && emitted == old(emitted) && ended == old(ended)
      ensures subscribing == old(subscribing)
      ensures outcome != Continue ==> wellBehaved == old(wellBehaved) && requestStreamError == old(requestStreamError)
    {
      outstanding := false;
      if sentFinalRequest {
        return Final;
      }
      if !success {
        return Lost;
      }
      operationInProgress := false;
      RunEnqueuedOperation();
      return Continue;
    }
  }
}
