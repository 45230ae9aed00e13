/** A server-side call with a stream of responses. */
module ServerStreaming {
  import opened Options
  import opened Signals

  datatype State = AwaitingRequest | AwaitingResponse | SendingResponse | SentFinalResponse

  class ServerStreamingCall<T(0)> {
    var state: State
    var enqueuedFinish: bool
    var enqueuedFinishStatus: Status
    var nextResponse: Option<T>

    /** Whether gRPC has an operation to report on, and what was handed to it: elements, then the status. */
    var outstanding: bool
    ghost var written: seq<T>
    ghost var finish: Option<Status>

    /** What the producer of responses has signalled, and how many more elements were requested of it. */
    ghost var emitted: seq<T>
    ghost var ended: Option<Status>
    ghost var demand: nat
    /** The producer is being subscribed to, and nothing has been requested of it. */
    ghost var subscribing: bool
    /** The producer has never emitted an element that was not requested, nor signalled after its end. */
    ghost var wellBehaved: bool

    constructor ()
      ensures Valid() && state == AwaitingRequest && outstanding && wellBehaved
      ensures written == emitted == [] && finish == ended == None && demand == 0 && !subscribing
    {
      state, enqueuedFinish, enqueuedFinishStatus, nextResponse := AwaitingRequest, false, Ok, None;
      outstanding, written, finish := true, [], None;
      emitted, ended, demand, subscribing, wellBehaved := [], None, 0, false, true;
    }

    /** Holds for every producer. */
    ghost predicate Disciplined()
      reads this
    {
      && (state == AwaitingResponse ==> !outstanding)
      && (finish.Some? <==> state == SentFinalResponse)
      && (state == AwaitingRequest ==>
            && written == [] && nextResponse == None && !enqueuedFinish
            && emitted == [] && demand == 0 && ended == None)
    }

    /** Holds for a producer that follows the protocol: nothing is lost, repeated, reordered or dropped. */
    ghost predicate Faithful()
      reads this
    {
      && Accepted(written, nextResponse) == emitted
      && demand <= (if nextResponse.Some? then 0 else 1)
      && ended == (if enqueuedFinish then Some(enqueuedFinishStatus) else finish)
      && (finish.Some? ==> !enqueuedFinish && nextResponse == None)
    }

    ghost predicate Invariant()
      reads this
    {
      Disciplined() && (wellBehaved ==> Faithful())
    }

    /** Nothing that could be sent is left waiting. */
    ghost predicate Settled()
      reads this
    {
      Invariant() && (state == AwaitingResponse ==> nextResponse == None && !enqueuedFinish)
    }

    /** How many elements the producer has been asked for: one more than were written, once it is subscribed to. */
    ghost predicate Asked()
      reads this
    {
      wellBehaved ==> demand + |emitted| == |written| + if subscribing then 0 else 1
    }

    ghost predicate Valid()
      reads this
    {
      Settled() && (state != AwaitingRequest ==> Asked()) && (state == AwaitingRequest ==> !subscribing)
    }

    /** An operation can only be started in one state, which bounds how deep calls can be nested. */
    ghost function Rank(): nat
      reads this
    {
      if state == AwaitingResponse then 1 else 0
    }

    /** gRPC takes one operation at a time, and none after the end of the stream. */
    method StreamWrite(response: T)
      requires !outstanding && finish == None
      modifies this`outstanding, this`written
      ensures outstanding && written == old(written) + [response]
    {
      outstanding, written := true, written + [response];
    }

    method StreamFinish(status: Status)
      requires !outstanding && finish == None
      modifies this`outstanding, this`finish
      ensures outstanding && finish == Some(status)
    {
      outstanding, finish := true, Some(status);
    }

    /** What is never taken back. */
    twostate predicate Progress()
      reads this
    {
      && old(emitted) <= emitted && old(written) <= written
      && (old(finish).Some? ==> finish == old(finish))
      && (wellBehaved ==> old(wellBehaved) && (old(ended).Some? ==> ended == old(ended)))
    }

    method OnNext(response: T)
      requires Valid() && state != AwaitingRequest
      modifies this
      ensures Valid() && state != AwaitingRequest && Rank() <= old(Rank())
      ensures Progress() && subscribing == old(subscribing)
      ensures old(emitted) + [response] <= emitted
      ensures wellBehaved ==> old(demand > 0 && ended == None)
      ensures old(nextResponse).Some? ==>
        && nextResponse == None && written == old(written)
        && enqueuedFinish && enqueuedFinishStatus == Failed("Backpressure violation")
      decreases Rank(), 3
    {
      ghost var asked := demand > 0 && ended == None;
      emitted := emitted + [response];
      if asked {
        demand := demand - 1;
      }
      wellBehaved := wellBehaved && asked;
      if nextResponse.Some? {
        assert !wellBehaved;
        nextResponse := None;
        EnqueueFinish(Failed("Backpressure violation"));
      } else {
        nextResponse := Some(response);
        RunEnqueuedOperation();
      }
    }

    method OnError(error: string)
      requires Valid() && state != AwaitingRequest
      modifies this
      ensures Valid() && state != AwaitingRequest && Rank() <= old(Rank())
      ensures Progress() && subscribing == old(subscribing)
      ensures wellBehaved ==> old(ended == None) && ended == Some(Failed(error))
      ensures old(state) != AwaitingResponse ==> enqueuedFinish && enqueuedFinishStatus == Failed(error)
      decreases Rank(), 3
    {
      wellBehaved := wellBehaved && ended == None;
      ended := Some(Failed(error));
      EnqueueFinish(Failed(error));
    }

    method OnComplete()
      requires Valid() && state != AwaitingRequest
      modifies this
      ensures Valid() && state != AwaitingRequest && Rank() <= old(Rank())
      ensures Progress() && subscribing == old(subscribing)
      ensures wellBehaved ==> old(ended == None) && ended == Some(Ok)
      ensures old(state) != AwaitingResponse ==> enqueuedFinish && enqueuedFinishStatus == Ok
      decreases Rank(), 3
    {
      wellBehaved := wellBehaved && ended == None;
      ended := Some(Ok);
      EnqueueFinish(Ok);
    }

    /** The common part of the two ends of a stream. */
    method EnqueueFinish(status: Status)
      requires Disciplined() && Asked() && state != AwaitingRequest
      requires state == AwaitingResponse ==> nextResponse == None
      requires wellBehaved ==>
        && Accepted(written, nextResponse) == emitted
        && finish == None && ended == Some(status)
      modifies this
      ensures Valid() && state != AwaitingRequest && Rank() <= old(Rank())
      ensures Progress() && subscribing == old(subscribing)
      ensures old(state) != AwaitingResponse ==>
        && nextResponse == old(nextResponse) && written == old(written)
        && enqueuedFinish && enqueuedFinishStatus == status
      decreases Rank(), 2
    {
      enqueuedFinishStatus := status;
      enqueuedFinish := true;
      RunEnqueuedOperation();
    }

    method RunEnqueuedOperation()
      requires Invariant() && Asked() && state != AwaitingRequest
      modifies this
      ensures Valid() && state != AwaitingRequest && Rank() <= old(Rank())
      ensures Progress() && subscribing == old(subscribing)
      ensures old(state) == AwaitingResponse && old(nextResponse).Some? ==>
        old(written) + [old(nextResponse).value] <= written
      ensures old(state) == AwaitingResponse && old(nextResponse) == None && old(enqueuedFinish) ==>
        finish == Some(old(enqueuedFinishStatus))
      ensures old(state) != AwaitingResponse ==> unchanged(this)
      decreases Rank(), 1
    {
      if state != AwaitingResponse {
        return;
      }
      if nextResponse.Some? {
        state := SendingResponse;
        StreamWrite(nextResponse.value);
        nextResponse := None;
        RequestOne();
      } else if enqueuedFinish {
        enqueuedFinish := false;
        state := SentFinalResponse;
        StreamFinish(enqueuedFinishStatus);
      }
    }

    /** Subscribes to the producer, which may signal before the subscription is there. */
    method Subscribe()
      requires Settled() && state == AwaitingResponse && !subscribing
      requires wellBehaved ==> demand == 0 && nextResponse == None
      modifies this
      ensures Settled() && state != AwaitingRequest && Progress() && !subscribing
      ensures wellBehaved ==> demand == 0 && nextResponse == None
    {
      subscribing := true;
      ProducerSignals();
      subscribing := false;
    }

    /** Requests one more element of the producer, which may signal before the request returns. */
    method RequestOne()
      requires Settled() && state != AwaitingRequest
      requires wellBehaved ==> demand == 0 && nextResponse == None && !subscribing
      modifies this
      ensures Valid() && state != AwaitingRequest && Rank() <= old(Rank())
      ensures Progress() && subscribing == old(subscribing)
      decreases Rank(), 5
    {
      demand := demand + 1;
      ProducerSignals();
    }

    /** Any number of signals from the producer. */
    method ProducerSignals()
      requires Valid() && state != AwaitingRequest
      modifies this
      ensures Valid() && state != AwaitingRequest && Rank() <= old(Rank())
      ensures Progress() && subscribing == old(subscribing)
      decreases Rank(), 4
    {
      var count: int := *;
      ghost var rank := Rank();
      for i := 0 to if count > 0 then count else 0
        invariant Valid() && state != AwaitingRequest && Rank() <= rank && Progress() && subscribing == old(subscribing)
      {
        var choice: int := *;
        if choice == 0 {
          var response: T := *;
          OnNext(response);
        } else if choice == 1 {
          OnComplete();
        } else {
          var error: string := *;
          OnError(error);
        }
      }
    }

    /** gRPC reports on the outstanding operation. */
    method TagOperationDone(success: bool)
      requires Valid() && outstanding && !subscribing
      modifies this
      ensures Valid() && Progress() && !subscribing
      ensures state == AwaitingRequest <==> old(state) == AwaitingRequest && !success
      ensures !success ==> state == old(state) && written == old(written) && finish == old(finish)
      ensures success && old(state) == SendingResponse && old(nextResponse).Some? ==>
        old(written) + [old(nextResponse).value] <= written
      ensures success && old(state) == SendingResponse && old(nextResponse) == None && old(enqueuedFinish) ==>
        finish == Some(old(enqueuedFinishStatus))
    {
      outstanding := false;
      if !success {
        return;
      }
      match state
      case AwaitingRequest =>
        state := AwaitingResponse;
        Subscribe();
        RequestOne();
      case AwaitingResponse =>
        assert false;
      case SendingResponse =>
        state := AwaitingResponse;
        RunEnqueuedOperation();
      case SentFinalResponse =>
    }

    /**
     A run in which the producer and gRPC act in any order. If the producer follows the protocol,
     its elements are written in order with at most one left to write, and the stream is finished
     only when all are written, with the status that the producer ended with.
     */
    method AnyRun(steps: nat)
      requires Valid() && !subscribing
      modifies this
      ensures Valid() && Progress() && !subscribing
      ensures wellBehaved && state != AwaitingRequest ==> demand + |emitted| == |written| + 1
      ensures wellBehaved ==> written <= emitted && |emitted| <= |written| + 1
      ensures wellBehaved && finish.Some? ==> written == emitted && finish == ended
      ensures wellBehaved && state == AwaitingResponse ==> written == emitted && ended == None
    {
      for i := 0 to steps
        invariant Valid() && Progress() && !subscribing
      {
        var producer: bool := *;
        if producer {
          if state != AwaitingRequest {
            ProducerSignals();
          }
        } else if outstanding {
          var success: bool := *;
          TagOperationDone(success);
        }
      }
    }
  }
}
