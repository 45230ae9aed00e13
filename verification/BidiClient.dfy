/** The client side of a call with a stream in each direction. */
module BidiClient {
  import opened ClientWriting
  import opened Options
  import opened Signals

  datatype ReaderState = AwaitingRequest | ReadingResponse | End

  class BidiClientCall<Q(0), R(0)> {
    const writer: RequestWriter<Q>
    var writerDone: bool
    var status: Status

    var readerState: ReaderState
    var requested: ElementCount
    var readerDone: bool

    /** gRPC: whether a read is outstanding, and how many have been started. */
    var reading: bool
    ghost var started: nat

    /**
     The subscriber: how much it asked for, whether that was ever more than is counted, and what it
     was given. `delivering` holds during its callback.
     */
    ghost var delivering: bool
    ghost var asked: nat
    ghost var unbounded: bool
    ghost var delivered: seq<R>
    ghost var terminal: Option<Status>

    constructor ()
      ensures Valid() && fresh(writer) && !writer.started
      ensures asked == 0 && !unbounded && delivered == [] && terminal == None
    {
      writer := new RequestWriter();
      writerDone, status, readerState, requested, readerDone := false, Ok, AwaitingRequest, 0, false;
      reading, started, delivering, asked, unbounded, delivered, terminal := false, 0, false, 0, false, [], None;
    }

    ghost predicate WriterInvariant()
      reads this, writer
    {
      && writer.Valid() && !writer.subscribing
      && (writer.operationInProgress <==> writer.outstanding || writerDone)
      && !(writer.outstanding && writerDone)
      && (writerDone ==> writer.finishing || writer.cancelled)
    }

    ghost predicate ReaderInvariant()
      reads this, writer
    {
      && (!writer.started ==> readerState == AwaitingRequest && asked == 0 && started == 0)
      && (reading <==> readerState == ReadingResponse && !delivering)
      && (delivering ==> readerState == ReadingResponse)
      && (readerDone <==> readerState == End)
      && started == |delivered| + (if reading || readerDone then 1 else 0)
      && Demand(unbounded, requested, asked, started)
    }

    /** What the subscriber is told at the end. */
    ghost function Verdict(): Status
      reads this, writer
    {
      if status.Failed? then status
      else if writer.requestStreamError.Some? then Failed(writer.requestStreamError.value)
      else Ok
    }

    ghost predicate TerminalInvariant()
      reads this, writer
    {
      && (terminal.Some? ==> writerDone && readerDone && writer.finishing)
      && (terminal.Some? && writer.wellBehaved ==> terminal.value == Verdict())
      && (writerDone && readerDone ==> terminal.Some? || writer.cancelled)
    }

    ghost predicate Invariant()
      reads this, writer
    {
      WriterInvariant() && ReaderInvariant() && TerminalInvariant()
    }

    /** Between callbacks, no response that has been asked for is left unread. */
    ghost predicate Valid()
      reads this, writer
    {
      Invariant() && !delivering && (readerState == AwaitingRequest ==> requested == 0)
    }

    /** What is never taken back. Once there is a terminal signal, there are no further signals. */
    twostate predicate Progress()
      reads this, writer
    {
      && writer.Progress()
      && old(delivered) <= delivered && old(asked) <= asked && (old(unbounded) ==> unbounded)
      && (old(terminal).Some? ==> terminal == old(terminal) && delivered == old(delivered))
    }

    method StreamRead()
      requires writer.started && !reading && readerState != End
      modifies this`reading, this`started
      ensures reading && started == old(started) + 1
    {
      reading, started := true, started + 1;
    }

    method ReaderRequest(count: ElementCount)
      requires ReaderInvariant() && writer.started
      modifies this`requested, this`asked, this`unbounded, this`readerState, this`reading, this`started
      ensures ReaderInvariant() && asked == old(asked) + count
      ensures unbounded == (old(unbounded) || asked - old(started) >= UNBOUNDED)
      ensures readerState == AwaitingRequest ==> requested == 0
      ensures old(readerState) != AwaitingRequest ==> readerState == old(readerState)
    {
      asked := asked + count;
      unbounded := unbounded || asked - started >= UNBOUNDED;
      requested := Add(requested, count);
      if readerState == AwaitingRequest {
        if requested > 0 {
          requested := Decrement(requested);
          readerState := ReadingResponse;
          StreamRead();
        }
      }
    }

    /** The subscriber can ask for more at any time, also while it is being given a response. */
    method Request(count: ElementCount)
      requires Invariant() && (!delivering ==> Valid()) && (delivering ==> writer.started)
      modifies this`requested, this`asked, this`unbounded, this`readerState, this`reading, this`started, writer
      ensures Invariant() && (!delivering ==> Valid()) && Progress()
      ensures delivering ==> readerState == old(readerState) && writer.started
      ensures asked == old(asked) + (if old(writer.cancelled) then 0 else count)
      ensures unbounded == (old(unbounded) || asked - old(started) >= UNBOUNDED)
      ensures writer.started <==> old(writer.started) || (!old(writer.cancelled) && count > 0)
    {
      if writer.cancelled {
        return;
      }
      if !writer.started {
        if count > 0 {
          writer.Open();
          ReaderRequest(count);
          writer.Subscribe();
        }
      } else {
        ReaderRequest(count);
      }
    }

    method Cancel()
      requires Invariant()
      modifies writer`cancelled
      ensures Invariant() && writer.cancelled
    {
      writer.Cancel();
    }

    method ProducerSignals()
      requires Invariant() && writer.started
      modifies writer
      ensures Invariant() && writer.started && Progress()
    {
      writer.ProducerSignals();
    }

    method TryShutdown()
      requires WriterInvariant() && ReaderInvariant() && !delivering && terminal == None
      modifies this`terminal
      ensures Invariant() && (terminal.Some? <==> writerDone && readerDone && !writer.cancelled)
      ensures terminal.Some? ==> terminal.value == Verdict()
    {
      if writerDone && readerDone {
        if !writer.cancelled {
          if status.Failed? {
            terminal := Some(status);
          } else if writer.requestStreamError.Some? {
            terminal := Some(Failed(writer.requestStreamError.value));
          } else {
            terminal := Some(Ok);
          }
        }
      }
    }

    /** gRPC reports on an operation of the writer. With the last one comes the status of the call. */
    method TagOperationDone(success: bool, finalStatus: Status)
      requires Valid() && writer.outstanding
      modifies this`writerDone, this`status, this`terminal, writer
      ensures Valid() && Progress()
      ensures old(writer.sentFinalRequest) ==> writerDone && status == finalStatus
      ensures !old(writer.sentFinalRequest) && success ==> writerDone == old(writerDone)
      ensures !old(writer.sentFinalRequest) && !success ==> writerDone && writer.cancelled
    {
      var outcome := writer.TagOperationDone(success);
      match outcome {
        case Final =>
          writerDone, status := true, finalStatus;
          TryShutdown();
        case Lost =>
          writerDone := true;
          writer.cancelled := true;
          TryShutdown();
        case Continue =>
      }
    }

    /** gRPC reports on the outstanding read. */
    method AlternateTagOperationDone(success: bool, response: R)
      requires Valid() && reading
      modifies this, writer
      ensures Valid() && Progress()
      ensures delivered == if success && old(writer.requestStreamError) == None then old(delivered) + [response]
                           else old(delivered)
      ensures readerDone <==> !success || old(writer.requestStreamError).Some?
    {
      reading := false;
      if !success || writer.requestStreamError.Some? {
        readerState := End;
        readerDone := true;
        TryShutdown();
      } else {
        Deliver(response);
        readerState := AwaitingRequest;
        ReaderRequest(0);
      }
    }

    /** Gives a response to the subscriber, which may call back, and whose callback may make the producer emit. */
    method Deliver(response: R)
      requires WriterInvariant() && TerminalInvariant() && writer.started
      requires readerState == ReadingResponse && !reading && !delivering && !readerDone
      requires started == |delivered| + 1 && Demand(unbounded, requested, asked, started)
      modifies this`delivered, this`delivering, this`requested, this`asked, this`unbounded, this`readerState,
               this`reading, this`started, writer
      ensures WriterInvariant() && TerminalInvariant() && writer.started && writer.Progress() && old(asked) <= asked
      ensures old(unbounded) ==> unbounded
      ensures readerState == ReadingResponse && !reading && !delivering && delivered == old(delivered) + [response]
      ensures started == |delivered| && Demand(unbounded, requested, asked, started)
    {
      delivered := delivered + [response];
      delivering := true;
      var count: int := *;
      for i := 0 to if count > 0 then count else 0
        invariant Invariant() && delivering && writer.started && delivered == old(delivered) + [response]
        invariant writer.Progress() && old(asked) <= asked && (old(unbounded) ==> unbounded)
      {
        SubscriberActs();
      }
      delivering := false;
    }

    /** Anything that the subscriber and the producer may do on their own. */
    method SubscriberActs()
      requires Invariant() && (!delivering ==> Valid()) && (delivering ==> writer.started)
      modifies this`requested, this`asked, this`unbounded, this`readerState, this`reading, this`started, writer
      ensures Invariant() && (!delivering ==> Valid()) && (delivering ==> writer.started) && Progress()
    {
      var choice: int := *;
      if choice == 0 {
        var more: ElementCount := *;
        Request(more);
      } else if choice == 1 {
        Cancel();
      } else if writer.started {
        ProducerSignals();
      }
    }

    /**
     * In every run, nothing is delivered that was not asked for, every request that a producer emitted by the protocol
     * is written in order, and the call ends once, when both directions are done.
     */
    method AnyRun()
      requires Valid()
      modifies this, writer
      ensures Valid() && Progress()
      ensures !unbounded ==> |delivered| <= asked && (terminal.Some? ==> |delivered| < asked)
      ensures !unbounded && !reading ==> (readerDone <==> |delivered| < asked)
      ensures unbounded && !reading ==> readerDone
      ensures asked < 0x7FFF_FFFF_FFFF_FFFF ==> !unbounded
      ensures writer.wellBehaved ==> writer.written <= writer.emitted
      ensures writer.wellBehaved && writer.started ==> writer.demand + |writer.emitted| == |writer.written| + 1
      ensures terminal == Some(Ok) && writer.wellBehaved ==>
        writer.written == writer.emitted && writer.ended == Some(Ok)
      ensures terminal.Some? && terminal.value.Failed? && writer.wellBehaved ==>
        status == terminal.value || writer.ended == terminal
      ensures writerDone && readerDone && !writer.cancelled ==> terminal.Some?
      ensures writer.wellBehaved && writer.started && !writer.outstanding && !writerDone && !writer.cancelled ==>
        writer.written == writer.emitted && writer.ended == None
    {
      var count: int := *;
      for i := 0 to if count > 0 then count else 0
        invariant Valid() && Progress()
      {
        var choice: int := *;
        var success: bool := *;
        if writer.outstanding && choice == 0 {
          var finalStatus: Status := *;
          TagOperationDone(success, finalStatus);
        } else if reading && choice == 1 {
          var response: R := *;
          AlternateTagOperationDone(success, response);
        } else {
          SubscriberActs();
        }
      }
    }
  }
}
