/** The client side of a call with a stream of requests and one response. */
module ClientStreaming {
  import opened ClientWriting
  import opened Options
  import opened Signals

  class ClientStreamingClientCall<Q(0), R(0)> {
    const writer: RequestWriter<Q>

    /** Whether gRPC has nothing further to report. */
    ghost var done: bool

    ghost var asked: nat
    ghost var delivered: seq<R>
    ghost var terminal: Option<Status>

    constructor ()
      ensures Valid() && fresh(writer) && !writer.started
      ensures asked == 0 && delivered == [] && terminal == None
    {
      writer := new RequestWriter();
      done, asked, delivered, terminal := false, 0, [], None;
    }

    /** The response comes together with the end, after all requests have been written. */
    ghost predicate Valid()
      reads this, writer
    {
      && writer.Valid() && !writer.subscribing
      && (writer.operationInProgress <==> writer.outstanding || done) && !(writer.outstanding && done)
      && (writer.started ==> asked > 0)
      && (terminal.Some? ==> done && writer.finishing)
      && (terminal == Some(Ok) && writer.wellBehaved ==> writer.requestStreamError == None)
      && |delivered| == (if terminal == Some(Ok) then 1 else 0)
    }

    twostate predicate Progress()
      reads this, writer
    {
      && writer.Progress()
      && old(delivered) <= delivered && old(asked) <= asked
      && (old(terminal).Some? ==> terminal == old(terminal) && delivered == old(delivered))
    }

    method Request(count: ElementCount)
      requires Valid()
      modifies this`asked, writer
      ensures Valid() && Progress() && asked == old(asked) + (if old(writer.cancelled) then 0 else count)
      ensures writer.started <==> old(writer.started) || (!old(writer.cancelled) && count > 0)
    {
      if writer.cancelled {
        return;
      }
      asked := asked + count;
      if !writer.started && count > 0 {
        writer.Open();
        writer.Subscribe();
      }
    }

    /** gRPC reports on an operation. With the last one come the status of the call and the response. */
    method TagOperationDone(success: bool, status: Status, response: R)
      requires Valid() && writer.outstanding
      modifies this`done, this`delivered, this`terminal, writer
      ensures Valid() && Progress()
      ensures terminal ==
        if !old(writer.sentFinalRequest) || old(writer.cancelled) then None
        else if old(writer.requestStreamError).Some? then Some(Failed(old(writer.requestStreamError).value))
        else if success then Some(status)
        else None
      ensures delivered == if terminal == Some(Ok) then [response] else []
    {
      var outcome := writer.TagOperationDone(success);
      match outcome {
        case Final =>
          done := true;
          if writer.cancelled {
          } else if writer.requestStreamError.Some? {
            terminal := Some(Failed(writer.requestStreamError.value));
          } else {
            HandleUnaryResponse(success, status, response);
          }
        case Lost =>
          done := true;
          if !writer.cancelled {
            HandleUnaryResponse(success, status, response);
          }
        case Continue =>
      }
    }

    method HandleUnaryResponse(success: bool, status: Status, response: R)
      requires delivered == [] && terminal == None
      modifies this`delivered, this`terminal
      ensures terminal == if success then Some(status) else None
      ensures delivered == if terminal == Some(Ok) then [response] else []
    {
      if !success {
      } else if status.Ok? {
        delivered := delivered + [response];
        terminal := Some(Ok);
      } else {
        terminal := Some(status);
      }
    }

    /** In every run, there is at most one terminal signal, and it is a success only after everything was written. */
    method AnyRun()
      requires Valid()
      modifies this, writer
      ensures Valid() && Progress()
      ensures |delivered| <= asked && |delivered| <= 1
      ensures terminal == Some(Ok) ==> |delivered| == 1
      ensures writer.wellBehaved ==> writer.written <= writer.emitted
      ensures writer.wellBehaved && writer.started ==> writer.demand + |writer.emitted| == |writer.written| + 1
      ensures terminal == Some(Ok) && writer.wellBehaved ==>
        writer.written == writer.emitted && writer.ended == Some(Ok)
      ensures writer.wellBehaved && writer.started && !writer.outstanding && !done && !writer.cancelled ==>
        writer.written == writer.emitted && writer.ended == None
    {
      var count: int := *;
      for i := 0 to if count > 0 then count else 0
        invariant Valid() && Progress()
      {
        var choice: int := *;
        if writer.outstanding && choice == 0 {
          var success: bool, status: Status, response: R := *, *, *;
          TagOperationDone(success, status, response);
        } else if choice == 1 {
          var more: ElementCount := *;
          Request(more);
        } else if choice == 2 {
          writer.Cancel();
        } else if writer.started {
          writer.ProducerSignals();
        }
      }
    }
  }
}
