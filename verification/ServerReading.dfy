/** The server side of a call with a stream of requests and one response. */
module ServerReading {
  import opened Options
  import opened Signals

  datatype State = Init | WaitingForDataRequest | RequestedData | StreamEnded | SentResponse

  datatype Reply<+R> = Response(value: R) | Error(message: string)

  /**
   The right reply to a stream of requests, given everything that the handler responded: its error if
   there is one, also after responses, and otherwise the response if there is exactly one.
   */
  ghost predicate RightReply<R>(responses: seq<R>, error: Option<string>, reply: Reply<R>) {
    && (error.Some? ==> reply == Error(error.value))
    && (error.None? ==> (reply.Response? <==> |responses| == 1))
    && (error.None? && |responses| == 1 ==> reply == Response(responses[0]))
    && (error.None? && |responses| == 0 ==> reply == Error("No response"))
    && (error.None? && |responses| > 1 ==> reply == Error("Too many responses"))
  }

  class ClientStreamingServerCall<Q(0), R(0)> {
    var state: State
    var requested: ElementCount
    var subscribed: bool
    var response: Option<R>
    var numResponses: nat
    var responseError: Option<string>
    var finished: bool

    /** gRPC: whether it has something to report on, how many reads have been started, and what was sent. */
    var outstanding: bool
    ghost var started: nat
    ghost var sent: Option<Reply<R>>

    /**
     The handler: how much it asked for, whether that was ever more than is counted, what it was
     given, and what it responded.
     */
    ghost var delivering: bool
    ghost var asked: nat
    ghost var unbounded: bool
    ghost var delivered: seq<Q>
    ghost var completed: bool
    ghost var responses: seq<R>
    ghost var wellBehaved: bool

    constructor ()
      ensures Valid() && state == Init && outstanding && wellBehaved
      ensures asked == 0 && !unbounded && delivered == [] && !completed && responses == [] && sent == None
    {
      state, requested, subscribed, response, numResponses := Init, 0, false, None, 0;
      responseError, finished, outstanding, started, sent := None, false, true, 0, None;
      delivering, asked, unbounded, delivered, completed := false, 0, false, [], false;
      responses, wellBehaved := [], true;
    }

    ghost predicate ReaderInvariant()
      reads this
    {
      && (asked > 0 || started > 0 ==> subscribed)
      && (delivering ==> state == RequestedData && !outstanding)
      && (state == Init ==> !subscribed && !finished)
      && (completed ==> state == RequestedData || state == StreamEnded || state == SentResponse)
      && (state == StreamEnded || state == SentResponse ==> completed)
      && started == |delivered| + (if completed || (state == RequestedData && !delivering) then 1 else 0)
      && Demand(unbounded, requested, asked, started)
    }

    ghost predicate ReplyInvariant()
      reads this
    {
      && numResponses == |responses|
      && response == (if responses == [] then None else Some(responses[|responses| - 1]))
      && (sent.Some? <==> state == SentResponse)
      && (sent.Some? ==> finished)
      && (sent.Some? && wellBehaved ==> RightReply(responses, responseError, sent.value))
    }

    ghost predicate Invariant()
      reads this
    {
      ReaderInvariant() && ReplyInvariant() && (state == StreamEnded ==> !finished)
    }

    /** Between callbacks, no request that has been asked for is left unread. */
    ghost predicate Valid()
      reads this
    {
      && Invariant() && !delivering
      && (state == RequestedData ==> outstanding && !completed)
      && (outstanding ==> state == Init || state == RequestedData || state == SentResponse)
      && (state == WaitingForDataRequest ==> requested == 0)
    }

    /** What is never taken back. Once the handler is told of the end of the stream, it gets no further requests. */
    twostate predicate Progress()
      reads this
    {
      && old(delivered) <= delivered && old(asked) <= asked && old(responses) <= responses
      && (old(unbounded) ==> unbounded)
      && (old(completed) ==> completed && delivered == old(delivered))
      && (old(sent).Some? ==> sent == old(sent)) && (old(state) != Init ==> state != Init)
    }

    // The handler can do the following at any time after it was called.

    method Subscribe() returns (ok: bool)
      requires Invariant() && (!delivering ==> Valid()) && state != Init
      modifies this`subscribed
      ensures Invariant() && (!delivering ==> Valid())
      ensures subscribed && ok == !old(subscribed)
    {
      if subscribed {
        return false;  // the source throws a logic error
      }
      subscribed := true;
      return true;
    }

    method Request(count: ElementCount)
      requires Invariant() && (!delivering ==> Valid()) && state != Init && subscribed
      modifies this`requested, this`asked, this`unbounded, this`state, this`outstanding, this`started
      ensures Invariant() && (!delivering ==> Valid()) && Progress()
      ensures asked == old(asked) + count && (delivering ==> state == old(state))
      ensures unbounded == (old(unbounded) || asked - old(started) >= UNBOUNDED)
    {
      asked := asked + count;
      unbounded := unbounded || asked - started >= UNBOUNDED;
      requested := Add(requested, count);
      MaybeReadNext();
    }

    method MaybeReadNext()
      requires Invariant() && state != Init && subscribed && (delivering ==> state == RequestedData)
      requires state != WaitingForDataRequest && !delivering ==> Valid()
      requires state == WaitingForDataRequest ==> !outstanding
      modifies this`requested, this`state, this`outstanding, this`started
      ensures Invariant() && (!delivering ==> Valid())
      ensures state != old(state) ==> old(state) == WaitingForDataRequest && state == RequestedData
    {
      if requested > 0 && state == WaitingForDataRequest {
        requested := Decrement(requested);
        state := RequestedData;
        outstanding, started := true, started + 1;
      }
    }

    method OnNext(value: R)
      requires Invariant() && (!delivering ==> Valid()) && state != Init
      modifies this`response, this`numResponses, this`responses, this`wellBehaved
      ensures Invariant() && (!delivering ==> Valid()) && responses == old(responses) + [value]
      ensures wellBehaved == (old(wellBehaved) && !finished)
    {
      wellBehaved := wellBehaved && !finished;
      responses := responses + [value];
      response := Some(value);
      numResponses := numResponses + 1;
    }

    method OnError(message: string)
      requires Invariant() && (!delivering ==> Valid()) && state != Init
      modifies this`responseError, this`finished, this`state, this`outstanding, this`sent, this`wellBehaved
      ensures Invariant() && (!delivering ==> Valid()) && Progress() && finished && responseError == Some(message)
      ensures wellBehaved == (old(wellBehaved) && !old(finished))
      ensures delivering ==> state == old(state)
    {
      wellBehaved := wellBehaved && !finished;
      responseError := Some(message);
      End();
    }

    method OnComplete()
      requires Invariant() && (!delivering ==> Valid()) && state != Init
      modifies this`finished, this`state, this`outstanding, this`sent, this`wellBehaved
      ensures Invariant() && (!delivering ==> Valid()) && Progress() && finished
      ensures wellBehaved == (old(wellBehaved) && !old(finished))
      ensures delivering ==> state == old(state)
    {
      wellBehaved := wellBehaved && !finished;
      End();
    }

    /** The common part of the two ends of a response. */
    method End()
      requires Invariant() && (!delivering ==> Valid()) && state != Init
      modifies this`finished, this`state, this`outstanding, this`sent
      ensures Invariant() && (!delivering ==> Valid()) && Progress() && finished
      ensures delivering ==> state == old(state)
    {
      finished := true;
      TrySendResponse();
    }

    method TrySendResponse()
      requires ReaderInvariant() && ReplyInvariant() && (state == StreamEnded ==> !outstanding)
      modifies this`state, this`outstanding, this`sent
      ensures Invariant()
      ensures if finished && old(state) == StreamEnded then
          state == SentResponse && outstanding && sent.Some? && RightReply(responses, responseError, sent.value)
        else unchanged(this)
    {
      if finished && state == StreamEnded {
        state := SentResponse;
        outstanding := true;
        if responseError.Some? {
          sent := Some(Error(responseError.value));
        } else if numResponses == 1 {
          sent := Some(Response(response.value));
        } else {
          var message := if numResponses == 0 then "No response" else "Too many responses";
          sent := Some(Error(message));
        }
      }
    }

    /** Anything that the handler may do, whether or not it follows the protocol. */
    method HandlerActs()
      requires Invariant() && (!delivering ==> Valid()) && state != Init
      modifies this`subscribed, this`requested, this`asked, this`unbounded, this`state, this`outstanding, this`started,
               this`response, this`numResponses, this`responses, this`wellBehaved, this`responseError, this`finished,
               this`sent
      ensures Invariant() && (!delivering ==> Valid()) && Progress()
      ensures old(subscribed) ==> subscribed
    {
      var choice: int := *;
      if choice == 0 {
        var _ := Subscribe();
      } else if choice == 1 && subscribed {
        var count: ElementCount := *;
        Request(count);
      } else if choice == 2 {
        var value: R := *;
        OnNext(value);
      } else if choice == 3 {
        var message: string := *;
        OnError(message);
      } else {
        OnComplete();
      }
    }

    method HandlerActsRepeatedly()
      requires Invariant() && (!delivering ==> Valid()) && state != Init
      modifies this`subscribed, this`requested, this`asked, this`unbounded, this`state, this`outstanding, this`started,
               this`response, this`numResponses, this`responses, this`wellBehaved, this`responseError, this`finished,
               this`sent
      ensures Invariant() && (!delivering ==> Valid()) && Progress()
      ensures old(subscribed) ==> subscribed
    {
      var count: int := *;
      for i := 0 to if count > 0 then count else 0
        invariant Invariant() && (!delivering ==> Valid()) && Progress() && state != Init
        invariant old(subscribed) ==> subscribed
      {
        HandlerActs();
      }
    }

    method DeliverRequest(request: Q)
      requires state == RequestedData && ReplyInvariant() && !outstanding && !delivering && !completed && subscribed
      requires started == |delivered| + 1 && Demand(unbounded, requested, asked, started)
      modifies this
      ensures Valid() && Progress() && delivered == old(delivered) + [request] && !completed
    {
      delivering := true;
      delivered := delivered + [request];
      HandlerActsRepeatedly();
      delivering := false;
      state := WaitingForDataRequest;
      MaybeReadNext();
    }

    method DeliverEnd()
      requires state == RequestedData && ReplyInvariant() && !outstanding && !delivering && !completed && subscribed
      requires started == |delivered| + 1 && Demand(unbounded, requested, asked, started)
      modifies this
      ensures Valid() && Progress() && delivered == old(delivered) && completed
    {
      delivering := true;
      completed := true;
      HandlerActsRepeatedly();
      delivering := false;
      state := StreamEnded;
      TrySendResponse();
    }

    /** gRPC reports on the outstanding operation. */
    method TagOperationDone(success: bool, request: Q)
      requires Valid() && outstanding
      modifies this
      ensures Valid() && Progress()
      ensures delivered == if success && old(state) == RequestedData then old(delivered) + [request]
                           else old(delivered)
      ensures completed <==> old(completed) || (old(state) == RequestedData && !success)
      ensures state == Init <==> old(state) == Init && !success
    {
      outstanding := false;
      match state {
        case Init =>
          if success {
            state := WaitingForDataRequest;
            HandlerActsRepeatedly();
          }
        case WaitingForDataRequest =>
          assert false;  // the source aborts
        case RequestedData =>
          if success {
            DeliverRequest(request);
          } else {
            DeliverEnd();
          }
        case StreamEnded =>
          assert false;  // the source aborts
        case SentResponse =>
      }
    }

    /**
     * In every run, whatever the handler does, it is given no request that it did not ask for and told of the end of
     * the stream once. One reply is sent, exactly when the stream has ended and the handler has finished.
     */
    method AnyRun()
      requires Valid()
      modifies this
      ensures Valid() && Progress()
      ensures !unbounded ==> |delivered| <= asked && (completed ==> |delivered| < asked)
      ensures !unbounded && state != RequestedData ==> (completed <==> |delivered| < asked)
      ensures unbounded && state != RequestedData ==> completed
      ensures asked < 0x7FFF_FFFF_FFFF_FFFF ==> !unbounded
      ensures sent.Some? <==> completed && finished
      ensures sent.Some? && wellBehaved ==> RightReply(responses, responseError, sent.value)
    {
      var count: int := *;
      for i := 0 to if count > 0 then count else 0
        invariant Valid() && Progress()
      {
        var choice: int := *;
        if outstanding && choice == 0 {
          var success: bool, request: Q := *, *;
          TagOperationDone(success, request);
        } else if state != Init {
          HandlerActs();
        }
      }
    }
  }
}
