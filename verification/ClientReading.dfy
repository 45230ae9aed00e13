/** The client side of a call with one request and a stream of responses. */
module ClientReading {
  import opened Options
  import opened Signals

  datatype State = Init | AwaitingRequest | ReadingResponse | Finishing | ReadFailure

  class ServerStreamingClientCall<R(0)> {
    var invoked: bool
    var cancelled: bool
    var state: State
    var requested: ElementCount

    /** gRPC: whether it has something to report on, and how many reads have been started. */
    var outstanding: bool
    ghost var started: nat

    /**
     The subscriber: how much it asked for, whether that was ever more than is counted, and what it
     was given. `delivering` holds during its callback.
     */
    ghost var delivering: bool
    ghost var asked: nat
    ghost var unbounded: bool
    ghost var delivered: seq<R>
    ghost var terminal: Option<Status>

    constructor ()
      ensures Valid() && !invoked && !cancelled && asked == 0 && !unbounded && delivered == [] && terminal == None
    {
      invoked, cancelled, state, requested, outstanding := false, false, Init, 0, false;
      started, delivering, asked, unbounded, delivered, terminal := 0, false, 0, false, [], None;
    }

    /** A read is started for each response, and one more to find the end of the stream. */
    ghost predicate Invariant()
      reads this
    {
      && state != ReadFailure
      && (!invoked ==> state == Init && !outstanding && asked == 0)
      && (invoked && !delivering ==>
            (outstanding <==> state != AwaitingRequest && terminal == None))
      && (delivering ==> invoked && state == ReadingResponse && !outstanding)
      && (terminal.Some? ==> state == Finishing)
      && started == |delivered| + (if state == Finishing || (state == ReadingResponse && !delivering) then 1 else 0)
      && Demand(unbounded, requested, asked, started)
    }

    /** Between callbacks, no response that has been asked for is left unread. */
    ghost predicate Valid()
      reads this
    {
      Invariant() && !delivering && (state == AwaitingRequest ==> requested == 0)
    }

    /** What is never taken back. Once there is a terminal signal, there are no further signals. */
    twostate predicate Progress()
      reads this
    {
      && old(delivered) <= delivered && old(asked) <= asked && (old(unbounded) ==> unbounded)
      && (old(terminal).Some? ==> terminal == old(terminal) && delivered == old(delivered))
    }

    /** The subscriber can ask for more at any time, also while it is being given a response. */
    method Request(count: ElementCount)
      requires Invariant() && (!delivering ==> Valid())
      modifies this`requested, this`asked, this`unbounded, this`invoked, this`state, this`outstanding, this`started
      ensures Invariant() && (!delivering ==> Valid())
      ensures old(asked) <= asked == old(asked) + (if cancelled then 0 else count)
      ensures unbounded == (old(unbounded) || asked - old(started) >= UNBOUNDED)
      ensures invoked <==> old(invoked) || (!cancelled && count > 0)
    {
      if cancelled {
        return;
      }
      asked := asked + count;
      unbounded := unbounded || asked - started >= UNBOUNDED;
      if !invoked {
        if count > 0 {
          requested := count;
          invoked, outstanding := true, true;
        }
      } else {
        requested := Add(requested, count);
        if state == AwaitingRequest {
          MaybeReadNext();
        }
      }
    }

    method Cancel()
      requires Invariant()
      modifies this`cancelled
      ensures Invariant() && cancelled
    {
      cancelled := true;
    }

    /** One operation at a time: no read is started before the previous one is reported on. */
    method MaybeReadNext()
      requires invoked && !outstanding && !delivering && terminal == None
      requires started == |delivered| && Demand(unbounded, requested, asked, started)
      modifies this`requested, this`state, this`outstanding, this`started
      ensures Valid() && state == if old(requested) > 0 then ReadingResponse else AwaitingRequest
    {
      if requested > 0 {
        requested := Decrement(requested);
        state := ReadingResponse;
        outstanding, started := true, started + 1;
      } else {
        state := AwaitingRequest;
      }
    }

    /** gRPC reports on the outstanding operation. */
    method TagOperationDone(success: bool, response: R, status: Status)
      requires Valid() && outstanding
      modifies this
      ensures Valid() && Progress()
      ensures delivered == if success && old(state) == ReadingResponse then old(delivered) + [response]
                           else old(delivered)
      ensures terminal == if old(state) == Finishing then Some(status) else None
      ensures old(state) == ReadingResponse && !success ==> state == Finishing
    {
      outstanding := false;
      match state {
        case Init =>
          MaybeReadNext();
        case AwaitingRequest =>
          assert false;  // the source throws a logic error
        case ReadingResponse =>
          if !success {
            state := Finishing;
            outstanding := true;
          } else {
            Deliver(response);
            MaybeReadNext();
          }
        case Finishing =>
          terminal := Some(status);
        case ReadFailure =>
          assert false;
      }
    }

    /** Gives a response to the subscriber, which may ask for more or cancel, any number of times. */
    method Deliver(response: R)
      requires invoked && state == ReadingResponse && !outstanding && !delivering && terminal == None
      requires started == |delivered| + 1 && Demand(unbounded, requested, asked, started)
      modifies this
      ensures invoked && state == ReadingResponse && !outstanding && !delivering && terminal == None
      ensures delivered == old(delivered) + [response] && old(asked) <= asked && (old(unbounded) ==> unbounded)
      ensures started == |delivered| && Demand(unbounded, requested, asked, started)
    {
      delivered := delivered + [response];
      delivering := true;
      var count: int := *;
      for i := 0 to if count > 0 then count else 0
        invariant Invariant() && delivering && terminal == None
        invariant delivered == old(delivered) + [response] && old(asked) <= asked && (old(unbounded) ==> unbounded)
      {
        SubscriberActs();
      }
      delivering := false;
    }

    method SubscriberActs()
      requires Invariant() && (!delivering ==> Valid())
      modifies this`requested, this`asked, this`unbounded, this`invoked, this`state, this`outstanding, this`started,
               this`cancelled
      ensures Invariant() && (!delivering ==> Valid()) && old(asked) <= asked && (old(unbounded) ==> unbounded)
    {
      var choice: int := *;
      if choice == 0 {
        var more: ElementCount := *;
        Request(more);
      } else {
        Cancel();
      }
    }

    /**
     * In every run, nothing is delivered that was not asked for and there is at most one terminal signal, which is
     * the last one. To find out that a stream of `n` elements has ended, the subscriber has to ask for `n + 1`, or
     * for an unbounded number: then the end is found as soon as there is nothing to wait for.
     */
    method AnyRun()
      requires Valid()
      modifies this
      ensures Valid() && Progress()
      ensures !unbounded ==> |delivered| <= asked && (terminal.Some? ==> |delivered| < asked)
      ensures !unbounded && !outstanding ==> (terminal.Some? <==> |delivered| < asked)
      ensures unbounded && !outstanding ==> terminal.Some?
      ensures asked < 0x7FFF_FFFF_FFFF_FFFF ==> !unbounded
      ensures invoked && !outstanding && terminal == None ==> state == AwaitingRequest && requested == 0
    {
      var count: int := *;
      for i := 0 to if count > 0 then count else 0
        invariant Valid() && Progress()
      {
        var choice: int := *;
        if outstanding && choice == 0 {
          var success: bool, response: R, status: Status := *, *, *;
          TagOperationDone(success, response, status);
        } else {
          SubscriberActs();
        }
      }
    }
  }
}
