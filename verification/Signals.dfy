/** What the models of gRPC calls have in common. */
module Signals {
  import opened Options

  datatype Status = Ok | Failed(message: string)

  /** The elements in `done`, followed by the one that is waiting, if any. */
  ghost function Accepted<T>(done: seq<T>, waiting: Option<T>): seq<T> {
    match waiting
    case None => done
    case Some(x) => done + [x]
  }

  /** The largest element count, which stands for an unbounded number. */
  const UNBOUNDED := 0x7FFF_FFFF_FFFF_FFFF

  type ElementCount = n: int | 0 <= n <= UNBOUNDED

  function Add(a: ElementCount, b: ElementCount): ElementCount {
    if a > UNBOUNDED - b then UNBOUNDED else a + b
  }

  function Decrement(a: ElementCount): ElementCount
    requires a > 0
  {
    if a == UNBOUNDED then a else a - 1
  }

  /**
   What is still to be read, after `asked` elements were asked for and `started` reads were started:
   the difference, unless as many as UNBOUNDED were to be read at some moment, and without end from then on.
   */
  ghost predicate Demand(unbounded: bool, requested: ElementCount, asked: nat, started: nat) {
    if unbounded then requested == UNBOUNDED <= asked
    else requested == asked - started < UNBOUNDED
  }
}
