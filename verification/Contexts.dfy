/** A cancellable context.  Cancellation may strike at any moment and is final, so all that a
    program can notice of it is the first poll that reports it. */
module Contexts {
  import opened Catalog

  class Context {
    const cancelAfter: Option<nat>
    var polls: nat

    constructor (cancelAfter: Option<nat>)
      ensures this.cancelAfter == cancelAfter && polls == 0
    {
      this.cancelAfter := cancelAfter;
      polls := 0;
    }

    /** Some poll so far has reported the cancellation. */
    ghost predicate Cancelled()
      reads this
    {
      cancelAfter.Some? && cancelAfter.value < polls
    }

    /** Every poll from now on reports the cancellation. */
    ghost predicate Due()
      reads this
    {
      cancelAfter.Some? && cancelAfter.value <= polls
    }

    method Err() returns (cancelled: bool)
      modifies this
      ensures polls == old(polls) + 1
      ensures cancelled == Cancelled()
      ensures old(Cancelled()) ==> Cancelled()
    {
      polls := polls + 1;
      cancelled := cancelAfter.Some? && cancelAfter.value < polls;
    }
  }
}
