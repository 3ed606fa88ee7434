/**
 * A Go buffered channel (`make(chan T, cap)`) as seen by one goroutine: a FIFO queue
 * whose capacity is fixed when it is made. A send on a full channel and a receive on an
 * empty one block forever in a single-threaded program, so both are preconditions here.
 */
module Channels {

  class Channel<T> {
    /** The values sent and not yet received, oldest first; `len(ch)` is `|buf|`. */
    var buf: seq<T>
    /** `cap(ch)`. */
    const cap: nat

    ghost predicate Valid()
      reads this
    {
      |buf| <= cap
    }

    /** `make(chan T, cap)`. */
    constructor (cap: nat)
      ensures Valid() && this.cap == cap && buf == []
    {
      this.cap := cap;
      buf := [];
    }

    /** `ch <- x` */
    method Send(x: T)
      requires Valid() && |buf| < cap
      modifies this
      ensures Valid() && buf == old(buf) + [x]
    {
      buf := buf + [x];
    }

    /** `<-ch` */
    method Receive() returns (x: T)
      requires Valid() && buf != []
      modifies this
      ensures Valid() && x == old(buf)[0] && buf == old(buf)[1..]
    {
      x := buf[0];
      buf := buf[1..];
    }
  }
}
