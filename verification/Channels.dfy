/** Go channels with a buffer. */
module Channels {
  import opened Basics

  class Channel<T> {
    const capacity: nat
    var buffer: seq<T>
    var closed: bool
    ghost var received: seq<T>  // everything taken out so far

    constructor (capacity: nat)
      ensures this.capacity == capacity
      ensures buffer == [] && received == [] && !closed
    {
      this.capacity := capacity;
      buffer, closed, received := [], false, [];
    }

    /** `ch <- x`. A full channel makes the sender wait and a closed one panics: callers show neither happens. */
    method Send(x: T)
      requires !closed && |buffer| < capacity
      modifies this`buffer
      ensures buffer == old(buffer) + [x]
    {
      buffer := buffer + [x];
    }

    /** `select { case ch <- x: default: }`. Panics on a closed channel, so callers show it is open. */
    method TrySend(x: T)
      requires !closed
      modifies this`buffer
      ensures buffer == if |old(buffer)| < capacity then old(buffer) + [x] else old(buffer)
    {
      if |buffer| < capacity {
        buffer := buffer + [x];
      }
    }

    /** `<-ch` on a channel with something buffered. */
    method Receive() returns (x: T)
      requires buffer != []
      modifies this`buffer, this`received
      ensures [x] + buffer == old(buffer)
      ensures received == old(received) + [x]
    {
      x := buffer[0];
      buffer, received := buffer[1..], received + [x];
    }

    /** `close(ch)`. Closing twice panics. */
    method Close()
      requires !closed
      modifies this`closed
      ensures closed
    {
      closed := true;
    }
  }
}
