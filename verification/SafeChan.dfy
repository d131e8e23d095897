/** The bounded error channel: `Put` drops when the buffer is full, reads never block. */
module SafeChannel {
  import opened Wrappers

  function PutInto<T>(buffer: seq<T>, size: nat, element: T): seq<T> {
    if |buffer| < size then buffer + [element] else buffer
  }

  class SafeChan<T> {
    const size: nat
    var buffer: seq<T>
    var closed: bool

    constructor (size: nat)
      ensures this.size == size && buffer == [] && !closed
    {
      this.size, buffer, closed := size, [], false;
    }

    /**
      Once the channel is closed both other cases of the select are ready: one of them drops the
      element, the other panics.
     */
    method Put(element: T) returns (panics: bool)
      modifies this`buffer
      ensures buffer == if closed then old(buffer) else PutInto(old(buffer), size, element)
      ensures panics ==> closed
    {
      panics := false;
      if closed {
        panics := *;
      } else if |buffer| < size {
        buffer := buffer + [element];
      }
    }

    /** A read of the channel in a select with a default branch. */
    method Poll() returns (element: Option<T>)
      requires !closed
      modifies this`buffer
      ensures old(buffer) == [] ==> element == None && buffer == []
      ensures old(buffer) != [] ==> element == Some(old(buffer)[0]) && buffer == old(buffer)[1..]
    {
      if buffer == [] {
        return None;
      }
      element := Some(buffer[0]);
      buffer := buffer[1..];
    }

    method Close()
      modifies this`closed
      ensures closed
    {
      closed := true;
    }
  }
}
