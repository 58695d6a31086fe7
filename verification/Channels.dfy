/** Go channels of capacity one, as the reply channels of both RPC clients use them. */
module Channels {

  datatype Channel<T> = Channel(buf: seq<T>, closed: bool)

  function Fresh<T>(): Channel<T> {
    Channel([], false)
  }

  /** A send now neither blocks nor panics. */
  predicate CanSend<T>(c: Channel<T>) {
    !c.closed && |c.buf| == 0
  }

  /** A close now does not panic. */
  predicate CanClose<T>(c: Channel<T>) {
    !c.closed
  }

  /** A receive now does not block. */
  predicate CanReceive<T>(c: Channel<T>) {
    c.buf != [] || c.closed
  }

  function Send<T>(c: Channel<T>, x: T): Channel<T> {
    c.(buf := c.buf + [x])
  }

  function Close<T>(c: Channel<T>): Channel<T> {
    c.(closed := true)
  }

  /** What a receive leaves behind. */
  function Received<T>(c: Channel<T>): Channel<T> {
    if c.buf == [] then c else c.(buf := c.buf[1..])
  }
}
