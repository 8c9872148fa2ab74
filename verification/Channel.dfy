/** The bounded channel from the reader to the application (src/link.rs). */
module Channels {
  import opened Wire

  /** How many inbound messages may wait for the application. */
  const INBOUND_CHANNEL_CAPACITY: nat := 32

  datatype TrySend = Accepted | Full | Disconnected

  function Offer<T>(queue: seq<T>, listening: bool): TrySend {
    if !listening then Disconnected else if |queue| >= INBOUND_CHANNEL_CAPACITY then Full else Accepted
  }

  /** Delivery to the application never waits: a message that does not fit is dropped. */
  function Enqueued<T>(queue: seq<T>, listening: bool, message: T): seq<T> {
    if Offer(queue, listening) == Accepted then queue + [message] else queue
  }

  class Channel<T> {
    var queue: seq<T>
    var listening: bool

    constructor ()
      ensures queue == [] && listening
    {
      queue, listening := [], true;
    }

    method TryPush(message: T) returns (r: TrySend)
      modifies this
      ensures r == Offer(old(queue), old(listening))
      ensures queue == Enqueued(old(queue), old(listening), message) && listening == old(listening)
    {
      if !listening {
        return Disconnected;
      }
      if |queue| >= INBOUND_CHANNEL_CAPACITY {
        return Full;
      }
      queue := queue + [message];
      r := Accepted;
    }

    /** The application's side: the oldest message, if there is one. What was queued before it closed its end can still be taken. */
    method Pop() returns (message: Option<T>)
      modifies this
      ensures listening == old(listening)
      ensures if old(queue) != []
              then message == Some(old(queue)[0]) && queue == old(queue)[1..]
              else message == None && queue == old(queue)
    {
      if queue == [] {
        return None;
      }
      message := Some(queue[0]);
      queue := queue[1..];
    }

    /** The application closes its end; one that drops it altogether just takes no more. */
    method HangUp()
      modifies this
      ensures !listening && queue == old(queue)
    {
      listening := false;
    }
  }
}
