/**
 * The inbound loop (`read_inbound` in src/link.rs).
 *
 * A run is a script of what happens to the link, in order: frames arriving for the reader, other tasks using
 * the request map, and the application draining its channel or hanging up.
 */
module Inbound {
  import opened Wire
  import opened DigMessages
  import opened RequestMaps
  import opened MapRuns
  import opened Channels

  datatype WsFrame = Close | Control | Text | Binary(bytes: seq<byte>) | Failed

  datatype Happening = Arrived(frame: WsFrame) | Used(op: Op) | Drained | HungUp

  /** Where a decoded message ended up. */
  datatype Fate = ToWaiter(sender: nat, message: DigMessage) | Queued(message: DigMessage) | DroppedFull(message: DigMessage) | DroppedClosed(message: DigMessage)

  datatype World = World(
    reading: bool,
    table: Table,
    queue: seq<DigMessage>,
    listening: bool,
    received: seq<DigMessage>,
    fates: seq<Fate>)

  const START: World := World(true, Table(map[], 0), [], true, [], [])

  function CorrelationOf(t: Table, m: DigMessage): Correlation {
    if m.id.Some? then Classify(t, m.id.value, m.msgType) else Unknown
  }

  function FateOf(w: World, m: DigMessage): Fate {
    match CorrelationOf(w.table, m)
    case Answer(request) => ToWaiter(request.sender, m)
    case _ =>
      match Offer(w.queue, w.listening)
      case Accepted => Queued(m)
      case Full => DroppedFull(m)
      case Disconnected => DroppedClosed(m)
  }

  /** A decoded message goes to the waiter it answers, else to the application if there is room. */
  function Routed(w: World, m: DigMessage): World {
    w.(table := if m.id.Some? then Taken(w.table, m.id.value, m.msgType) else w.table,
       queue := if FateOf(w, m).ToWaiter? then w.queue else Enqueued(w.queue, w.listening, m),
       fates := w.fates + [FateOf(w, m)])
  }

  function Read(w: World, frame: WsFrame): World {
    match frame
    case Close => w.(reading := false)
    case Failed => w.(reading := false)
    case Control => w
    case Text => w
    case Binary(bytes) => if Decode(bytes).Some? then Routed(w, Decode(bytes).value) else w
  }

  ghost function Happen(w: World, h: Happening): World {
    match h
    case Arrived(frame) => if w.reading then Read(w, frame) else w
    case Used(op) => w.(table := Apply(w.table, op))
    case Drained =>
      if w.queue != [] then w.(queue := w.queue[1..], received := w.received + [w.queue[0]]) else w
    case HungUp => w.(listening := false)
  }

  ghost function Unfold(w: World, script: seq<Happening>): World {
    if script == [] then w else Happen(Unfold(w, script[..|script| - 1]), script[|script| - 1])
  }

  ghost predicate Represents(w: World, requests: RequestMap, channel: Channel<DigMessage>)
    reads requests, channel
  {
    && requests.Valid() && requests.outstanding == 0
    && w.table == requests.Contents()
    && w.queue == channel.queue && w.listening == channel.listening
  }

  /** One frame, read off the wire and routed. */
  method Route(bytes: seq<byte>, requests: RequestMap, channel: Channel<DigMessage>, ghost w: World) returns (fate: Option<Fate>)
    requires Represents(w, requests, channel) && w.reading
    modifies requests, channel
    ensures var w' := Read(w, Binary(bytes));
            && Represents(w', requests, channel)
            && w'.fates == w.fates + if fate.Some? then [fate.value] else []
  {
    var decoded, _ := FromBytesOwned(bytes, if |bytes| < U32_MAX then U32_MAX else |bytes|);
    if decoded.None? {
      return None;
    }
    var message := decoded.value;
    if message.id.Some? {
      var c := requests.Take(message.id.value, message.msgType);
      if c.Answer? {
        requests.Release();
        return Some(ToWaiter(c.request.sender, message));
      }
    }
    var sent := channel.TryPush(message);
    match sent
    case Accepted => fate := Some(Queued(message));
    case Full => fate := Some(DroppedFull(message));
    case Disconnected => fate := Some(DroppedClosed(message));
  }

  /**
   * The loop: it ends at a close or a failed read, and at nothing else. Between frames whatever the script
   * says happens on the other tasks.
   */
  method ReadInbound(script: seq<Happening>, requests: RequestMap, channel: Channel<DigMessage>)
    returns (consumed: nat, failed: bool, fates: seq<Fate>, ghost end: World)
    requires requests.Valid() && requests.outstanding == 0
    modifies requests, channel
    ensures consumed <= |script|
    ensures end == Unfold(old(World(true, requests.Contents(), channel.queue, channel.listening, [], [])), script[..consumed])
    ensures Represents(end, requests, channel) && fates == end.fates
    ensures consumed < |script| ==> !end.reading
    ensures !end.reading <==> consumed > 0 && script[consumed - 1] in {Arrived(Close), Arrived(Failed)}
    ensures forall i | 0 <= i < consumed - 1 :: script[i] != Arrived(Close) && script[i] != Arrived(Failed)
    ensures failed <==> !end.reading && script[consumed - 1] == Arrived(Failed)
  {
    ghost var w := World(true, requests.Contents(), channel.queue, channel.listening, [], []);
    ghost var start := w;
    consumed, failed, fates := 0, false, [];
    while consumed < |script|
      invariant consumed <= |script| && !failed
      invariant w == Unfold(start, script[..consumed]) && w.reading
      invariant Represents(w, requests, channel) && fates == w.fates
      invariant forall i | 0 <= i < consumed :: script[i] != Arrived(Close) && script[i] != Arrived(Failed)
    {
      assert script[..consumed + 1][..consumed] == script[..consumed];
      var h := script[consumed];
      consumed := consumed + 1;
      match h {
        case Used(op) =>
          Perform(requests, op);
        case Drained =>
          var _ := channel.Pop();
        case HungUp =>
          channel.HangUp();
        case Arrived(frame) =>
          match frame {
            case Close =>
              end := Happen(w, h);
              return;
            case Failed =>
              failed := true;
              end := Happen(w, h);
              return;
            case Control =>
            case Text =>
            case Binary(bytes) =>
              var fate := Route(bytes, requests, channel, w);
              if fate.Some? {
                fates := fates + [fate.value];
              }
          }
      }
      w := Happen(w, h);
    }
    end := w;
  }
}
