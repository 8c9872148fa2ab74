/**
 * The interleaved machine and the sequential operations are about one program: each step of a link acts on its
 * request map as one operation of `RequestMap`, and one round of its reader is one turn of the inbound loop.
 */
module Agreement {
  import opened DigMessages
  import opened RequestMaps
  import Machine = LinkMachine
  import Loop = Inbound

  /** What one step does to the request map. */
  lemma StepActsOnTheMap(l: Machine.Link, e: Machine.Event)
    requires Machine.Enabled(l, e)
    ensures
      var t, t' := Machine.TableOf(l), Machine.TableOf(Machine.Step(l, e));
      match e
      case Insert(call) => t' == Inserted(t, call, l.calls[call].expected, Machine.Closed(l.calls))
      case CancelUnsent(call) => t' == Cancelled(t, Machine.IdOfCall(l, call))
      case CancelExpired(call) => t' == Cancelled(t, Machine.IdOfCall(l, call))
      case Frame(p) => t' == if p.message.id.Some? then Taken(t, p.message.id.value, p.message.msgType) else t
      case _ => t' == t
  {
  }

  ghost predicate SameMessages(packets: seq<Machine.Packet>, messages: seq<DigMessage>) {
    |packets| == |messages| && forall i | 0 <= i < |packets| :: packets[i].message == messages[i]
  }

  /** The loop's view of a link. */
  ghost predicate Pictures(w: Loop.World, l: Machine.Link) {
    w.table == Machine.TableOf(l) && w.listening == l.listening && SameMessages(l.queue, w.queue)
  }

  /** The reader's two steps on one frame: classify it, then hand it over or pass it on. */
  ghost function ReaderRound(l: Machine.Link, p: Machine.Packet): Machine.Link
    requires l.reader.Idle?
  {
    var seen := Machine.FrameStep(l, p);
    if seen.reader.Answering? then Machine.DeliverStep(seen) else Machine.Step(seen, Machine.Forward)
  }

  /** Both readers route every frame alike, to the same waiter or to the same queue. */
  lemma ReaderRoundIsRouted(l: Machine.Link, p: Machine.Packet, w: Loop.World)
    requires l.reader.Idle? && Pictures(w, l)
    ensures Pictures(Loop.Routed(w, p.message), ReaderRound(l, p)) && ReaderRound(l, p).reader.Idle?
    ensures var seen, fate := Machine.FrameStep(l, p), Loop.FateOf(w, p.message);
            if seen.reader.Answering? then fate == Loop.ToWaiter(seen.reader.request.sender, p.message)
            else !fate.ToWaiter?
  {
  }

  /** Both applications take the oldest message first, and both stop listening alike. */
  lemma ApplicationsAgree(l: Machine.Link, w: Loop.World)
    requires Pictures(w, l) && SameMessages(l.inbox, w.received)
    ensures Machine.Enabled(l, Machine.AppReceive) <==> w.queue != []
    ensures w.queue != [] ==>
              var l', w' := Machine.Step(l, Machine.AppReceive), Loop.Happen(w, Loop.Drained);
              Pictures(w', l') && SameMessages(l'.inbox, w'.received)
    ensures Pictures(Loop.Happen(w, Loop.HungUp), Machine.Step(l, Machine.AppClose))
  {
  }
}
