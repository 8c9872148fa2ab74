/**
 * What travels between two facing links: every frame is exactly what some caller or application sent, frames arrive once
 * each and in order, and a completed call has the peer's answer to exactly what it asked (src/link.rs).
 */
module Provenance {
  import opened Wire
  import opened DigMessages
  import opened RequestMaps
  import opened LinkMachine
  import opened LinkTheorems
  import opened FacingLinks

  // ---------------------------------------------------------------------------------------------
  // Calls are what was asked for
  // ---------------------------------------------------------------------------------------------

  /** The requests the callers at `s` have made in the first `n` events, in order. */
  function Starts(events: seq<NetEvent>, n: nat, s: Side): seq<Event>
    requires n <= |events|
  {
    if n == 0 then [] else
    var e := events[n - 1];
    Starts(events, n - 1, s) + if e.Local? && e.side == s && e.event.Start? then [e.event] else []
  }

  /** The calls of a link are the requests made on it. */
  ghost predicate CallsAre(l: Link, starts: seq<Event>) {
    && |l.calls| == |starts|
    && forall t: nat | t < |starts| ::
         starts[t] == Start(l.calls[t].opcode, l.calls[t].data, l.calls[t].expected)
  }

  lemma StepKeepsCalls(l: Link, e: Event, starts: seq<Event>)
    requires Inv(l) && Enabled(l, e) && CallsAre(l, starts)
    ensures CallsAre(Step(l, e), starts + if e.Start? then [e] else [])
  {
    NoNewCalls(l, e);
    forall t: nat | t < |starts|
      ensures Settled(l.calls[t], Step(l, e).calls[t])
    {
      StepSettles(l, e, t);
    }
  }

  lemma {:induction false} CallsAreStarts(nets: seq<Net>, events: seq<NetEvent>, replies: set<byte>, i: nat, s: Side)
    requires IsNetRun(nets, events, replies) && i < |nets|
    ensures CallsAre(nets[i].At(s), Starts(events, i, s))
  {
    if i > 0 {
      CallsAreStarts(nets, events, replies, i - 1, s);
      NetRunKeepsInv(nets, events, replies, i - 1);
      var e := events[i - 1];
      if e.side == s {
        StepKeepsCalls(nets[i - 1].At(s), if e.Local? then e.event else Frame(nets[i - 1].To(s)[0]), Starts(events, i - 1, s));
      }
    }
  }

  // ---------------------------------------------------------------------------------------------
  // Frames are what was sent, once each and in order
  // ---------------------------------------------------------------------------------------------

  /** `p` is what the event makes the link `l` put on the wire: a call's request, an answer to a received one, or neither. */
  ghost predicate MadeBy(l: Link, e: Event, p: Packet) {
    match e
    case SendOk(t) => RequestMade(l, t, p)
    case SendErr(t, written) => written && RequestMade(l, t, p)
    case AppReply(i, opcode, data) =>
      i < |l.inbox| && l.inbox[i].origin.RequestOf? &&
      p == Packet(DigMessage(opcode, l.inbox[i].message.id, data), ReplyTo(l.inbox[i].origin.call))
    case AppSend(opcode, data) => p == Packet(DigMessage(opcode, None, data), Unsolicited)
    case _ => false
  }

  ghost predicate RequestMade(l: Link, t: nat, p: Packet) {
    Issued(l, t) && p == Packet(DigMessage(l.calls[t].opcode, Some(IdOf(Ticket(l, t))), l.calls[t].data), RequestOf(t))
  }

  /** An event writes at most one frame, and that is what it makes. */
  lemma WrittenIsMade(l: Link, e: Event)
    requires Enabled(l, e)
    ensures forall p :: MadeBy(l, e, p) <==> Written(l, e) == [p]
    ensures |Written(l, e)| <= 1
  {
  }

  /** What the event puts on the wire from `s`, and what it takes off the wire to `s`. */
  ghost function SentBy(n: Net, e: NetEvent, s: Side): seq<Packet> {
    if e.Local? && e.side == s && Enabled(n.At(s), e.event) then Written(n.At(s), e.event) else []
  }

  function TakenBy(n: Net, e: NetEvent, s: Side): seq<Packet> {
    if e == Arrive(s) && n.To(s) != [] then [n.To(s)[0]] else []
  }

  /** What the side `s` has put on the wire in the first `n` events, in order. */
  ghost function Sent(nets: seq<Net>, events: seq<NetEvent>, n: nat, s: Side): seq<Packet>
    requires n <= |events| <= |nets|
  {
    if n == 0 then [] else Sent(nets, events, n - 1, s) + SentBy(nets[n - 1], events[n - 1], s)
  }

  /** What the reader at `s` has taken off the wire, in order. */
  ghost function Taken(nets: seq<Net>, events: seq<NetEvent>, n: nat, s: Side): seq<Packet>
    requires n <= |events| <= |nets|
  {
    if n == 0 then [] else Taken(nets, events, n - 1, s) + TakenBy(nets[n - 1], events[n - 1], s)
  }

  /** A step takes the first frame off a wire, adds at its end, or leaves it alone. */
  lemma WireStep(n: Net, e: NetEvent, s: Side)
    requires NetEnabled(n, e)
    ensures TakenBy(n, e, s) + NetStep(n, e).To(s) == n.To(s) + SentBy(n, e, s.Other())
  {
    if e == Arrive(s) {
      assert n.To(s) == [n.To(s)[0]] + n.To(s)[1..];
    }
  }

  lemma RunStep(nets: seq<Net>, events: seq<NetEvent>, replies: set<byte>, i: nat)
    requires IsNetRun(nets, events, replies) && i < |events|
    ensures NetEnabled(nets[i], events[i]) && nets[i + 1] == NetStep(nets[i], events[i])
  {
  }

  lemma Regroup(taken: seq<Packet>, wire: seq<Packet>, sent: seq<Packet>, t: seq<Packet>, wire': seq<Packet>, w: seq<Packet>)
    requires taken + wire == sent && t + wire' == wire + w
    ensures (taken + t) + wire' == sent + w
  {
    assert (taken + t) + wire' == taken + (t + wire') == taken + (wire + w) == (taken + wire) + w;
  }

  /** Frames arrive once each, in the order they were sent, and none is lost on the way. */
  lemma {:induction false} WireIsFifo(nets: seq<Net>, events: seq<NetEvent>, replies: set<byte>, n: nat, s: Side)
    requires IsNetRun(nets, events, replies) && n <= |events|
    ensures Taken(nets, events, n, s) + nets[n].To(s) == Sent(nets, events, n, s.Other())
  {
    if n > 0 {
      WireIsFifo(nets, events, replies, n - 1, s);
      RunStep(nets, events, replies, n - 1);
      WireStep(nets[n - 1], events[n - 1], s);
      Regroup(Taken(nets, events, n - 1, s), nets[n - 1].To(s), Sent(nets, events, n - 1, s.Other()),
              TakenBy(nets[n - 1], events[n - 1], s), nets[n].To(s), SentBy(nets[n - 1], events[n - 1], s.Other()));
    } else {
      assert nets[0] == INITIAL_NET;
    }
  }

  /** Each frame a side has sent was made by one of its events. */
  lemma {:induction false} SentWasMade(nets: seq<Net>, events: seq<NetEvent>, replies: set<byte>, n: nat, s: Side, p: Packet)
    returns (i: nat)
    requires IsNetRun(nets, events, replies) && n <= |events| && p in Sent(nets, events, n, s)
    ensures i < n && events[i].Local? && events[i].side == s && MadeBy(nets[i].At(s), events[i].event, p)
  {
    var e := events[n - 1];
    RunStep(nets, events, replies, n - 1);
    if p in Sent(nets, events, n - 1, s) {
      i := SentWasMade(nets, events, replies, n - 1, s, p);
    } else {
      i := n - 1;
      WrittenIsMade(nets[i].At(s), e.event);
      assert Written(nets[i].At(s), e.event) == [p];
    }
  }

  // ---------------------------------------------------------------------------------------------
  // Nothing else is ever handled
  // ---------------------------------------------------------------------------------------------

  /** Every frame the link has, or has given a caller, satisfies `ok`. */
  ghost predicate Handles(l: Link, ok: Packet -> bool) {
    && (l.reader.Answering? || l.reader.Forwarding? ==> ok(l.reader.packet))
    && (forall i | 0 <= i < |l.queue| :: ok(l.queue[i]))
    && (forall i | 0 <= i < |l.inbox| :: ok(l.inbox[i]))
    && (forall t: nat | t < |l.calls| && l.calls[t].reply.Some? :: ok(l.calls[t].reply.value))
  }

  lemma StepHandles(l: Link, e: Event, ok: Packet -> bool)
    requires Inv(l) && Enabled(l, e) && Handles(l, ok) && (e.Frame? ==> ok(e.packet))
    ensures Handles(Step(l, e), ok)
  {
    var l' := Step(l, e);
    NoNewCalls(l, e);
    QueuesHandle(l, e, ok);
    forall t: nat | t < |l'.calls| && l'.calls[t].reply.Some?
      ensures ok(l'.calls[t].reply.value)
    {
      RepliesComeFromTheReader(l, e, t);
    }
  }

  lemma QueuesHandle(l: Link, e: Event, ok: Packet -> bool)
    requires Enabled(l, e) && Handles(l, ok) && (e.Frame? ==> ok(e.packet))
    ensures var l' := Step(l, e);
            && (l'.reader.Answering? || l'.reader.Forwarding? ==> ok(l'.reader.packet))
            && (forall i | 0 <= i < |l'.queue| :: ok(l'.queue[i]))
            && (forall i | 0 <= i < |l'.inbox| :: ok(l'.inbox[i]))
  {
    match e
    case Frame(p) =>
    case Forward =>
    case AppReceive => assert ok(l.queue[0]);
    case _ =>
  }

  lemma HandlesMore(l: Link, ok: Packet -> bool, ok': Packet -> bool)
    requires Handles(l, ok) && forall p :: ok(p) ==> ok'(p)
    ensures Handles(l, ok')
  {
  }

  /** Whatever a link handles, or completes a call with, the other side has sent. */
  lemma {:induction false} HandledWasSent(nets: seq<Net>, events: seq<NetEvent>, replies: set<byte>, n: nat, s: Side)
    requires IsNetRun(nets, events, replies) && n <= |events|
    ensures Handles(nets[n].At(s), p => p in Sent(nets, events, n, s.Other()))
  {
    if n > 0 {
      var l, e := nets[n - 1].At(s), events[n - 1];
      var before := p => p in Sent(nets, events, n - 1, s.Other());
      var after := p => p in Sent(nets, events, n, s.Other());
      HandledWasSent(nets, events, replies, n - 1, s);
      NetRunKeepsInv(nets, events, replies, n - 1);
      WireIsFifo(nets, events, replies, n - 1, s);
      HandlesMore(l, before, after);
      if e.side == s {
        StepHandles(l, if e.Local? then e.event else Frame(nets[n - 1].To(s)[0]), after);
      }
    }
  }

  // ---------------------------------------------------------------------------------------------
  // What a call sends, and what it gets
  // ---------------------------------------------------------------------------------------------

  lemma LaterTrans(l: Link, m: Link, r: Link)
    requires Later(l, m) && Later(m, r)
    ensures Later(l, r)
  {
    forall t: nat | t < |l.calls|
      ensures Settled(l.calls[t], r.calls[t])
    {
      assert Settled(l.calls[t], m.calls[t]) && Settled(m.calls[t], r.calls[t]);
    }
  }

  lemma {:induction false} LaterInRun(nets: seq<Net>, events: seq<NetEvent>, replies: set<byte>, i: nat, n: nat, s: Side)
    requires IsNetRun(nets, events, replies) && i <= n < |nets|
    ensures Later(nets[i].At(s), nets[n].At(s))
    decreases n
  {
    if i == n {
      LaterRefl(nets[i].At(s));
    } else {
      LaterInRun(nets, events, replies, i, n - 1, s);
      NetRunKeepsInv(nets, events, replies, n - 1);
      NetStepIsLater(nets[n - 1], events[n - 1], s, replies);
      LaterTrans(nets[i].At(s), nets[n - 1].At(s), nets[n].At(s));
    }
  }

  lemma NetStepIsLater(n: Net, e: NetEvent, s: Side, replies: set<byte>)
    requires NetInv(n, replies) && NetEnabled(n, e)
    ensures Later(n.At(s), NetStep(n, e).At(s))
  {
    if e.side == s {
      StepIsLater(n.At(s), if e.Local? then e.event else Frame(n.To(s)[0]));
    } else {
      LaterRefl(n.At(s));
    }
  }

  /** `p` is on the wire to the link, in its reader, its queue or its application's hands, or was given to a caller. */
  ghost predicate Around(l: Link, wire: seq<Packet>, p: Packet) {
    || p in wire
    || ((l.reader.Answering? || l.reader.Forwarding?) && l.reader.packet == p)
    || p in l.queue || p in l.inbox
    || exists t: nat | t < |l.calls| :: l.calls[t].reply == Some(p)
  }

  lemma AroundWasSent(nets: seq<Net>, events: seq<NetEvent>, replies: set<byte>, n: nat, s: Side, p: Packet)
    requires IsNetRun(nets, events, replies) && n <= |events| && Around(nets[n].At(s), nets[n].To(s), p)
    ensures p in Sent(nets, events, n, s.Other())
  {
    HandledWasSent(nets, events, replies, n, s);
    WireIsFifo(nets, events, replies, n, s);
    var l, ok := nets[n].At(s), (q: Packet) => q in Sent(nets, events, n, s.Other());
    if p in l.queue {
      var i :| 0 <= i < |l.queue| && l.queue[i] == p;
      assert ok(l.queue[i]);
    } else if p in l.inbox {
      var i :| 0 <= i < |l.inbox| && l.inbox[i] == p;
      assert ok(l.inbox[i]);
    }
  }

  /** `message` is the request that the caller who made the `t`-th start asked to send, under the id its call got. */
  ghost predicate IsRequest(starts: seq<Event>, l: Link, t: nat, message: DigMessage) {
    && t < |starts| && starts[t].Start? && Issued(l, t)
    && message == DigMessage(starts[t].opcode, Some(IdOf(Ticket(l, t))), starts[t].data)
  }

  /** Whatever has been sent as a call's request is exactly what its caller asked for. */
  lemma SentIsRequest(nets: seq<Net>, events: seq<NetEvent>, replies: set<byte>, n: nat, s: Side, t: nat, p: Packet)
    requires IsNetRun(nets, events, replies) && n <= |events| && p in Sent(nets, events, n, s) && p.origin == RequestOf(t)
    ensures IsRequest(Starts(events, n, s), nets[n].At(s), t, p.message)
  {
    var i := SentWasMade(nets, events, replies, n, s, p);
    assert RequestMade(nets[i].At(s), t, p);
    LaterInRun(nets, events, replies, i, n, s);
    CallsAreStarts(nets, events, replies, n, s);
    assert Settled(nets[i].At(s).calls[t], nets[n].At(s).calls[t]);
  }

  /**
   * Over any run of two links, wherever a request is by now, on the wire, with the reader, in the queue or with the
   * application, it is the opcode and the payload its caller asked to send, under the id of its call.
   */
  lemma RequestsAreExact(nets: seq<Net>, events: seq<NetEvent>, replies: set<byte>, n: nat, s: Side, t: nat, p: Packet)
    requires IsNetRun(nets, events, replies) && n <= |events|
    requires Around(nets[n].At(s), nets[n].To(s), p) && p.origin == RequestOf(t)
    ensures IsRequest(Starts(events, n, s.Other()), nets[n].At(s.Other()), t, p.message)
  {
    AroundWasSent(nets, events, replies, n, s, p);
    SentIsRequest(nets, events, replies, n, s.Other(), t, p);
  }

  lemma {:induction false} StartsGrow(events: seq<NetEvent>, i: nat, n: nat, s: Side)
    requires i <= n <= |events|
    ensures Starts(events, i, s) <= Starts(events, n, s)
    decreases n
  {
    if i < n {
      StartsGrow(events, i, n - 1, s);
    }
  }

  lemma RequestStays(nets: seq<Net>, events: seq<NetEvent>, replies: set<byte>, i: nat, n: nat, s: Side, t: nat, message: DigMessage)
    requires IsNetRun(nets, events, replies) && i <= n <= |events|
    requires IsRequest(Starts(events, i, s), nets[i].At(s), t, message)
    ensures IsRequest(Starts(events, n, s), nets[n].At(s), t, message)
  {
    StartsGrow(events, i, n, s);
    LaterInRun(nets, events, replies, i, n, s);
    assert Settled(nets[i].At(s).calls[t], nets[n].At(s).calls[t]);
  }

  /**
   * While no reply comes a full lap late, a call that completes has an answer that the peer's application gave, after it
   * was handed exactly the request this caller made; and opcode, id and payload are those the application answered with.
   */
  lemma CompletedByAnAnswer(nets: seq<Net>, events: seq<NetEvent>, replies: set<byte>, n: nat, s: Side, t: nat, p: Packet)
    returns (i: nat, index: nat, opcode: byte, data: seq<byte>)
    requires IsNetRun(nets, events, replies) && RepliesWithin(nets, events, ID_SPACE) && n <= |events|
    requires t < |nets[n].At(s).calls| && nets[n].At(s).calls[t].phase == Done(Replied(p))
    ensures i < n && events[i] == Local(s.Other(), AppReply(index, opcode, data))
    ensures index < |nets[i].At(s.Other()).inbox|
    ensures var asked := nets[i].At(s.Other()).inbox[index].message;
            IsRequest(Starts(events, n, s), nets[n].At(s), t, asked) && p.message == DigMessage(opcode, asked.id, data)
    ensures opcode in Starts(events, n, s)[t].expected
  {
    EndToEndCorrelation(nets, events, replies, n, s, t, p);
    NetRunKeepsInv(nets, events, replies, n);
    assert CallOk(nets[n].At(s), t);
    AroundWasSent(nets, events, replies, n, s, p);
    i := SentWasMade(nets, events, replies, n, s.Other(), p);
    var other, e := nets[i].At(s.Other()), events[i].event;
    assert e.AppReply?;
    index, opcode, data := e.index, e.opcode, e.data;
    var q := other.inbox[index];
    assert q in other.inbox && q.origin == RequestOf(t);
    RequestsAreExact(nets, events, replies, i, s.Other(), t, q);
    assert s.Other().Other() == s;
    RequestStays(nets, events, replies, i, n, s, t, q.message);
    CallsAreStarts(nets, events, replies, n, s);
  }
}
