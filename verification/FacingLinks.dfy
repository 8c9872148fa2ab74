/**
 * Two links face to face (src/request_map.rs, src/link.rs).
 *
 * Each side issues ids from its own cursor, both starting at 0, so a frame carrying a live id is as often the
 * peer's request as a reply. The applications are honest: each answers requests it has received, echoing their
 * ids, and may send frames without an id. No request opcode is a declared reply opcode.
 */
module FacingLinks {
  import opened Wire
  import opened RequestMaps
  import opened LinkMachine
  import opened LinkInvariant
  import opened LinkTheorems

  datatype Side = Left | Right {
    function Other(): Side {
      if this == Left then Right else Left
    }
  }

  /** The two links and the frames under way to each of them, oldest first. */
  datatype Net = Net(left: Link, right: Link, toLeft: seq<Packet>, toRight: seq<Packet>) {
    function At(s: Side): Link {
      if s == Left then left else right
    }

    function To(s: Side): seq<Packet> {
      if s == Left then toLeft else toRight
    }

    /** The net after the link at `s` has become `link`, with `incoming` left on its way to it and `sent` written. */
    function Put(s: Side, link: Link, incoming: seq<Packet>, sent: seq<Packet>): Net {
      if s == Left then Net(link, right, incoming, toRight + sent) else Net(left, link, toLeft + sent, incoming)
    }
  }

  datatype NetEvent = Local(side: Side, event: Event) | Arrive(side: Side)

  const INITIAL_NET: Net := Net(INITIAL, INITIAL, [], [])

  ghost predicate NetEnabled(n: Net, e: NetEvent) {
    match e
    case Local(s, event) => !event.Frame? && Enabled(n.At(s), event)
    case Arrive(s) => n.To(s) != [] && Enabled(n.At(s), Frame(n.To(s)[0]))
  }

  ghost function NetStep(n: Net, e: NetEvent): Net
    requires NetEnabled(n, e)
  {
    match e
    case Local(s, event) => n.Put(s, Step(n.At(s), event), n.To(s), Written(n.At(s), event))
    case Arrive(s) => n.Put(s, Step(n.At(s), Frame(n.To(s)[0])), n.To(s)[1..], [])
  }

  /** Calls ask with opcodes outside `replies` and declare opcodes inside it. */
  ghost predicate Polite(e: NetEvent, replies: set<byte>) {
    e.Local? && e.event.Start? ==>
      e.event.opcode !in replies && forall op | op in e.event.expected :: op in replies
  }

  ghost predicate IsNetRun(nets: seq<Net>, events: seq<NetEvent>, replies: set<byte>) {
    && |nets| == |events| + 1
    && nets[0] == INITIAL_NET
    && forall i | 0 <= i < |events| ::
         Polite(events[i], replies) && NetEnabled(nets[i], events[i]) && nets[i + 1] == NetStep(nets[i], events[i])
  }

  // ---------------------------------------------------------------------------------------------
  // Frames say where they come from
  // ---------------------------------------------------------------------------------------------

  /** What is under way from `from` to `to` is a request of `from`, a reply to a call of `to`, or has no id. */
  ghost predicate PacketOk(p: Packet, from: Link, to: Link, replies: set<byte>) {
    match p.origin
    case RequestOf(t) => Issued(from, t) && p.message.id == Some(IdOfCall(from, t)) && p.message.msgType !in replies
    case ReplyTo(t) => Issued(to, t) && p.message.id == Some(IdOfCall(to, t))
    case Unsolicited => p.message.id.None?
  }

  ghost predicate AllOk(ps: seq<Packet>, from: Link, to: Link, replies: set<byte>) {
    forall i | 0 <= i < |ps| :: PacketOk(ps[i], from, to, replies)
  }

  ghost predicate ReaderPacketOk(from: Link, to: Link, replies: set<byte>) {
    match to.reader
    case Answering(_, p) => PacketOk(p, from, to, replies)
    case Forwarding(p) => PacketOk(p, from, to, replies)
    case _ => true
  }

  /** Everything `from` has sent `to`, wherever it is by now. */
  ghost predicate Way(from: Link, to: Link, wire: seq<Packet>, replies: set<byte>) {
    && AllOk(wire, from, to, replies)
    && ReaderPacketOk(from, to, replies)
    && AllOk(to.queue, from, to, replies)
    && AllOk(to.inbox, from, to, replies)
  }

  ghost predicate PoliteCalls(l: Link, replies: set<byte>) {
    forall t: nat | t < |l.calls| ::
      l.calls[t].opcode !in replies && forall op | op in l.calls[t].expected :: op in replies
  }

  ghost predicate NetInv(n: Net, replies: set<byte>) {
    && Inv(n.left) && Inv(n.right)
    && PoliteCalls(n.left, replies) && PoliteCalls(n.right, replies)
    && Way(n.left, n.right, n.toRight, replies) && Way(n.right, n.left, n.toLeft, replies)
  }

  /** A later state of the same link. */
  ghost predicate Later(l: Link, l': Link) {
    |l.calls| <= |l'.calls| && forall t: nat | t < |l.calls| :: Settled(l.calls[t], l'.calls[t])
  }

  lemma StepIsLater(l: Link, e: Event)
    requires Inv(l) && Enabled(l, e)
    ensures Later(l, Step(l, e))
  {
    forall t: nat | t < |l.calls|
      ensures Settled(l.calls[t], Step(l, e).calls[t])
    {
      StepSettles(l, e, t);
    }
    if |l.calls| > 0 {
      StepSettles(l, e, |l.calls| - 1);
    }
  }

  lemma PacketCarries(p: Packet, from: Link, to: Link, from': Link, to': Link, replies: set<byte>)
    requires PacketOk(p, from, to, replies) && Later(from, from') && Later(to, to')
    ensures PacketOk(p, from', to', replies)
  {
    match p.origin
    case RequestOf(t) => assert Settled(from.calls[t], from'.calls[t]);
    case ReplyTo(t) => assert Settled(to.calls[t], to'.calls[t]);
    case Unsolicited =>
  }

  lemma AllCarry(ps: seq<Packet>, from: Link, to: Link, from': Link, to': Link, replies: set<byte>)
    requires AllOk(ps, from, to, replies) && Later(from, from') && Later(to, to')
    ensures AllOk(ps, from', to', replies)
  {
    forall i | 0 <= i < |ps|
      ensures PacketOk(ps[i], from', to', replies)
    {
      PacketCarries(ps[i], from, to, from', to', replies);
    }
  }

  lemma LaterRefl(l: Link)
    ensures Later(l, l)
  {
  }

  /** The sending side: what a step writes is a request of the sender, a reply to the peer's call, or has no id. */
  lemma WrittenOk(from: Link, e: Event, to: Link, replies: set<byte>)
    requires Inv(from) && Enabled(from, e) && PoliteCalls(from, replies)
    requires AllOk(from.inbox, to, from, replies)
    ensures AllOk(Written(from, e), from, to, replies)
  {
    match e
    case AppReply(i, _, _) => assert PacketOk(from.inbox[i], to, from, replies);
    case _ =>
  }

  lemma SenderKeepsWay(from: Link, e: Event, to: Link, wire: seq<Packet>, replies: set<byte>)
    requires Inv(from) && Enabled(from, e) && PoliteCalls(from, replies)
    requires AllOk(from.inbox, to, from, replies)
    requires Way(from, to, wire, replies)
    ensures Way(Step(from, e), to, wire + Written(from, e), replies)
  {
    var from' := Step(from, e);
    StepIsLater(from, e);
    LaterRefl(to);
    WrittenOk(from, e, to, replies);
    AllCarry(wire + Written(from, e), from, to, from', to, replies);
    AllCarry(to.queue, from, to, from', to, replies);
    AllCarry(to.inbox, from, to, from', to, replies);
    if to.reader.Answering? || to.reader.Forwarding? {
      PacketCarries(to.reader.packet, from, to, from', to, replies);
    }
  }

  /** The receiving side: a step only moves what it was sent along. */
  lemma ReceiverKeepsWay(from: Link, to: Link, e: Event, wire: seq<Packet>, wire': seq<Packet>, replies: set<byte>)
    requires Inv(to) && Enabled(to, e) && Way(from, to, wire, replies)
    requires if e.Frame? then wire != [] && e.packet == wire[0] && wire' == wire[1..] else wire' == wire
    ensures Way(from, Step(to, e), wire', replies)
  {
    var to' := Step(to, e);
    StepIsLater(to, e);
    LaterRefl(from);
    AllCarry(wire, from, to, from, to', replies);
    AllCarry(to.queue, from, to, from, to', replies);
    AllCarry(to.inbox, from, to, from, to', replies);
    if to.reader.Answering? || to.reader.Forwarding? {
      PacketCarries(to.reader.packet, from, to, from, to', replies);
    }
    MovedAlong(from, to, e, wire, to', replies);
  }

  lemma MovedAlong(from: Link, to: Link, e: Event, wire: seq<Packet>, seen: Link, replies: set<byte>)
    requires Enabled(to, e) && AllOk(wire, from, seen, replies)
    requires AllOk(to.queue, from, seen, replies) && AllOk(to.inbox, from, seen, replies)
    requires to.reader.Answering? || to.reader.Forwarding? ==> PacketOk(to.reader.packet, from, seen, replies)
    requires e.Frame? ==> wire != [] && e.packet == wire[0]
    ensures var to' := Step(to, e);
            && AllOk(to'.queue, from, seen, replies) && AllOk(to'.inbox, from, seen, replies)
            && (to'.reader.Answering? || to'.reader.Forwarding? ==> PacketOk(to'.reader.packet, from, seen, replies))
  {
    match e
    case Frame(p) => assert PacketOk(wire[0], from, seen, replies);
    case AppReceive => assert PacketOk(to.queue[0], from, seen, replies);
    case _ =>
  }

  lemma StepKeepsPoliteness(l: Link, e: Event, replies: set<byte>)
    requires Inv(l) && Enabled(l, e) && PoliteCalls(l, replies)
    requires e.Start? ==> e.opcode !in replies && forall op | op in e.expected :: op in replies
    ensures PoliteCalls(Step(l, e), replies)
  {
    var l' := Step(l, e);
    StepIsLater(l, e);
    NoNewCalls(l, e);
    forall t: nat | t < |l.calls|
      ensures l'.calls[t].opcode !in replies && forall op | op in l'.calls[t].expected :: op in replies
    {
      assert Settled(l.calls[t], l'.calls[t]);
    }
  }

  lemma NoNewCalls(l: Link, e: Event)
    requires Enabled(l, e)
    ensures |Step(l, e).calls| == |l.calls| + if e.Start? then 1 else 0
  {
  }

  /** A step of the link at one side keeps what holds of the net. */
  lemma SideStep(a: Link, b: Link, e: Event, toA: seq<Packet>, toA': seq<Packet>, toB: seq<Packet>, replies: set<byte>)
    requires Inv(a) && Enabled(a, e) && PoliteCalls(a, replies)
    requires e.Start? ==> e.opcode !in replies && forall op | op in e.expected :: op in replies
    requires Way(b, a, toA, replies) && Way(a, b, toB, replies)
    requires if e.Frame? then toA != [] && e.packet == toA[0] && toA' == toA[1..] else toA' == toA
    ensures var a' := Step(a, e);
            && Inv(a') && PoliteCalls(a', replies)
            && Way(b, a', toA', replies) && Way(a', b, toB + Written(a, e), replies)
  {
    StepKeepsInv(a, e);
    StepKeepsPoliteness(a, e, replies);
    SenderKeepsWay(a, e, b, toB, replies);
    ReceiverKeepsWay(b, a, e, toA, toA', replies);
  }

  lemma NetStepKeepsInv(n: Net, e: NetEvent, replies: set<byte>)
    requires NetInv(n, replies) && Polite(e, replies) && NetEnabled(n, e)
    ensures NetInv(NetStep(n, e), replies)
  {
    var s := e.side;
    var event, incoming := if e.Local? then e.event else Frame(n.To(s)[0]), if e.Local? then n.To(s) else n.To(s)[1..];
    SideStep(n.At(s), n.At(s.Other()), event, n.To(s), incoming, n.To(s.Other()), replies);
    assert e.Arrive? ==> Written(n.At(s), event) == [];
  }

  lemma {:induction false} NetRunKeepsInv(nets: seq<Net>, events: seq<NetEvent>, replies: set<byte>, i: nat)
    requires IsNetRun(nets, events, replies) && i < |nets|
    ensures NetInv(nets[i], replies)
  {
    if i == 0 {
      InitialInv();
    } else {
      NetRunKeepsInv(nets, events, replies, i - 1);
      NetStepKeepsInv(nets[i - 1], events[i - 1], replies);
    }
  }

  // ---------------------------------------------------------------------------------------------
  // Correlation, end to end
  // ---------------------------------------------------------------------------------------------

  /** A peer's own request never answers a waiter, whatever id it carries: it goes on to the application. */
  lemma RequestsAreForwarded(nets: seq<Net>, events: seq<NetEvent>, replies: set<byte>, i: nat, s: Side)
    requires IsNetRun(nets, events, replies) && i < |events| && events[i] == Arrive(s)
    requires nets[i].To(s)[0].origin.RequestOf?
    ensures nets[i + 1].At(s).reader == Forwarding(nets[i].To(s)[0])
  {
    NetRunKeepsInv(nets, events, replies, i);
    OnlyRepliesAnswer(nets[i].At(s.Other()), nets[i].At(s), nets[i].To(s), replies);
  }

  /** Only a reply answers, and only its own call or one issued the same id at least a lap later. */
  lemma OnlyRepliesAnswer(from: Link, to: Link, wire: seq<Packet>, replies: set<byte>)
    requires Inv(to) && PoliteCalls(to, replies) && to.reader.Idle? && wire != [] && Way(from, to, wire, replies)
    ensures var p, reader := wire[0], FrameStep(to, wire[0]).reader;
            reader == Forwarding(p) ||
            (reader.Answering? && reader.packet == p && p.origin.ReplyTo? && ReplyReaches(to, p.origin.call, reader.request.sender))
  {
    var p := wire[0];
    assert PacketOk(p, from, to, replies);
    if FrameStep(to, p).reader.Answering? {
      var id := p.message.id.value;
      var owner := to.items[id].sender;
      assert EntryOk(to, id);
      assert to.calls[owner].opcode !in replies;
      if p.origin.ReplyTo? {
        HolderOwnOrLapped(to, p.origin.call);
      }
    }
  }

  /** A reply to call `t` answers `owner`: `t` itself exactly if `t` still holds its id, else a call a lap or more later. */
  ghost predicate ReplyReaches(l: Link, t: nat, owner: nat) {
    && Issued(l, t) && Issued(l, owner) && OwnOrLapped(l, owner, t)
    && (owner == t <==> Holds(l, t))
  }

  /** Whoever is answered, on any run at all, is answered by a reply to its own request or by one a lap or more late. */
  lemma AnsweredByOwnOrLate(nets: seq<Net>, events: seq<NetEvent>, replies: set<byte>, i: nat, s: Side)
    requires IsNetRun(nets, events, replies) && i < |events| && events[i] == Arrive(s)
    requires nets[i + 1].At(s).reader.Answering?
    ensures var p := nets[i].To(s)[0];
            p.origin.ReplyTo? && ReplyReaches(nets[i].At(s), p.origin.call, nets[i + 1].At(s).reader.request.sender)
  {
    NetRunKeepsInv(nets, events, replies, i);
    OnlyRepliesAnswer(nets[i].At(s.Other()), nets[i].At(s), nets[i].To(s), replies);
  }

  /** No reply arrives after the cursor has gone more than `lap` past the request it answers. */
  ghost predicate RepliesWithin(nets: seq<Net>, events: seq<NetEvent>, lap: nat)
    requires |nets| == |events| + 1
  {
    forall i | 0 <= i < |events| :: ReplyWithin(nets[i], events[i], lap)
  }

  ghost predicate ReplyWithin(n: Net, e: NetEvent, lap: nat) {
    e.Arrive? && n.To(e.side) != [] && n.To(e.side)[0].origin.ReplyTo? ==>
      var l, t := n.At(e.side), n.To(e.side)[0].origin.call;
      Issued(l, t) && l.cursor <= Ticket(l, t) + lap
  }

  /** Every call that has a reply has the reply to its own request. */
  ghost predicate OwnReplies(l: Link) {
    && (forall t: nat | t < |l.calls| && l.calls[t].reply.Some? :: l.calls[t].reply.value.origin == ReplyTo(t))
    && (l.reader.Answering? ==> l.reader.packet.origin == ReplyTo(l.reader.request.sender))
  }

  lemma StepKeepsOwnReplies(l: Link, e: Event)
    requires Inv(l) && Enabled(l, e) && OwnReplies(l)
    requires e.Frame? && FrameStep(l, e.packet).reader.Answering? ==>
             e.packet.origin == ReplyTo(FrameStep(l, e.packet).reader.request.sender)
    ensures OwnReplies(Step(l, e))
  {
    var l' := Step(l, e);
    NoNewCalls(l, e);
    forall t: nat | t < |l'.calls| && l'.calls[t].reply.Some?
      ensures l'.calls[t].reply.value.origin == ReplyTo(t)
    {
      RepliesComeFromTheReader(l, e, t);
    }
  }

  /** A call's reply is the one it had, or the one the reader was handing over. */
  lemma RepliesComeFromTheReader(l: Link, e: Event, t: nat)
    requires Inv(l) && Enabled(l, e) && t < |Step(l, e).calls| && Step(l, e).calls[t].reply.Some?
    ensures (t < |l.calls| && Step(l, e).calls[t].reply == l.calls[t].reply) ||
            (l.reader.Answering? && l.reader.request.sender == t && Step(l, e).calls[t].reply == Some(l.reader.packet))
  {
    if e.Insert? {
      InsertLeavesReply(l, e.call, t);
    } else if e.Frame? {
      FrameSettles(l, e.packet, t);
    } else if e.CancelUnsent? {
      CancelSettlesReply(l, e.call, SendFailed, t);
    } else if e.CancelExpired? {
      CancelSettlesReply(l, e.call, Diagnosis(l, e.call), t);
    } else if e.Deliver? {
      OnlyItsReply(l, t);
    } else {
      OtherwiseNoReply(l, e, t);
    }
  }

  lemma OnlyItsReply(l: Link, t: nat)
    requires l.reader.Answering? && t < |l.calls|
    ensures DeliverStep(l).calls[t].reply == l.calls[t].reply ||
            (l.reader.request.sender == t && DeliverStep(l).calls[t].reply == Some(l.reader.packet))
  {
  }

  lemma InsertLeavesReply(l: Link, u: nat, t: nat)
    requires Inv(l) && Enabled(l, Insert(u)) && t < |l.calls|
    ensures InsertStep(l, u).calls[t].reply == l.calls[t].reply
  {
    if u != t {
      InsertElsewhere(l, u, t);
    }
  }

  lemma OtherwiseNoReply(l: Link, e: Event, t: nat)
    requires Enabled(l, e) && t < |Step(l, e).calls| && Step(l, e).calls[t].reply.Some?
    requires !(e.Insert? || e.Frame? || e.CancelUnsent? || e.CancelExpired? || e.Deliver?)
    ensures t < |l.calls| && Step(l, e).calls[t].reply == l.calls[t].reply
  {
  }

  lemma CancelSettlesReply(l: Link, u: nat, outcome: Outcome<Packet>, t: nat)
    requires Issued(l, u) && t < |l.calls|
    ensures CancelStep(l, u, outcome).calls[t].reply == l.calls[t].reply
  {
  }

  /** A reply that is not a lap late answers its own call. */
  lemma TimelyAnswerIsOwn(l: Link, t: nat, owner: nat)
    requires Inv(l) && ReplyReaches(l, t, owner) && WithinLap(l, t)
    ensures owner == t
  {
    assert CallOk(l, owner);
  }

  lemma NetStepKeepsOwnReplies(n: Net, e: NetEvent, s: Side, replies: set<byte>)
    requires NetInv(n, replies) && NetEnabled(n, e) && OwnReplies(n.At(s))
    requires e.Arrive? && n.To(e.side)[0].origin.ReplyTo? ==> WithinLap(n.At(e.side), n.To(e.side)[0].origin.call)
    ensures OwnReplies(NetStep(n, e).At(s))
  {
    if e.side == s {
      var l, event := n.At(s), if e.Local? then e.event else Frame(n.To(s)[0]);
      if e.Arrive? {
        OnlyRepliesAnswer(n.At(s.Other()), l, n.To(s), replies);
        if FrameStep(l, n.To(s)[0]).reader.Answering? {
          TimelyAnswerIsOwn(l, n.To(s)[0].origin.call, FrameStep(l, n.To(s)[0]).reader.request.sender);
        }
      }
      StepKeepsOwnReplies(l, event);
    }
  }

  lemma {:induction false} RunKeepsOwnReplies(nets: seq<Net>, events: seq<NetEvent>, replies: set<byte>, i: nat, s: Side)
    requires IsNetRun(nets, events, replies) && RepliesWithin(nets, events, ID_SPACE) && i < |nets|
    ensures OwnReplies(nets[i].At(s))
  {
    if i > 0 {
      RunKeepsOwnReplies(nets, events, replies, i - 1, s);
      NetRunKeepsInv(nets, events, replies, i - 1);
      assert ReplyWithin(nets[i - 1], events[i - 1], ID_SPACE);
      NetStepKeepsOwnReplies(nets[i - 1], events[i - 1], s, replies);
    }
  }

  /**
   * Over any interleaving of two facing links, with colliding ids, late and repeated replies, timeouts, failed
   * sends and abandoned calls: while no reply comes a full lap late, a call is only ever completed by the
   * reply to its own request.
   */
  lemma EndToEndCorrelation(nets: seq<Net>, events: seq<NetEvent>, replies: set<byte>, i: nat, s: Side, t: nat, p: Packet)
    requires IsNetRun(nets, events, replies) && RepliesWithin(nets, events, ID_SPACE) && i < |nets|
    requires t < |nets[i].At(s).calls| && nets[i].At(s).calls[t].phase == Done(Replied(p))
    ensures p.origin == ReplyTo(t) && Matches(nets[i].At(s), t, p)
  {
    NetRunKeepsInv(nets, events, replies, i);
    RunKeepsOwnReplies(nets, events, replies, i, s);
    assert CallOk(nets[i].At(s), t);
  }

  /** An honest reply with a declared opcode reaches its own call exactly while that call's entry is there. */
  lemma HonestReplyReachesItsCall(nets: seq<Net>, events: seq<NetEvent>, replies: set<byte>, i: nat, s: Side)
    requires IsNetRun(nets, events, replies) && i < |events| && events[i] == Arrive(s)
    requires var p := nets[i].To(s)[0];
             p.origin.ReplyTo? && p.origin.call < |nets[i].At(s).calls| &&
             p.message.msgType in nets[i].At(s).calls[p.origin.call].expected
    ensures var p, l, l' := nets[i].To(s)[0], nets[i].At(s), nets[i + 1].At(s);
            && (HandedTo(l', p.origin.call, p) <==> Leaving(l, p.origin.call, None))
            && (HandedTo(l', p.origin.call, p) || RightlyGone(l, p.origin.call))
  {
    NetRunKeepsInv(nets, events, replies, i);
    var p := nets[i].To(s)[0];
    assert PacketOk(p, nets[i].At(s.Other()), nets[i].At(s), replies);
    ReplyFindsItsCall(nets[i].At(s), p.origin.call, p);
  }
}
