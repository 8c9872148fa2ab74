/**
 * One link as a state machine: its callers, its reader task and its application, interleaving freely
 * (src/request_map.rs, and `request_message` and `read_inbound` in src/link.rs).
 *
 * A call is one run of `request_message`, named by its index; the same number names its reply channel. Every
 * block the source runs under the map's lock is one step, and so is every await point in between. The ticket in
 * `Issue` stands for the id the source keeps in a local variable; the rest of `Issue`, and `Arrival`, record history
 * that no step looks at. `Origin` says what an honest application has to answer, and is otherwise history too.
 */
module LinkMachine {
  import opened Wire
  import opened DigMessages
  import opened RequestMaps
  import opened Channels

  /** Who made a frame: a call asking, an application answering the call it names, or neither. */
  datatype Origin = RequestOf(call: nat) | ReplyTo(call: nat) | Unsolicited

  datatype Packet = Packet(message: DigMessage, origin: Origin)

  /** Where a caller is: up to `Unsent` it still holds its receiver. */
  datatype Phase = Waiting | Permitted | Sending | Parked | Unsent | Expired | Abandoned | Done(outcome: Outcome<Packet>)

  datatype Removal = Answered | Pruned | CancelledBy(call: nat)

  /** When a call got its id: the cursor position, how much had arrived by then, and how its entry left the map. */
  datatype Issue = Issue(ticket: nat, at: nat, removal: Option<Removal>)

  datatype Call = Call(
    opcode: byte,
    data: seq<byte>,
    expected: seq<byte>,
    phase: Phase,
    issue: Option<Issue>,
    reply: Option<Packet>)

  datatype Reader = Idle | Answering(request: Request, packet: Packet) | Forwarding(packet: Packet) | Stopped

  datatype Arrival = Arrival(id: u16, opcode: byte)

  datatype Link = Link(
    free: nat,
    items: map<u16, Request>,
    cursor: nat,
    calls: seq<Call>,
    reader: Reader,
    log: seq<Arrival>,
    queue: seq<Packet>,
    listening: bool,
    inbox: seq<Packet>)

  datatype Event =
    | Start(opcode: byte, data: seq<byte>, expected: seq<byte>)
    | Acquire(call: nat)
    | Insert(call: nat)
    | SendOk(call: nat)
    | SendErr(call: nat, written: bool)
    | CancelUnsent(call: nat)
    | Complete(call: nat)
    | Orphan(call: nat)
    | Expire(call: nat)
    | CancelExpired(call: nat)
    | Abandon(call: nat)
    | Frame(packet: Packet)
    | Deliver
    | Forward
    | StopReader
    | AppReceive
    | AppClose
    | AppReply(index: nat, opcode: byte, data: seq<byte>)
    | AppSend(opcode: byte, data: seq<byte>)

  const INITIAL: Link := Link(CAPACITY, map[], 0, [], Idle, [], [], true, [])

  predicate ReceiverGone(c: Call) {
    c.phase.Expired? || c.phase.Abandoned? || c.phase.Done?
  }

  ghost function Closed(calls: seq<Call>): set<nat> {
    set t: nat | t < |calls| && ReceiverGone(calls[t])
  }

  function TableOf(l: Link): Table {
    Table(l.items, l.cursor)
  }

  /** Call `t` has an entry in the map. */
  ghost predicate Holds(l: Link, t: nat) {
    && t < |l.calls| && l.calls[t].issue.Some?
    && IdOf(l.calls[t].issue.value.ticket) in l.items
    && l.items[IdOf(l.calls[t].issue.value.ticket)].sender == t
  }

  function WithRemoval(c: Call, removal: Removal): Call {
    if c.issue.Some? then c.(issue := Some(c.issue.value.(removal := Some(removal)))) else c
  }

  /** The map without `id`, the owner's history saying why. */
  function Removed(l: Link, id: u16, removal: Removal): Link {
    if id !in l.items then l else
    var owner := l.items[id].sender;
    l.(items := l.items - {id},
       calls := if owner < |l.calls| then l.calls[owner := WithRemoval(l.calls[owner], removal)] else l.calls)
  }

  function WithPhase(l: Link, t: nat, phase: Phase): Link
    requires t < |l.calls|
  {
    l.(calls := l.calls[t := l.calls[t].(phase := phase)])
  }

  function IdOfCall(l: Link, t: nat): u16
    requires t < |l.calls| && l.calls[t].issue.Some?
  {
    IdOf(l.calls[t].issue.value.ticket)
  }

  function Diagnosis(l: Link, t: nat): Outcome<Packet>
    requires t < |l.calls| && l.calls[t].issue.Some?
  {
    Report(Under(TableOf(l), IdOfCall(l, t)), l.calls[t].opcode)
  }

  ghost predicate Enabled(l: Link, e: Event) {
    match e
    case Start(_, _, _) => true
    case Acquire(t) => t < |l.calls| && l.calls[t].phase.Waiting? && l.free > 0
    case Insert(t) => t < |l.calls| && l.calls[t].phase.Permitted? && |l.items| < ID_SPACE
    case SendOk(t) => t < |l.calls| && l.calls[t].phase.Sending? && l.calls[t].issue.Some?
    case SendErr(t, _) => t < |l.calls| && l.calls[t].phase.Sending? && l.calls[t].issue.Some?
    case CancelUnsent(t) => t < |l.calls| && l.calls[t].phase.Unsent? && l.calls[t].issue.Some?
    case Complete(t) => t < |l.calls| && l.calls[t].phase.Parked? && l.calls[t].reply.Some?
    case Orphan(t) => t < |l.calls| && l.calls[t].phase.Parked? && l.calls[t].reply.None? &&
      !(l.reader.Answering? && l.reader.request.sender == t) && forall id | id in l.items :: l.items[id].sender != t
    case Expire(t) => t < |l.calls| && l.calls[t].phase.Parked?
    case CancelExpired(t) => t < |l.calls| && l.calls[t].phase.Expired? && l.calls[t].issue.Some?
    case Abandon(t) => t < |l.calls| && !l.calls[t].phase.Done? && !l.calls[t].phase.Abandoned?
    case Frame(_) => l.reader.Idle?
    case Deliver => l.reader.Answering?
    case Forward => l.reader.Forwarding?
    case StopReader => l.reader.Idle?
    case AppReceive => l.queue != []
    case AppClose => true
    case AppReply(i, _, _) => i < |l.inbox| && l.inbox[i].origin.RequestOf? && l.inbox[i].message.id.Some?
    case AppSend(_, _) => true
  }

  ghost function InsertStep(l: Link, t: nat): Link
    requires t < |l.calls| && |l.items| < ID_SPACE
  {
    var closed := Closed(l.calls);
    var c, table := l.calls[t], TableOf(l);
    var live := Unabandoned(l.items, closed);
    var inserted := Inserted(table, t, c.expected, closed);
    UnabandonedNotLarger(l.items, closed);
    var pruned := seq(|l.calls|, i requires 0 <= i < |l.calls| =>
      if Holds(l, i) && i in closed then WithRemoval(l.calls[i], Pruned) else l.calls[i]);
    l.(free := l.free + (|l.items| - |live|),
       items := inserted.items,
       cursor := inserted.cursor,
       calls := pruned[t := c.(phase := Sending, issue := Some(Issue(NextTicket(table, closed), |l.log|, None)))])
  }

  function CancelStep(l: Link, t: nat, outcome: Outcome<Packet>): Link
    requires t < |l.calls| && l.calls[t].issue.Some?
  {
    var id := IdOfCall(l, t);
    WithPhase(Removed(l, id, CancelledBy(t)).(free := l.free + if id in l.items then 1 else 0), t, Done(outcome))
  }

  function FrameStep(l: Link, p: Packet): Link {
    if p.message.id.None? then l.(reader := Forwarding(p)) else
    var id, opcode := p.message.id.value, p.message.msgType;
    var l := l.(log := l.log + [Arrival(id, opcode)]);
    match Classify(TableOf(l), id, opcode)
    case Answer(request) => Removed(l, id, Answered).(reader := Answering(request, p))
    case Undeclared => l.(items := Taken(TableOf(l), id, opcode).items, reader := Forwarding(p))
    case Unknown => l.(reader := Forwarding(p))
  }

  /** Handing the reply over; a caller that has given up swallows it, and the permit comes back either way. */
  function DeliverStep(l: Link): Link
    requires l.reader.Answering?
  {
    var t := l.reader.request.sender;
    l.(free := l.free + 1,
       reader := Idle,
       calls := if t < |l.calls| && !ReceiverGone(l.calls[t])
                then l.calls[t := l.calls[t].(reply := Some(l.reader.packet))] else l.calls)
  }

  ghost function Step(l: Link, e: Event): Link
    requires Enabled(l, e)
  {
    match e
    case Start(opcode, data, expected) =>
      l.(calls := l.calls + [Call(opcode, data, expected, Waiting, None, None)])
    case Acquire(t) => WithPhase(l.(free := l.free - 1), t, Permitted)
    case Insert(t) => InsertStep(l, t)
    case SendOk(t) => WithPhase(l, t, Parked)
    case SendErr(t, _) => WithPhase(l, t, Unsent)
    case CancelUnsent(t) => CancelStep(l, t, SendFailed)
    case Complete(t) => WithPhase(l, t, Done(Replied(l.calls[t].reply.value)))
    case Orphan(t) => WithPhase(l, t, Done(ChannelClosed))
    case Expire(t) => WithPhase(l, t, Expired)
    case CancelExpired(t) => CancelStep(l, t, Diagnosis(l, t))
    case Abandon(t) =>
      WithPhase(l.(free := l.free + if l.calls[t].phase.Permitted? then 1 else 0), t, Abandoned)
    case Frame(p) => FrameStep(l, p)
    case Deliver => DeliverStep(l)
    case Forward => l.(reader := Idle, queue := Enqueued(l.queue, l.listening, l.reader.packet))
    case StopReader => l.(reader := Stopped)
    case AppReceive => l.(queue := l.queue[1..], inbox := l.inbox + [l.queue[0]])
    case AppClose => l.(listening := false)
    case AppReply(_, _, _) => l
    case AppSend(_, _) => l
  }

  function RequestPacket(l: Link, t: nat): Packet
    requires t < |l.calls| && l.calls[t].issue.Some?
  {
    Packet(DigMessage(l.calls[t].opcode, Some(IdOfCall(l, t)), l.calls[t].data), RequestOf(t))
  }

  /** What the step writes to the wire; a sink that fails while flushing may have written the frame. */
  function Written(l: Link, e: Event): seq<Packet>
    requires Enabled(l, e)
  {
    match e
    case SendOk(t) => [RequestPacket(l, t)]
    case SendErr(t, written) => if written then [RequestPacket(l, t)] else []
    case AppReply(i, opcode, data) =>
      [Packet(DigMessage(opcode, l.inbox[i].message.id, data), ReplyTo(l.inbox[i].origin.call))]
    case AppSend(opcode, data) => [Packet(DigMessage(opcode, None, data), Unsolicited)]
    case _ => []
  }

  // ---------------------------------------------------------------------------------------------
  // The invariant
  // ---------------------------------------------------------------------------------------------

  function Holders(calls: seq<Call>): set<nat> {
    set t: nat | t < |calls| && calls[t].phase.Permitted?
  }

  /** Every permit is free, in the map, with a caller about to insert, or with a reply being handed over. */
  ghost predicate Permits(l: Link) {
    l.free + |l.items| + |Holders(l.calls)| + (if l.reader.Answering? then 1 else 0) == CAPACITY
  }

  /** The opcode of the last arrival on `id`. */
  function LastOn(arrivals: seq<Arrival>, id: u16): Option<byte> {
    if arrivals == [] then None else
    var last := arrivals[|arrivals| - 1];
    if last.id == id then Some(last.opcode) else LastOn(arrivals[..|arrivals| - 1], id)
  }

  /** What has arrived on the link since call `t` got its id. */
  function Since(l: Link, t: nat): seq<Arrival>
    requires t < |l.calls| && l.calls[t].issue.Some?
  {
    var at := l.calls[t].issue.value.at;
    if at <= |l.log| then l.log[at..] else []
  }

  predicate Issued(l: Link, t: nat) {
    t < |l.calls| && l.calls[t].issue.Some?
  }

  function Ticket(l: Link, t: nat): nat
    requires Issued(l, t)
  {
    l.calls[t].issue.value.ticket
  }

  predicate Leaving(l: Link, t: nat, removal: Option<Removal>) {
    Issued(l, t) && l.calls[t].issue.value.removal == removal
  }

  /** An entry is its caller's, and knows exactly the last undeclared opcode that arrived on its id. */
  ghost predicate EntryOk(l: Link, id: u16)
    requires id in l.items
  {
    var r := l.items[id];
    && Leaving(l, r.sender, None)
    && IdOf(Ticket(l, r.sender)) == id
    && r.expected == l.calls[r.sender].expected
    && r.undeclared == LastOn(Since(l, r.sender), id)
    && (forall a | a in Since(l, r.sender) && a.id == id :: a.opcode !in r.expected)
  }

  ghost predicate CallOk(l: Link, t: nat)
    requires t < |l.calls|
  {
    var c := l.calls[t];
    && (c.phase.Waiting? || c.phase.Permitted? ==> c.issue.None?)
    && (c.phase.Sending? || c.phase.Parked? || c.phase.Unsent? || c.phase.Expired? ==> c.issue.Some?)
    && (c.phase.Done? && c.phase.outcome.Replied? ==> c.reply == Some(c.phase.outcome.reply))
    && (c.reply.Some? ==> Leaving(l, t, Some(Answered)) && Matches(l, t, c.reply.value))
    && (c.issue.Some? ==> IssueOk(l, t))
  }

  /** The packet carries the call's id and an opcode it declared. */
  predicate Matches(l: Link, t: nat, p: Packet) {
    Issued(l, t) && p.message.id == Some(IdOf(Ticket(l, t))) && p.message.msgType in l.calls[t].expected
  }

  ghost predicate IssueOk(l: Link, t: nat)
    requires Issued(l, t)
  {
    var c, i := l.calls[t], l.calls[t].issue.value;
    && i.ticket < l.cursor && i.at <= |l.log|
    && (i.removal.None? ==> Holds(l, t))
    && (i.removal == Some(Pruned) ==> ReceiverGone(c))
    && (i.removal == Some(Answered) && !ReceiverGone(c) && c.reply.None? ==>
        l.reader.Answering? && l.reader.request.sender == t)
    && (i.removal.Some? && i.removal.value.CancelledBy? ==> OwnOrLapped(l, t, i.removal.value.call))
  }

  /** `who` is the call itself, or one that got the same id at least a lap of the cursor earlier. */
  ghost predicate OwnOrLapped(l: Link, t: nat, who: nat)
    requires Issued(l, t)
  {
    && Issued(l, who) && IdOf(Ticket(l, who)) == IdOf(Ticket(l, t))
    && (who == t || Ticket(l, who) + ID_SPACE <= Ticket(l, t))
  }

  /** No two calls were issued at one cursor position. */
  ghost predicate Apart(l: Link, t: nat, u: nat) {
    Issued(l, t) && Issued(l, u) && t != u ==> Ticket(l, t) != Ticket(l, u)
  }

  /** The entry under an id is the latest call that was issued it. */
  ghost predicate NoneLater(l: Link, id: u16, t: nat) {
    id in l.items && Issued(l, l.items[id].sender) && Issued(l, t) && IdOf(Ticket(l, t)) == id ==>
      Ticket(l, t) <= Ticket(l, l.items[id].sender)
  }

  ghost predicate Ordered(l: Link) {
    && (forall t: nat, u: nat :: Apart(l, t, u))
    && (forall id: u16, t: nat :: NoneLater(l, id, t))
  }

  ghost predicate ReaderOk(l: Link) {
    l.reader.Answering? ==>
      var t := l.reader.request.sender;
      Leaving(l, t, Some(Answered)) && l.calls[t].reply.None? && Matches(l, t, l.reader.packet)
  }

  ghost predicate Entries(l: Link) {
    forall id {:trigger EntryOk(l, id)} | id in l.items :: EntryOk(l, id)
  }

  ghost predicate Calls(l: Link) {
    forall t: nat | t < |l.calls| :: CallOk(l, t)
  }

  ghost predicate Inv(l: Link) {
    && Permits(l)
    && Entries(l)
    && Calls(l)
    && Ordered(l)
    && ReaderOk(l)
  }

  lemma InitialInv()
    ensures Inv(INITIAL)
  {
    assert Holders(INITIAL.calls) == {};
  }
}
