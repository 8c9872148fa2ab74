/** Every step of a link keeps its invariant (src/request_map.rs, src/link.rs). */
module LinkInvariant {
  import opened Wire
  import opened RequestMaps
  import opened LinkMachine

  // ---------------------------------------------------------------------------------------------
  // Order of issue
  // ---------------------------------------------------------------------------------------------

  /** The two states agree on which calls were issued, and where. */
  ghost predicate SameTickets(l: Link, l': Link) {
    && (forall t :: Issued(l', t) <==> Issued(l, t))
    && (forall t | Issued(l, t) :: Ticket(l', t) == Ticket(l, t))
  }

  /** Every entry left is one that was there before. */
  ghost predicate FewerEntries(l: Link, l': Link) {
    forall id | id in l'.items :: id in l.items && l'.items[id].sender == l.items[id].sender
  }

  lemma OrderCarries(l: Link, l': Link)
    requires Ordered(l) && SameTickets(l, l') && FewerEntries(l, l')
    ensures Ordered(l')
  {
    forall t: nat, u: nat
      ensures Apart(l', t, u)
    {
      assert Apart(l, t, u);
    }
    forall id: u16, t: nat
      ensures NoneLater(l', id, t)
    {
      assert NoneLater(l, id, t);
    }
  }

  /** Entries stay as they should be while no call's id or declaration changes and nothing arrives. */
  lemma EntriesCarry(l: Link, l': Link)
    requires Entries(l) && l'.items == l.items && l'.log == l.log && |l.calls| <= |l'.calls|
    requires forall t: nat | t < |l.calls| ::
               l'.calls[t].issue == l.calls[t].issue && l'.calls[t].expected == l.calls[t].expected
    ensures Entries(l')
  {
    forall id | id in l.items
      ensures EntryOk(l', id)
    {
      assert EntryOk(l, id);
    }
  }

  // ---------------------------------------------------------------------------------------------
  // Steps that only move a caller along
  // ---------------------------------------------------------------------------------------------

  function Weight(c: Call): nat {
    if c.phase.Permitted? then 1 else 0
  }

  lemma HoldersUpdate(calls: seq<Call>, t: nat, c: Call)
    requires t < |calls|
    ensures |Holders(calls[t := c])| == |Holders(calls)| - Weight(calls[t]) + Weight(c)
  {
    var rest := Holders(calls) - {t};
    assert Holders(calls) == if calls[t].phase.Permitted? then rest + {t} else rest;
    assert Holders(calls[t := c]) == if c.phase.Permitted? then rest + {t} else rest;
  }

  /** A phase a call may move to, given what it has so far. */
  predicate MayBecome(c: Call, phase: Phase) {
    && (c.issue.None? ==> phase.Permitted? || phase.Abandoned?)
    && (c.issue.Some? ==> !phase.Waiting? && !phase.Permitted?)
    && (ReceiverGone(c) ==> ReceiverGone(c.(phase := phase)))
    && (phase.Done? && phase.outcome.Replied? ==> c.reply == Some(phase.outcome.reply))
  }

  lemma PhaseKeepsCalls(l: Link, t: nat, phase: Phase, free: nat)
    requires Calls(l) && t < |l.calls| && MayBecome(l.calls[t], phase)
    ensures Calls(WithPhase(l.(free := free), t, phase))
  {
    var l' := WithPhase(l.(free := free), t, phase);
    forall u: nat | u < |l.calls|
      ensures CallOk(l', u)
    {
      assert CallOk(l, u);
    }
  }

  lemma PhaseKeepsInv(l: Link, t: nat, phase: Phase, free: nat)
    requires Inv(l) && t < |l.calls| && MayBecome(l.calls[t], phase)
    requires free + Weight(l.calls[t].(phase := phase)) == l.free + Weight(l.calls[t])
    ensures Inv(WithPhase(l.(free := free), t, phase))
  {
    var l' := WithPhase(l.(free := free), t, phase);
    HoldersUpdate(l.calls, t, l.calls[t].(phase := phase));
    PhaseKeepsCalls(l, t, phase, free);
    EntriesCarry(l, l');
    OrderCarries(l, l');
  }

  lemma StartKeepsInv(l: Link, opcode: byte, data: seq<byte>, expected: seq<byte>)
    requires Inv(l)
    ensures Inv(Step(l, Start(opcode, data, expected)))
  {
    var l' := Step(l, Start(opcode, data, expected));
    assert Holders(l'.calls) == Holders(l.calls);
    forall u: nat | u < |l'.calls|
      ensures CallOk(l', u)
    {
      if u < |l.calls| {
        assert CallOk(l, u);
      }
    }
    EntriesCarry(l, l');
    OrderCarries(l, l');
  }

  // ---------------------------------------------------------------------------------------------
  // Removing an entry
  // ---------------------------------------------------------------------------------------------

  /** Removing an entry disturbs no call but its owner, and no other entry. */
  lemma RemovalKeepsOthers(l: Link, id: u16, removal: Removal)
    requires Inv(l) && id in l.items
    ensures var l', t := Removed(l, id, removal), l.items[id].sender;
            && (forall u: nat | u < |l.calls| && u != t :: CallOk(l', u))
            && Ordered(l')
  {
    var l', t := Removed(l, id, removal), l.items[id].sender;
    assert EntryOk(l, id);
    forall u: nat | u < |l.calls| && u != t
      ensures CallOk(l', u)
    {
      assert CallOk(l, u);
    }
    OrderCarries(l, l');
  }

  lemma RemovalKeepsEntries(l: Link, id: u16, removal: Removal)
    requires Inv(l) && id in l.items
    ensures var l' := Removed(l, id, removal);
            Entries(l')
  {
    var l' := Removed(l, id, removal);
    assert EntryOk(l, id);
    forall other | other in l'.items
      ensures EntryOk(l', other)
    {
      assert EntryOk(l, other);
    }
  }

  /** Whoever holds a call's id now is the call itself or was issued the id at least a lap later. */
  lemma HolderOwnOrLapped(l: Link, t: nat)
    requires Inv(l) && Issued(l, t) && IdOfCall(l, t) in l.items
    ensures var owner := l.items[IdOfCall(l, t)].sender; Issued(l, owner) && OwnOrLapped(l, owner, t)
  {
    var id := IdOfCall(l, t);
    var owner := l.items[id].sender;
    assert EntryOk(l, id);
    assert Apart(l, t, owner) && NoneLater(l, id, t);
    if owner != t {
      WholeLaps(Ticket(l, t), Ticket(l, owner));
    }
  }

  lemma RemovalKeepsPermits(l: Link, id: u16, removal: Removal)
    requires Inv(l) && id in l.items
    ensures var l' := Removed(l, id, removal);
            |l'.items| == |l.items| - 1 && Holders(l'.calls) == Holders(l.calls)
  {
    RemoveOne(l.items, id);
    assert EntryOk(l, id);
  }

  lemma CancelOwnerOk(l: Link, id: u16, t: nat)
    requires Inv(l) && id in l.items && EntryOk(l, id) && OwnOrLapped(l, l.items[id].sender, t)
    ensures CallOk(Removed(l, id, CancelledBy(t)), l.items[id].sender)
  {
    assert EntryOk(l, id);
    assert CallOk(l, l.items[id].sender);
  }

  lemma CancelledEntryInv(l: Link, id: u16, t: nat)
    requires Inv(l) && id in l.items && EntryOk(l, id) && OwnOrLapped(l, l.items[id].sender, t)
    ensures Inv(Removed(l, id, CancelledBy(t)).(free := l.free + 1))
  {
    RemovalKeepsOthers(l, id, CancelledBy(t));
    RemovalKeepsEntries(l, id, CancelledBy(t));
    RemovalKeepsPermits(l, id, CancelledBy(t));
    CancelOwnerOk(l, id, t);
    FreeIrrelevant(Removed(l, id, CancelledBy(t)), l.free + 1);
  }

  lemma CancelKeepsInv(l: Link, t: nat, outcome: Outcome<Packet>)
    requires Inv(l) && Issued(l, t) && !outcome.Replied?
    ensures Inv(CancelStep(l, t, outcome))
  {
    var id := IdOfCall(l, t);
    var l1 := Removed(l, id, CancelledBy(t)).(free := l.free + if id in l.items then 1 else 0);
    if id in l.items {
      HolderOwnOrLapped(l, t);
      assert EntryOk(l, id);
      CancelledEntryInv(l, id, t);
    }
    assert CallOk(l1, t);
    PhaseKeepsInv(l1, t, Done(outcome), l1.free);
    assert l1.(free := l1.free) == l1;
  }

  lemma FreeIrrelevant(l: Link, free: nat)
    requires Entries(l) && Calls(l)
    requires Ordered(l) && ReaderOk(l) && Permits(l.(free := free))
    ensures Inv(l.(free := free))
  {
    var l' := l.(free := free);
    EntriesCarry(l, l');
    forall t: nat | t < |l'.calls|
      ensures CallOk(l', t)
    {
      assert CallOk(l, t);
    }
    OrderCarries(l, l');
  }

  // ---------------------------------------------------------------------------------------------
  // Frames
  // ---------------------------------------------------------------------------------------------

  lemma LastOnAppend(arrivals: seq<Arrival>, a: Arrival, id: u16)
    ensures LastOn(arrivals + [a], id) == if a.id == id then Some(a.opcode) else LastOn(arrivals, id)
  {
    assert (arrivals + [a])[..|arrivals|] == arrivals;
  }

  /** One more arrival: what has arrived since a call got its id grows by it. */
  lemma SinceGrows(l: Link, l': Link, t: nat, a: Arrival)
    requires Issued(l, t) && Issued(l', t) && l'.calls[t].issue.value.at == l.calls[t].issue.value.at <= |l.log|
    requires l'.log == l.log + [a]
    ensures Since(l', t) == Since(l, t) + [a]
  {
  }

  lemma ArrivalKeepsEntry(l: Link, l': Link, a: Arrival, id: u16)
    requires Inv(l) && id in l.items && EntryOk(l, id) && id in l'.items && l'.log == l.log + [a]
    requires var t := l.items[id].sender; t < |l'.calls| && l'.calls[t] == l.calls[t]
    requires l'.items[id] == if a.id != id then l.items[id] else l.items[id].(undeclared := Some(a.opcode))
    requires a.id == id ==> a.opcode !in l.items[id].expected
    ensures EntryOk(l', id)
  {
    var t := l.items[id].sender;
    assert EntryOk(l, id) && CallOk(l, t);
    SinceGrows(l, l', t, a);
    LastOnAppend(Since(l, t), a, id);
  }

  lemma UnansweredKeepsCalls(l: Link, p: Packet)
    requires Inv(l) && l.reader.Idle? && FrameStep(l, p).reader.Forwarding?
    ensures var l' := FrameStep(l, p);
            l'.calls == l.calls && Calls(l')
  {
    var l' := FrameStep(l, p);
    forall u: nat | u < |l.calls|
      ensures CallOk(l', u)
    {
      assert CallOk(l, u);
    }
  }

  lemma UnansweredKeepsEntry(l: Link, p: Packet, id: u16)
    requires Inv(l) && l.reader.Idle? && FrameStep(l, p).reader.Forwarding? && id in l.items
    ensures id in FrameStep(l, p).items && EntryOk(FrameStep(l, p), id)
  {
    var l' := FrameStep(l, p);
    assert EntryOk(l, id);
    if p.message.id.Some? {
      ArrivalKeepsEntry(l, l', Arrival(p.message.id.value, p.message.msgType), id);
    }
  }

  lemma UnansweredKeepsKeys(l: Link, p: Packet)
    requires FrameStep(l, p).reader.Forwarding?
    ensures FrameStep(l, p).items.Keys == l.items.Keys && |FrameStep(l, p).items| == |l.items|
    ensures FewerEntries(l, FrameStep(l, p))
  {
    assert FrameStep(l, p).items.Keys == l.items.Keys;
    assert |FrameStep(l, p).items.Keys| == |l.items.Keys|;
  }

  lemma UnansweredKeepsInv(l: Link, p: Packet)
    requires Inv(l) && l.reader.Idle? && FrameStep(l, p).reader.Forwarding?
    ensures Inv(FrameStep(l, p))
  {
    var l' := FrameStep(l, p);
    UnansweredKeepsKeys(l, p);
    assert Permits(l') && ReaderOk(l');
    assert SameTickets(l, l');
    OrderCarries(l, l');
    UnansweredKeepsCalls(l, p);
    forall id | id in l'.items
      ensures EntryOk(l', id)
    {
      UnansweredKeepsEntry(l, p, id);
    }
  }

  lemma AnsweredKeepsEntries(l: Link, p: Packet)
    requires Inv(l) && FrameStep(l, p).reader.Answering? && !l.reader.Answering?
    ensures var l' := FrameStep(l, p);
            Entries(l') && Ordered(l')
  {
    var l', id := FrameStep(l, p), p.message.id.value;
    assert EntryOk(l, id);
    forall other | other in l'.items
      ensures EntryOk(l', other)
    {
      assert EntryOk(l, other);
      ArrivalKeepsEntry(l, l', Arrival(id, p.message.msgType), other);
    }
    OrderCarries(l, l');
  }

  lemma AnsweredKeepsCalls(l: Link, p: Packet)
    requires Inv(l) && l.reader.Idle? && FrameStep(l, p).reader.Answering?
    ensures var l' := FrameStep(l, p); Calls(l')
  {
    var l', id := FrameStep(l, p), p.message.id.value;
    assert EntryOk(l, id);
    forall u: nat | u < |l'.calls|
      ensures CallOk(l', u)
    {
      assert CallOk(l, u);
    }
  }

  lemma FrameKeepsInv(l: Link, p: Packet)
    requires Inv(l) && l.reader.Idle?
    ensures Inv(FrameStep(l, p))
  {
    if FrameStep(l, p).reader.Answering? {
      var id := p.message.id.value;
      AnsweredKeepsEntries(l, p);
      AnsweredKeepsCalls(l, p);
      RemovalKeepsPermits(l, id, Answered);
      assert EntryOk(l, id) && CallOk(l, l.items[id].sender);
    } else {
      UnansweredKeepsInv(l, p);
    }
  }

  lemma DeliverKeepsCalls(l: Link)
    requires Calls(l) && ReaderOk(l) && l.reader.Answering?
    ensures Calls(DeliverStep(l))
  {
    var l' := DeliverStep(l);
    assert CallOk(l, l.reader.request.sender);
    forall u: nat | u < |l.calls|
      ensures CallOk(l', u)
    {
      assert CallOk(l, u);
    }
  }

  lemma DeliverKeepsHolders(l: Link)
    requires l.reader.Answering?
    ensures Holders(DeliverStep(l).calls) == Holders(l.calls)
  {
  }

  lemma DeliverKeepsInv(l: Link)
    requires Inv(l) && l.reader.Answering?
    ensures Inv(DeliverStep(l))
  {
    var l' := DeliverStep(l);
    DeliverKeepsCalls(l);
    EntriesCarry(l, l');
    DeliverKeepsHolders(l);
    OrderCarries(l, l');
  }

  // ---------------------------------------------------------------------------------------------
  // Insert
  // ---------------------------------------------------------------------------------------------

  /** What insertion does to another call: nothing, unless its entry is pruned. */
  lemma InsertElsewhere(l: Link, t: nat, u: nat)
    requires t < |l.calls| && |l.items| < ID_SPACE && u < |l.calls| && u != t
    ensures InsertStep(l, t).calls[u] ==
            if Holds(l, u) && ReceiverGone(l.calls[u]) then WithRemoval(l.calls[u], Pruned) else l.calls[u]
  {
  }

  lemma InsertKeepsHeld(l: Link, t: nat, u: nat)
    requires Inv(l) && t < |l.calls| && l.calls[t].phase.Permitted? && |l.items| < ID_SPACE
    requires u < |l.calls| && u != t && Holds(l, u) && !ReceiverGone(l.calls[u])
    ensures Holds(InsertStep(l, t), u)
  {
    InsertElsewhere(l, t, u);
    assert u !in Closed(l.calls);
    assert IdOfCall(l, u) in Unabandoned(l.items, Closed(l.calls));
  }

  lemma InsertKeepsCall(l: Link, t: nat, u: nat)
    requires Inv(l) && t < |l.calls| && l.calls[t].phase.Permitted? && |l.items| < ID_SPACE
    requires u < |l.calls| && u != t
    ensures CallOk(InsertStep(l, t), u)
    ensures Issued(InsertStep(l, t), u) <==> Issued(l, u)
    ensures Issued(l, u) ==> Ticket(InsertStep(l, t), u) == Ticket(l, u)
  {
    InsertElsewhere(l, t, u);
    assert CallOk(l, u);
    if Holds(l, u) {
      assert EntryOk(l, IdOfCall(l, u));
      if !ReceiverGone(l.calls[u]) {
        InsertKeepsHeld(l, t, u);
      }
    }
    if Issued(l, u) {
      InsertKeepsIssue(l, t, u);
    }
  }

  lemma InsertKeepsIssue(l: Link, t: nat, u: nat)
    requires Inv(l) && t < |l.calls| && l.calls[t].phase.Permitted? && |l.items| < ID_SPACE
    requires Issued(l, u) && u != t
    ensures IssueOk(InsertStep(l, t), u)
  {
    var l' := InsertStep(l, t);
    InsertElsewhere(l, t, u);
    assert CallOk(l, u) && CallOk(l, t);
    var removal := l.calls[u].issue.value.removal;
    if removal.None? {
      if !ReceiverGone(l.calls[u]) {
        InsertKeepsHeld(l, t, u);
      }
    } else {
      RemovedNotHeld(l, u);
      if removal.value.CancelledBy? {
        InsertElsewhere(l, t, removal.value.call);
      }
    }
  }

  lemma InsertKeepsEntry(l: Link, t: nat, id: u16)
    requires Inv(l) && t < |l.calls| && l.calls[t].phase.Permitted? && |l.items| < ID_SPACE
    requires id in InsertStep(l, t).items
    ensures EntryOk(InsertStep(l, t), id)
  {
    var l' := InsertStep(l, t);
    var ticket := NextTicket(TableOf(l), Closed(l.calls));
    if id == IdOf(ticket) {
      assert Since(l', t) == [];
    } else {
      var u := l.items[id].sender;
      assert EntryOk(l, id) && CallOk(l, u) && CallOk(l, t);
      assert u in Closed(l.calls) <==> ReceiverGone(l.calls[u]);
    }
  }

  lemma InsertKeepsOrder(l: Link, t: nat)
    requires Inv(l) && t < |l.calls| && l.calls[t].phase.Permitted? && |l.items| < ID_SPACE
    ensures Ordered(InsertStep(l, t))
  {
    var l' := InsertStep(l, t);
    var ticket := NextTicket(TableOf(l), Closed(l.calls));
    assert Ticket(l', t) == ticket >= l.cursor;
    forall u: nat | Issued(l', u) && u != t
      ensures Issued(l, u) && Ticket(l', u) == Ticket(l, u) < l.cursor
    {
      InsertKeepsCall(l, t, u);
      assert CallOk(l, u);
    }
    forall u: nat, v: nat
      ensures Apart(l', u, v)
    {
      assert Apart(l, u, v);
    }
    forall id: u16, u: nat
      ensures NoneLater(l', id, u)
    {
      assert NoneLater(l, id, u);
      if id in l'.items && id != IdOf(ticket) {
        assert EntryOk(l, id) && CallOk(l, t);
      }
    }
  }

  lemma InsertKeepsPermits(l: Link, t: nat)
    requires Inv(l) && t < |l.calls| && l.calls[t].phase.Permitted? && |l.items| < ID_SPACE
    ensures Permits(InsertStep(l, t))
  {
    var l' := InsertStep(l, t);
    var closed := Closed(l.calls);
    var live, ticket := Unabandoned(l.items, closed), NextTicket(TableOf(l), closed);
    UnabandonedNotLarger(l.items, closed);
    AddOne(live, IdOf(ticket), Request(t, l.calls[t].expected, None));
    assert Holders(l'.calls) == Holders(l.calls) - {t};
  }

  lemma InsertKeepsInv(l: Link, t: nat)
    requires Inv(l) && t < |l.calls| && l.calls[t].phase.Permitted? && |l.items| < ID_SPACE
    ensures Inv(InsertStep(l, t))
  {
    var l' := InsertStep(l, t);
    assert CallOk(l, t);
    forall u: nat | u < |l'.calls|
      ensures CallOk(l', u)
    {
      if u != t {
        InsertKeepsCall(l, t, u);
      }
    }
    forall id | id in l'.items
      ensures EntryOk(l', id)
    {
      InsertKeepsEntry(l, t, id);
    }
    InsertKeepsOrder(l, t);
    InsertKeepsPermits(l, t);
    if l.reader.Answering? {
      var u := l.reader.request.sender;
      InsertKeepsCall(l, t, u);
      RemovedNotHeld(l, u);
    }
  }

  lemma RemovedNotHeld(l: Link, t: nat)
    requires Inv(l) && Issued(l, t) && l.calls[t].issue.value.removal.Some?
    ensures !Holds(l, t)
  {
    if IdOfCall(l, t) in l.items {
      assert EntryOk(l, IdOfCall(l, t));
    }
  }

  // ---------------------------------------------------------------------------------------------
  // All steps
  // ---------------------------------------------------------------------------------------------

  /** Every step keeps the invariant. */
  lemma StepKeepsInv(l: Link, e: Event)
    requires Inv(l) && Enabled(l, e)
    ensures Inv(Step(l, e))
  {
    match e
    case Start(opcode, data, expected) => StartKeepsInv(l, opcode, data, expected);
    case Insert(t) => InsertKeepsInv(l, t);
    case CancelUnsent(t) => CancelKeepsInv(l, t, SendFailed);
    case CancelExpired(t) => CancelKeepsInv(l, t, Diagnosis(l, t));
    case Frame(p) => FrameKeepsInv(l, p);
    case Deliver => DeliverKeepsInv(l);
    case Forward => ReaderMoveKeepsInv(l, Step(l, e));
    case StopReader => ReaderMoveKeepsInv(l, Step(l, e));
    case AppReceive => ReaderMoveKeepsInv(l, Step(l, e));
    case AppClose => ReaderMoveKeepsInv(l, Step(l, e));
    case AppReply(_, _, _) =>
    case AppSend(_, _) =>
    case _ => CallerMoveKeepsInv(l, e);
  }

  /** The steps that only move a caller from one phase to the next. */
  lemma CallerMoveKeepsInv(l: Link, e: Event)
    requires Inv(l) && Enabled(l, e)
    requires e.Acquire? || e.SendOk? || e.SendErr? || e.Complete? || e.Orphan? || e.Expire? || e.Abandon?
    ensures Inv(Step(l, e))
  {
    assert CallOk(l, e.call);
    match e
    case Acquire(t) => PhaseKeepsInv(l, t, Permitted, l.free - 1);
    case SendOk(t) => MoveKeepsInv(l, t, Parked);
    case SendErr(t, _) => MoveKeepsInv(l, t, Unsent);
    case Complete(t) => MoveKeepsInv(l, t, Done(Replied(l.calls[t].reply.value)));
    case Orphan(t) => MoveKeepsInv(l, t, Done(ChannelClosed));
    case Expire(t) => MoveKeepsInv(l, t, Expired);
    case Abandon(t) => PhaseKeepsInv(l, t, Abandoned, l.free + if l.calls[t].phase.Permitted? then 1 else 0);
  }

  lemma MoveKeepsInv(l: Link, t: nat, phase: Phase)
    requires Inv(l) && t < |l.calls| && MayBecome(l.calls[t], phase)
    requires Weight(l.calls[t]) == 0 && !phase.Permitted?
    ensures Inv(WithPhase(l, t, phase))
  {
    PhaseKeepsInv(l, t, phase, l.free);
    assert l.(free := l.free) == l;
  }

  /** Nothing in the invariant speaks of the application's side, or of a reader that is not handing a reply over. */
  lemma ReaderMoveKeepsInv(l: Link, l': Link)
    requires Inv(l)
    requires l'.free == l.free && l'.items == l.items && l'.cursor == l.cursor && l'.calls == l.calls && l'.log == l.log
    requires l'.reader == l.reader || (!l.reader.Answering? && !l'.reader.Answering?)
    ensures Inv(l')
  {
    forall t: nat | t < |l.calls|
      ensures CallOk(l', t)
    {
      assert CallOk(l, t);
    }
    EntriesCarry(l, l');
    OrderCarries(l, l');
  }
}
