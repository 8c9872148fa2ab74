/** What holds in every state a link can reach (src/request_map.rs, src/link.rs). */
module LinkTheorems {
  import opened Wire
  import opened RequestMaps
  import opened LinkMachine
  import opened LinkInvariant

  /** `links` are the states of a link through `events`, from a fresh link on. */
  ghost predicate IsRun(links: seq<Link>, events: seq<Event>) {
    && |links| == |events| + 1
    && links[0] == INITIAL
    && forall i {:trigger events[i]} | 0 <= i < |events| ::
         Enabled(links[i], events[i]) && links[i + 1] == Step(links[i], events[i])
  }

  lemma RunStep(links: seq<Link>, events: seq<Event>, i: nat)
    requires IsRun(links, events) && i < |events|
    ensures Enabled(links[i], events[i]) && links[i + 1] == Step(links[i], events[i])
  {
  }

  lemma {:induction false} RunKeepsInv(links: seq<Link>, events: seq<Event>, i: nat)
    requires IsRun(links, events) && i < |links|
    ensures Inv(links[i])
  {
    if i == 0 {
      InitialInv();
    } else {
      RunKeepsInv(links, events, i - 1);
      StepKeepsInv(links[i - 1], events[i - 1]);
    }
  }

  // ---------------------------------------------------------------------------------------------
  // Permits
  // ---------------------------------------------------------------------------------------------

  /**
   * In every reachable state all 65 535 permits are accounted for, so a caller with a permit finds at most
   * 65 534 entries: its insertion can always go ahead, and its search ends at an unused id within a lap.
   */
  lemma PermitConservation(links: seq<Link>, events: seq<Event>, i: nat)
    requires IsRun(links, events) && i < |links|
    ensures var l := links[i];
            && l.free + |l.items| + |Holders(l.calls)| + (if l.reader.Answering? then 1 else 0) == 65_535
            && forall t | t in Holders(l.calls) ::
                 |l.items| < 65_535 && Enabled(l, Insert(t)) &&
                 IdOf(NextTicket(TableOf(l), Closed(l.calls))) !in Unabandoned(l.items, Closed(l.calls))
  {
    RunKeepsInv(links, events, i);
    var l := links[i];
    forall t | t in Holders(l.calls)
      ensures |l.items| < CAPACITY
    {
      SubsetNotLarger({t}, Holders(l.calls));
    }
  }

  // ---------------------------------------------------------------------------------------------
  // Cancelling
  // ---------------------------------------------------------------------------------------------

  /** Fewer than a lap of requests has been issued since call `t` was. */
  predicate WithinLap(l: Link, t: nat) {
    Issued(l, t) && l.cursor <= Ticket(l, t) + ID_SPACE
  }

  /**
   * However others interleave, a cancel within a lap of its call's insertion takes out that call's own entry
   * or nothing at all, and touches no other call.
   */
  lemma CancelOwnership(links: seq<Link>, events: seq<Event>, i: nat, t: nat)
    requires IsRun(links, events) && i < |events|
    requires events[i] == CancelUnsent(t) || events[i] == CancelExpired(t)
    requires WithinLap(links[i], t)
    ensures var l, l' := links[i], links[i + 1];
            && (IdOfCall(l, t) in l.items ==> Holds(l, t))
            && l'.items == (if Holds(l, t) then l.items - {IdOfCall(l, t)} else l.items)
            && forall u: nat | u < |l.calls| && u != t :: l'.calls[u] == l.calls[u]
  {
    var l := links[i];
    RunKeepsInv(links, events, i);
    assert Enabled(l, events[i]);
    if IdOfCall(l, t) in l.items {
      HolderOwnOrLapped(l, t);
      var owner := l.items[IdOfCall(l, t)].sender;
      assert CallOk(l, owner);
    }
  }

  /** Who an entry was cancelled by, over any run: its own call, or one at least a lap older. */
  lemma CancelledByOwnOrLapped(links: seq<Link>, events: seq<Event>, i: nat, t: nat, who: nat)
    requires IsRun(links, events) && i < |links| && Leaving(links[i], t, Some(CancelledBy(who)))
    ensures who == t || (Issued(links[i], who) && Ticket(links[i], who) + ID_SPACE <= Ticket(links[i], t))
  {
    RunKeepsInv(links, events, i);
    assert CallOk(links[i], t);
  }

  // ---------------------------------------------------------------------------------------------
  // Diagnosis
  // ---------------------------------------------------------------------------------------------

  /** Some frame arrived on the call's id since its insertion, and `found` is the opcode of the last one. */
  ghost predicate LastArrival(l: Link, t: nat, found: byte)
    requires Issued(l, t)
  {
    var since, id := Since(l, t), IdOfCall(l, t);
    exists k | 0 <= k < |since| ::
      since[k] == Arrival(id, found) && forall j | k < j < |since| :: since[j].id != id
  }

  lemma {:induction false} LastOnExactly(arrivals: seq<Arrival>, id: u16, found: byte)
    ensures LastOn(arrivals, id) == Some(found) <==>
            exists k | 0 <= k < |arrivals| ::
              arrivals[k] == Arrival(id, found) && forall j | k < j < |arrivals| :: arrivals[j].id != id
  {
    if arrivals != [] {
      var n := |arrivals| - 1;
      LastOnExactly(arrivals[..n], id, found);
      if arrivals[n].id == id {
        if LastOn(arrivals, id) == Some(found) {
          assert arrivals[n] == Arrival(id, found);
        }
      } else if LastOn(arrivals, id) == Some(found) {
        var k :| 0 <= k < n && arrivals[..n][k] == Arrival(id, found) && forall j | k < j < n :: arrivals[..n][j].id != id;
        assert arrivals[k] == Arrival(id, found);
      } else {
        forall k | 0 <= k < |arrivals| && arrivals[k] == Arrival(id, found)
          ensures exists j | k < j < |arrivals| :: arrivals[j].id == id
        {
          assert arrivals[..n][k] == Arrival(id, found);
          var j :| k < j < n && arrivals[..n][j].id == id;
          assert arrivals[j].id == id;
        }
      }
    }
  }

  /**
   * An expired call whose entry is still there reports `InvalidResponse` exactly when something arrived on
   * its id since it was inserted, naming what it declared and the last such opcode; otherwise a timeout.
   */
  lemma ExactDiagnosis(links: seq<Link>, events: seq<Event>, i: nat, t: nat)
    requires IsRun(links, events) && i < |events|
    requires events[i] == CancelExpired(t) && Holds(links[i], t)
    ensures var l, c := links[i], links[i].calls[t];
            var outcome := links[i + 1].calls[t].phase.outcome;
            && (forall found: byte :: outcome == InvalidResponse(c.expected, found) <==> LastArrival(l, t, found))
            && (outcome == RequestTimeout(c.opcode) <==> forall found: byte :: !LastArrival(l, t, found))
            && (outcome == RequestTimeout(c.opcode) || (outcome.InvalidResponse? && outcome.expected == c.expected))
            && (forall found: byte | LastArrival(l, t, found) :: found !in c.expected)
  {
    var l, id := links[i], IdOfCall(links[i], t);
    RunKeepsInv(links, events, i);
    assert Enabled(l, events[i]);
    assert EntryOk(l, id);
    forall found: byte
      ensures LastArrival(l, t, found) <==> LastOn(Since(l, t), id) == Some(found)
    {
      LastOnExactly(Since(l, t), id, found);
    }
    if LastOn(Since(l, t), id).Some? {
      assert LastArrival(l, t, LastOn(Since(l, t), id).value);
    }
  }

  /** An undeclared opcode on a live id neither completes nor evicts the waiter: it is recorded, and passed on. */
  lemma UndeclaredNeverAnswers(links: seq<Link>, events: seq<Event>, i: nat, t: nat, p: Packet)
    requires IsRun(links, events) && i < |events| && events[i] == Frame(p)
    requires Holds(links[i], t) && p.message.id == Some(IdOfCall(links[i], t))
    requires p.message.msgType !in links[i].calls[t].expected
    ensures Holds(links[i + 1], t) && links[i + 1].calls == links[i].calls
    ensures links[i + 1].reader == Forwarding(p)
    ensures links[i + 1].items[IdOfCall(links[i], t)].undeclared == Some(p.message.msgType)
  {
    RunKeepsInv(links, events, i);
    assert Enabled(links[i], events[i]);
    assert EntryOk(links[i], IdOfCall(links[i], t));
  }

  // ---------------------------------------------------------------------------------------------
  // No honest reply is lost
  // ---------------------------------------------------------------------------------------------

  /** Why a call's entry is no longer there: it was answered, its own cancel took it, or its caller had given up. */
  ghost predicate RightlyGone(l: Link, t: nat) {
    Issued(l, t) && var removal := l.calls[t].issue.value.removal;
    && removal.Some?
    && match removal.value
       case Answered => true
       case Pruned => ReceiverGone(l.calls[t])
       case CancelledBy(who) => who == t || (Issued(l, who) && Ticket(l, who) + ID_SPACE <= Ticket(l, t))
  }

  /** The reader is about to hand `p` to call `t`. */
  ghost predicate HandedTo(l: Link, t: nat, p: Packet) {
    l.reader.Answering? && l.reader.request.sender == t && l.reader.packet == p && Leaving(l, t, Some(Answered))
  }

  /**
   * A reply with a call's id and a declared opcode is handed to that very call exactly if the call's entry is
   * still there; otherwise the entry has already been answered, cancelled, or pruned after its caller gave up.
   * No lap condition is needed.
   */
  lemma NoHonestReplyLost(links: seq<Link>, events: seq<Event>, i: nat, t: nat, p: Packet)
    requires IsRun(links, events) && i < |events| && events[i] == Frame(p) && Matches(links[i], t, p)
    ensures HandedTo(links[i + 1], t, p) <==> Leaving(links[i], t, None)
    ensures HandedTo(links[i + 1], t, p) || RightlyGone(links[i], t)
  {
    RunKeepsInv(links, events, i);
    assert Enabled(links[i], events[i]);
    ReplyFindsItsCall(links[i], t, p);
  }

  lemma ReplyFindsItsCall(l: Link, t: nat, p: Packet)
    requires Inv(l) && l.reader.Idle? && Matches(l, t, p)
    ensures HandedTo(FrameStep(l, p), t, p) <==> Leaving(l, t, None)
    ensures HandedTo(FrameStep(l, p), t, p) || RightlyGone(l, t)
  {
    assert CallOk(l, t);
    if l.calls[t].issue.value.removal.None? {
      assert EntryOk(l, IdOfCall(l, t));
    } else {
      RemovedNotHeld(l, t);
    }
  }

  /** A frame that finds no waiter under a call's id finds that call's entry rightly gone. */
  lemma UnknownMeansGone(links: seq<Link>, events: seq<Event>, i: nat, t: nat, opcode: byte)
    requires IsRun(links, events) && i < |links| && Issued(links[i], t)
    requires Classify(TableOf(links[i]), IdOfCall(links[i], t), opcode) == Unknown
    ensures RightlyGone(links[i], t)
  {
    RunKeepsInv(links, events, i);
    assert CallOk(links[i], t);
  }

  // ---------------------------------------------------------------------------------------------
  // Once and for all
  // ---------------------------------------------------------------------------------------------

  /** What is settled about a call stays settled. */
  ghost predicate Settled(c: Call, c': Call) {
    && c'.opcode == c.opcode && c'.expected == c.expected && c'.data == c.data
    && (c.reply.Some? ==> c'.reply == c.reply)
    && (c.phase.Done? ==> c'.phase == c.phase)
    && (c.issue.Some? ==> c'.issue.Some? && c'.issue.value.ticket == c.issue.value.ticket)
    && (c.issue.Some? && c.issue.value.removal.Some? ==> c'.issue == c.issue)
  }

  lemma StepSettles(l: Link, e: Event, t: nat)
    requires Inv(l) && Enabled(l, e) && t < |l.calls|
    ensures t < |Step(l, e).calls| && Settled(l.calls[t], Step(l, e).calls[t])
  {
    assert CallOk(l, t);
    match e
    case Insert(u) => InsertSettles(l, u, t);
    case CancelUnsent(u) => CancelSettles(l, u, SendFailed, t);
    case CancelExpired(u) => CancelSettles(l, u, Diagnosis(l, u), t);
    case Frame(p) => FrameSettles(l, p, t);
    case Deliver => DeliverSettles(l, t);
    case _ => OtherwiseSettles(l, e, t);
  }

  lemma OtherwiseSettles(l: Link, e: Event, t: nat)
    requires Enabled(l, e) && t < |l.calls|
    requires !(e.Insert? || e.CancelUnsent? || e.CancelExpired? || e.Frame? || e.Deliver?)
    ensures t < |Step(l, e).calls| && Settled(l.calls[t], Step(l, e).calls[t])
  {
  }

  lemma DeliverSettles(l: Link, t: nat)
    requires Inv(l) && l.reader.Answering? && t < |l.calls|
    ensures Settled(l.calls[t], DeliverStep(l).calls[t])
  {
  }

  lemma InsertSettles(l: Link, u: nat, t: nat)
    requires Inv(l) && Enabled(l, Insert(u)) && t < |l.calls| && CallOk(l, t)
    ensures Settled(l.calls[t], InsertStep(l, u).calls[t])
  {
    if u != t {
      InsertElsewhere(l, u, t);
      if Issued(l, t) && l.calls[t].issue.value.removal.Some? {
        RemovedNotHeld(l, t);
      }
    }
  }

  lemma FrameSettles(l: Link, p: Packet, t: nat)
    requires Inv(l) && t < |l.calls|
    ensures |FrameStep(l, p).calls| == |l.calls| && Settled(l.calls[t], FrameStep(l, p).calls[t])
  {
    if p.message.id.Some? && p.message.id.value in l.items {
      assert EntryOk(l, p.message.id.value);
    }
  }

  lemma CancelSettles(l: Link, u: nat, outcome: Outcome<Packet>, t: nat)
    requires Inv(l) && Issued(l, u) && t < |l.calls| && (u == t ==> !l.calls[t].phase.Done?)
    ensures Settled(l.calls[t], CancelStep(l, u, outcome).calls[t])
  {
    var id := IdOfCall(l, u);
    if id in l.items {
      assert EntryOk(l, id);
    }
  }

  /** A call is answered at most once, leaves the map at most once, and finishes at most once, whatever follows. */
  lemma {:induction false} AtMostOnce(links: seq<Link>, events: seq<Event>, i: nat, j: nat, t: nat)
    requires IsRun(links, events) && i <= j < |links| && t < |links[i].calls|
    ensures t < |links[j].calls| && Settled(links[i].calls[t], links[j].calls[t])
    decreases j
  {
    if i < j {
      AtMostOnce(links, events, i, j - 1, t);
      RunKeepsInv(links, events, j - 1);
      StepSettles(links[j - 1], events[j - 1], t);
    }
  }
}
