/** How every call of a link ends, over whole runs (`request_message` in src/link.rs). */
module LinkOutcomes {
  import opened Wire
  import opened RequestMaps
  import opened LinkMachine
  import opened LinkInvariant
  import opened LinkTheorems

  /** Call `t` is over in `l`, with `outcome`. */
  predicate EndedWith(l: Link, t: nat, outcome: Outcome<Packet>) {
    t < |l.calls| && l.calls[t].phase == Done(outcome)
  }

  /**
   * The step that ends call `t` with `outcome`: the reply it was given; a failed send; an expired deadline, with what its
   * own entry had recorded, or a timeout if nothing is left under its id; or a closed channel, because the entry was
   * cancelled by a call issued the same id at least a lap earlier.
   */
  ghost predicate Ends(l: Link, e: Event, t: nat, outcome: Outcome<Packet>) {
    && Issued(l, t)
    && match e
       case Complete(u) => u == t && l.calls[t].reply.Some? && outcome == Replied(l.calls[t].reply.value)
       case CancelUnsent(u) => u == t && outcome == SendFailed
       case CancelExpired(u) =>
         && u == t
         && (Holds(l, t) ==>
              forall found: byte :: outcome == InvalidResponse(l.calls[t].expected, found) <==> LastArrival(l, t, found))
         && (Holds(l, t) && (forall found: byte :: !LastArrival(l, t, found)) ==> outcome == RequestTimeout(l.calls[t].opcode))
         && (IdOfCall(l, t) !in l.items ==> outcome == RequestTimeout(l.calls[t].opcode))
         && (outcome.InvalidResponse? || outcome.RequestTimeout?)
       case Orphan(u) => u == t && outcome == ChannelClosed && OrphanedByAnother(l, t)
       case _ => false
  }

  ghost predicate OrphanedByAnother(l: Link, t: nat)
    requires Issued(l, t)
  {
    exists who: nat ::
      who != t && Leaving(l, t, Some(CancelledBy(who))) && Issued(l, who) && Ticket(l, who) + ID_SPACE <= Ticket(l, t)
  }

  /** A call that is not over after a step was not over before, so the step that ends it does so once and for all. */
  lemma StepEnds(links: seq<Link>, events: seq<Event>, i: nat, t: nat, outcome: Outcome<Packet>)
    requires IsRun(links, events) && i < |events|
    requires EndedWith(links[i + 1], t, outcome) && !EndedWith(links[i], t, outcome)
    ensures Ends(links[i], events[i], t, outcome)
  {
    RunKeepsInv(links, events, i);
    OnlyFourStepsEnd(links[i], events[i], t, outcome);
    assert CallOk(links[i], t);
    match events[i]
    case Orphan(_) => OrphanHasAReason(links, events, i, t);
    case CancelExpired(_) => ExpiredEnds(links, events, i, t, outcome);
    case _ =>
  }

  lemma OnlyFourStepsEnd(l: Link, e: Event, t: nat, outcome: Outcome<Packet>)
    requires Inv(l) && Enabled(l, e) && EndedWith(Step(l, e), t, outcome) && !EndedWith(l, t, outcome)
    ensures t < |l.calls|
    ensures e == Complete(t) || e == CancelUnsent(t) || e == CancelExpired(t) || e == Orphan(t)
    ensures e == Complete(t) ==> outcome == Replied(l.calls[t].reply.value)
    ensures e == CancelUnsent(t) ==> outcome == SendFailed
    ensures e == CancelExpired(t) ==> outcome == Diagnosis(l, t)
    ensures e == Orphan(t) ==> outcome == ChannelClosed
  {
    if e.Insert? {
      InsertKeepsPhases(l, e.call, t);
    } else if e.Frame? {
      FrameKeepsPhases(l, e.packet, t);
    } else if e.CancelUnsent? {
      CancelKeepsPhases(l, e.call, SendFailed, t);
    } else if e.CancelExpired? {
      CancelKeepsPhases(l, e.call, Diagnosis(l, e.call), t);
    } else {
      OnlyTwoOthersEnd(l, e, t, outcome);
    }
  }

  lemma OnlyTwoOthersEnd(l: Link, e: Event, t: nat, outcome: Outcome<Packet>)
    requires Enabled(l, e) && EndedWith(Step(l, e), t, outcome) && !EndedWith(l, t, outcome)
    requires !(e.Insert? || e.Frame? || e.CancelUnsent? || e.CancelExpired?)
    ensures t < |l.calls| && (e == Complete(t) || e == Orphan(t))
    ensures outcome == if e.Complete? then Replied(l.calls[t].reply.value) else ChannelClosed
  {
  }

  lemma FrameKeepsPhases(l: Link, p: Packet, t: nat)
    ensures |FrameStep(l, p).calls| == |l.calls|
    ensures t < |l.calls| ==> FrameStep(l, p).calls[t].phase == l.calls[t].phase
  {
  }

  lemma CancelKeepsPhases(l: Link, u: nat, outcome: Outcome<Packet>, t: nat)
    requires Issued(l, u)
    ensures |CancelStep(l, u, outcome).calls| == |l.calls|
    ensures t < |l.calls| ==> CancelStep(l, u, outcome).calls[t].phase == if u == t then Done(outcome) else l.calls[t].phase
  {
  }

  /** A parked call whose channel nobody holds was cancelled by another. */
  lemma OrphanHasAReason(links: seq<Link>, events: seq<Event>, i: nat, t: nat)
    requires IsRun(links, events) && i < |links| && Enabled(links[i], Orphan(t))
    ensures Issued(links[i], t) && OrphanedByAnother(links[i], t)
  {
    var l := links[i];
    RunKeepsInv(links, events, i);
    assert CallOk(l, t);
    var removal := l.calls[t].issue.value.removal;
    assert removal.Some? && removal.value.CancelledBy?;
    if removal.value.call == t {
      SelfCancelledIsOver(links, events, i, t);
    }
    assert OwnOrLapped(l, t, removal.value.call);
  }

  lemma RemovalsOf(l: Link, e: Event, t: nat)
    requires Inv(l) && Enabled(l, e) && Leaving(Step(l, e), t, Some(CancelledBy(t))) && !Leaving(l, t, Some(CancelledBy(t)))
    ensures e == CancelUnsent(t) || e == CancelExpired(t)
  {
    if e.Insert? {
      if e.call != t {
        InsertElsewhere(l, e.call, t);
      }
    } else if e.Frame? {
      FrameAnswersOnly(l, e.packet, t);
    } else if e.CancelUnsent? {
      CancelSaysWho(l, e.call, SendFailed, t);
    } else if e.CancelExpired? {
      CancelSaysWho(l, e.call, Diagnosis(l, e.call), t);
    } else {
      NoOtherRemoves(l, e, t);
    }
  }

  lemma NoOtherRemoves(l: Link, e: Event, t: nat)
    requires Enabled(l, e) && !(e.Insert? || e.Frame? || e.CancelUnsent? || e.CancelExpired?)
    requires Leaving(Step(l, e), t, Some(CancelledBy(t)))
    ensures Leaving(l, t, Some(CancelledBy(t)))
  {
  }

  lemma FrameAnswersOnly(l: Link, p: Packet, t: nat)
    requires Leaving(FrameStep(l, p), t, Some(CancelledBy(t)))
    ensures Leaving(l, t, Some(CancelledBy(t)))
  {
  }

  lemma CancelSaysWho(l: Link, u: nat, outcome: Outcome<Packet>, t: nat)
    requires Issued(l, u) && Leaving(CancelStep(l, u, outcome), t, Some(CancelledBy(t)))
    ensures u == t || Leaving(l, t, Some(CancelledBy(t)))
  {
  }

  /** A call whose own cancel took its entry is over. */
  ghost predicate SelfCancelledOver(l: Link, t: nat) {
    Leaving(l, t, Some(CancelledBy(t))) ==> l.calls[t].phase.Done?
  }

  lemma StepKeepsOver(l: Link, e: Event, t: nat)
    requires Inv(l) && Enabled(l, e) && SelfCancelledOver(l, t)
    ensures SelfCancelledOver(Step(l, e), t)
  {
    if Leaving(l, t, Some(CancelledBy(t))) {
      StepSettles(l, e, t);
    } else if Leaving(Step(l, e), t, Some(CancelledBy(t))) {
      RemovalsOf(l, e, t);
      CancelKeepsPhases(l, t, if e.CancelUnsent? then SendFailed else Diagnosis(l, t), t);
    }
  }

  lemma {:induction false} SelfCancelledIsOver(links: seq<Link>, events: seq<Event>, i: nat, t: nat)
    requires IsRun(links, events) && i < |links|
    ensures SelfCancelledOver(links[i], t)
  {
    if i > 0 {
      SelfCancelledIsOver(links, events, i - 1, t);
      RunKeepsInv(links, events, i - 1);
      RunStep(links, events, i - 1);
      StepKeepsOver(links[i - 1], events[i - 1], t);
    }
  }

  lemma ExpiredEnds(links: seq<Link>, events: seq<Event>, i: nat, t: nat, outcome: Outcome<Packet>)
    requires IsRun(links, events) && i < |events| && events[i] == CancelExpired(t)
    requires EndedWith(links[i + 1], t, outcome)
    ensures Ends(links[i], events[i], t, outcome)
  {
    CancelKeepsPhases(links[i], t, Diagnosis(links[i], t), t);
    if Holds(links[i], t) {
      ExactDiagnosis(links, events, i, t);
    }
  }

  lemma NotYetOver(links: seq<Link>, events: seq<Event>, i: nat, t: nat, outcome: Outcome<Packet>)
    requires IsRun(links, events) && i < |links| && EndedWith(links[i], t, outcome)
    ensures i > 0
  {
  }

  /** However long a call has been over, one step of the run ended it so. */
  lemma {:induction false} EndedByOneStep(links: seq<Link>, events: seq<Event>, i: nat, t: nat, outcome: Outcome<Packet>)
    returns (j: nat)
    requires IsRun(links, events) && i < |links| && EndedWith(links[i], t, outcome)
    ensures j < i && Ends(links[j], events[j], t, outcome)
  {
    NotYetOver(links, events, i, t, outcome);
    if EndedWith(links[i - 1], t, outcome) {
      j := EndedByOneStep(links, events, i - 1, t, outcome);
    } else {
      j := i - 1;
      StepEnds(links, events, j, t, outcome);
    }
  }

  /** The four steps that end a call. */
  predicate IsEnd(e: Event, t: nat) {
    e == Complete(t) || e == CancelUnsent(t) || e == CancelExpired(t) || e == Orphan(t)
  }

  /** And each of them does, for the rest of the run. */
  lemma OneStepEnds(links: seq<Link>, events: seq<Event>, j: nat, i: nat, t: nat) returns (outcome: Outcome<Packet>)
    requires IsRun(links, events) && j < i < |links| && IsEnd(events[j], t)
    ensures EndedWith(links[i], t, outcome) && Ends(links[j], events[j], t, outcome)
  {
    var l := links[j];
    RunKeepsInv(links, events, j);
    assert Enabled(l, events[j]) && CallOk(l, t);
    EndStepsEnd(l, events[j], t);
    outcome := links[j + 1].calls[t].phase.outcome;
    StepEnds(links, events, j, t, outcome);
    AtMostOnce(links, events, j + 1, i, t);
  }

  lemma EndStepsEnd(l: Link, e: Event, t: nat)
    requires Enabled(l, e) && IsEnd(e, t)
    ensures t < |l.calls| && !l.calls[t].phase.Done? && t < |Step(l, e).calls| && Step(l, e).calls[t].phase.Done?
  {
    match e
    case CancelUnsent(_) => CancelKeepsPhases(l, t, SendFailed, t);
    case CancelExpired(_) => CancelKeepsPhases(l, t, Diagnosis(l, t), t);
    case _ =>
  }

  /** A call reports a failed send exactly if it has cancelled unsent, and that only after its send has failed. */
  lemma SendFailedExactly(links: seq<Link>, events: seq<Event>, i: nat, t: nat)
    requires IsRun(links, events) && i < |links|
    ensures EndedWith(links[i], t, SendFailed) <==> CancelUnsent(t) in events[..i]
    ensures EndedWith(links[i], t, SendFailed) ==> exists written :: SendErr(t, written) in events[..i]
  {
    if EndedWith(links[i], t, SendFailed) {
      var j := EndedByOneStep(links, events, i, t, SendFailed);
      assert events[..i][j] == CancelUnsent(t);
      assert Enabled(links[j], events[j]);
      var k, written := UnsentHow(links, events, j, t);
      assert events[..i][k] == SendErr(t, written);
    }
    if CancelUnsent(t) in events[..i] {
      var j :| 0 <= j < i && events[j] == CancelUnsent(t);
      var outcome := OneStepEnds(links, events, j, i, t);
    }
  }

  /** A call reports a closed channel exactly if it has found it so, and that only because another's late cancel took its entry. */
  lemma ChannelClosedExactly(links: seq<Link>, events: seq<Event>, i: nat, t: nat)
    requires IsRun(links, events) && i < |links|
    ensures EndedWith(links[i], t, ChannelClosed) <==> Orphan(t) in events[..i]
    ensures EndedWith(links[i], t, ChannelClosed) ==> exists j | 0 <= j < i :: Issued(links[j], t) && OrphanedByAnother(links[j], t)
  {
    if EndedWith(links[i], t, ChannelClosed) {
      var j := EndedByOneStep(links, events, i, t, ChannelClosed);
      assert events[..i][j] == Orphan(t);
    }
    if Orphan(t) in events[..i] {
      var j :| 0 <= j < i && events[j] == Orphan(t);
      var outcome := OneStepEnds(links, events, j, i, t);
    }
  }

  /** The call reports that its time ran out, one way or the other. */
  ghost predicate RanOut(l: Link, t: nat) {
    t < |l.calls| && l.calls[t].phase.Done? && (l.calls[t].phase.outcome.InvalidResponse? || l.calls[t].phase.outcome.RequestTimeout?)
  }

  /** A call reports a timeout or an invalid response exactly if it has cancelled after its deadline, and its frame was sent. */
  lemma RanOutExactly(links: seq<Link>, events: seq<Event>, i: nat, t: nat)
    requires IsRun(links, events) && i < |links|
    ensures RanOut(links[i], t) <==> CancelExpired(t) in events[..i]
    ensures RanOut(links[i], t) ==> SendOk(t) in events[..i]
  {
    if RanOut(links[i], t) {
      var j := EndedByOneStep(links, events, i, t, links[i].calls[t].phase.outcome);
      assert events[..i][j] == CancelExpired(t);
      assert Enabled(links[j], events[j]);
      var k := ParkedHow(links, events, j, t);
      assert events[..i][k] == SendOk(t);
    }
    if CancelExpired(t) in events[..i] {
      var j :| 0 <= j < i && events[j] == CancelExpired(t);
      var outcome := OneStepEnds(links, events, j, i, t);
    }
  }

  lemma PhasesChange(l: Link, e: Event, t: nat)
    requires Inv(l) && Enabled(l, e) && t < |Step(l, e).calls|
    ensures Step(l, e).calls[t].phase.Unsent? ==>
              (t < |l.calls| && l.calls[t].phase.Unsent?) || (exists written :: e == SendErr(t, written))
    ensures Step(l, e).calls[t].phase.Parked? ==> (t < |l.calls| && l.calls[t].phase.Parked?) || e == SendOk(t)
    ensures Step(l, e).calls[t].phase.Expired? ==> t < |l.calls| && (l.calls[t].phase.Parked? || l.calls[t].phase.Expired?)
  {
    if e.Insert? {
      InsertKeepsPhases(l, e.call, t);
    } else if e.Frame? {
      FrameKeepsPhases(l, e.packet, t);
    } else if e.CancelUnsent? {
      CancelKeepsPhases(l, e.call, SendFailed, t);
    } else if e.CancelExpired? {
      CancelKeepsPhases(l, e.call, Diagnosis(l, e.call), t);
    } else {
      OtherPhasesChange(l, e, t);
    }
  }

  lemma InsertKeepsPhases(l: Link, u: nat, t: nat)
    requires Inv(l) && Enabled(l, Insert(u)) && t < |l.calls|
    ensures InsertStep(l, u).calls[t].phase == if u == t then LinkMachine.Sending else l.calls[t].phase
  {
    if u != t {
      InsertElsewhere(l, u, t);
    }
  }

  lemma OtherPhasesChange(l: Link, e: Event, t: nat)
    requires Enabled(l, e) && t < |Step(l, e).calls|
    requires !(e.Insert? || e.Frame? || e.CancelUnsent? || e.CancelExpired?)
    ensures Step(l, e).calls[t].phase.Unsent? ==>
              (t < |l.calls| && l.calls[t].phase.Unsent?) || (exists written :: e == SendErr(t, written))
    ensures Step(l, e).calls[t].phase.Parked? ==> (t < |l.calls| && l.calls[t].phase.Parked?) || e == SendOk(t)
    ensures Step(l, e).calls[t].phase.Expired? ==> t < |l.calls| && (l.calls[t].phase.Parked? || l.calls[t].phase.Expired?)
  {
    if e.SendErr? {
      assert e == SendErr(e.call, e.written);
    }
  }

  lemma {:induction false} UnsentHow(links: seq<Link>, events: seq<Event>, i: nat, t: nat) returns (k: nat, written: bool)
    requires IsRun(links, events) && i < |links| && t < |links[i].calls| && links[i].calls[t].phase.Unsent?
    ensures k < i && events[k] == SendErr(t, written)
  {
    RunKeepsInv(links, events, i - 1);
    PhasesChange(links[i - 1], events[i - 1], t);
    if t < |links[i - 1].calls| && links[i - 1].calls[t].phase.Unsent? {
      k, written := UnsentHow(links, events, i - 1, t);
    } else {
      k, written := i - 1, events[i - 1].written;
    }
  }

  lemma {:induction false} ParkedHow(links: seq<Link>, events: seq<Event>, i: nat, t: nat) returns (k: nat)
    requires IsRun(links, events) && i < |links| && t < |links[i].calls|
    requires links[i].calls[t].phase.Parked? || links[i].calls[t].phase.Expired?
    ensures k < i && events[k] == SendOk(t)
  {
    RunKeepsInv(links, events, i - 1);
    PhasesChange(links[i - 1], events[i - 1], t);
    if events[i - 1] == SendOk(t) {
      k := i - 1;
    } else {
      k := ParkedHow(links, events, i - 1, t);
    }
  }

  /** A reply handed to a caller that still waits is the one its call then has. */
  lemma HandedIsDelivered(links: seq<Link>, events: seq<Event>, i: nat, t: nat, p: Packet)
    requires IsRun(links, events) && i < |events| && events[i] == Deliver
    requires HandedTo(links[i], t, p) && !ReceiverGone(links[i].calls[t])
    ensures links[i + 1].calls[t].reply == Some(p)
  {
    assert links[i + 1] == DeliverStep(links[i]);
  }

  /** In every reachable state each caller that is not done can take its next step. */
  lemma NobodyIsStuck(links: seq<Link>, events: seq<Event>, i: nat, t: nat)
    requires IsRun(links, events) && i < |links| && t < |links[i].calls|
    ensures var l, c := links[i], links[i].calls[t];
            && (c.phase.Waiting? ==> (Enabled(l, Acquire(t)) <==> l.free > 0))
            && (c.phase.Permitted? ==> Enabled(l, Insert(t)))
            && (c.phase.Sending? ==> Enabled(l, SendOk(t)) && forall written :: Enabled(l, SendErr(t, written)))
            && (c.phase.Unsent? ==> Enabled(l, CancelUnsent(t)))
            && (c.phase.Parked? ==> Enabled(l, Expire(t)))
            && (c.phase.Parked? && c.reply.Some? ==> Enabled(l, Complete(t)))
            && (c.phase.Parked? && c.reply.None? ==> (Enabled(l, Orphan(t)) <==> TakenByCancel(c)))
            && (c.phase.Expired? ==> Enabled(l, CancelExpired(t)))
            && (!c.phase.Done? && !c.phase.Abandoned? ==> Enabled(l, Abandon(t)))
  {
    var l := links[i];
    RunKeepsInv(links, events, i);
    assert CallOk(l, t);
    if l.calls[t].phase.Permitted? {
      PermitConservation(links, events, i);
      assert t in Holders(l.calls);
    }
    if l.calls[t].phase.Parked? && l.calls[t].reply.None? {
      WaitingOrOrphaned(l, t);
    }
    CallerCanGoOn(l, t);
  }

  /** The call's entry was cancelled. */
  predicate TakenByCancel(c: Call) {
    c.issue.Some? && c.issue.value.removal.Some? && c.issue.value.removal.value.CancelledBy?
  }

  lemma CallerCanGoOn(l: Link, t: nat)
    requires t < |l.calls| && CallOk(l, t) && (l.calls[t].phase.Permitted? ==> |l.items| < ID_SPACE)
    ensures var c := l.calls[t];
            && (c.phase.Waiting? ==> (Enabled(l, Acquire(t)) <==> l.free > 0))
            && (c.phase.Permitted? ==> Enabled(l, Insert(t)))
            && (c.phase.Sending? ==> Enabled(l, SendOk(t)) && forall written :: Enabled(l, SendErr(t, written)))
            && (c.phase.Unsent? ==> Enabled(l, CancelUnsent(t)))
            && (c.phase.Parked? ==> Enabled(l, Expire(t)))
            && (c.phase.Parked? && c.reply.Some? ==> Enabled(l, Complete(t)))
            && (c.phase.Expired? ==> Enabled(l, CancelExpired(t)))
            && (!c.phase.Done? && !c.phase.Abandoned? ==> Enabled(l, Abandon(t)))
  {
  }

  /** So can the reader and the application. */
  lemma ReaderAndAppGoOn(l: Link)
    ensures forall p :: Enabled(l, Frame(p)) <==> l.reader.Idle?
    ensures Enabled(l, StopReader) <==> l.reader.Idle?
    ensures Enabled(l, Deliver) <==> l.reader.Answering?
    ensures Enabled(l, Forward) <==> l.reader.Forwarding?
    ensures Enabled(l, AppReceive) <==> l.queue != []
    ensures Enabled(l, AppClose)
  {
  }

  /** A parked call without a reply is in the map, is being answered, or has lost its entry to another's cancel. */
  lemma WaitingOrOrphaned(l: Link, t: nat)
    requires Inv(l) && t < |l.calls| && l.calls[t].phase.Parked? && l.calls[t].reply.None?
    ensures Enabled(l, Orphan(t)) <==> TakenByCancel(l.calls[t])
  {
    assert CallOk(l, t);
    if TakenByCancel(l.calls[t]) {
      forall id | id in l.items
        ensures l.items[id].sender != t
      {
        assert EntryOk(l, id);
      }
    }
  }
}
