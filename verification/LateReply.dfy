/**
 * Exactly how late a reply may come: within a lap of the cursor. Two links, and a reply one position later
 * (src/request_map.rs).
 */
module LateReply {
  import opened Wire
  import opened DigMessages
  import opened RequestMaps
  import opened LinkMachine
  import opened FacingLinks
  import Requesting

  const REPLIES: set<byte> := {1}
  const ASKED: Packet := Packet(DigMessage(0, Some(0), []), RequestOf(0))
  const LATE: Packet := Packet(DigMessage(1, Some(0), []), ReplyTo(0))
  const ASK: Event := Start(0, [], [1])

  /** The link has made `k` calls and has none outstanding. */
  ghost predicate Quiet(l: Link, k: nat) {
    && l.free == CAPACITY && l.items == map[] && l.cursor == k == |l.calls| && l.reader.Idle?
    && (k > 0 ==> Issued(l, 0) && Ticket(l, 0) == 0)
  }

  /** Call `k` has its id and is being sent. */
  ghost predicate Asking(l: Link, k: nat) {
    && l.free == CAPACITY - 1 && l.items == map[IdOf(k) := Request(k, [1], None)] && l.cursor == k + 1 == |l.calls|
    && l.reader.Idle? && l.calls[k].phase.Sending? && l.calls[k].reply.None?
    && Issued(l, 0) && Ticket(l, 0) == 0 && Issued(l, k) && Ticket(l, k) == k && l.calls[k].opcode == 0 && l.calls[k].data == []
  }

  ghost function Asked(l: Link, k: nat): Link
    requires Quiet(l, k)
  {
    Step(Step(l, ASK), Acquire(k))
  }

  lemma AskedIsAsking(l: Link, k: nat)
    requires Quiet(l, k)
    ensures Enabled(Step(l, ASK), Acquire(k)) && Enabled(Asked(l, k), Insert(k)) && Asking(Step(Asked(l, k), Insert(k)), k)
  {
    var l2 := Asked(l, k);
    var closed := Closed(l2.calls);
    assert Unabandoned(l2.items, closed) == map[];
    Requesting.PrunesAll(TableOf(l2), k, [1], closed);
  }

  /** A call whose send fails gives its id and permit back. */
  lemma GivenBack(l: Link, k: nat)
    requires Asking(l, k)
    ensures Enabled(l, SendErr(k, false)) && Enabled(Step(l, SendErr(k, false)), CancelUnsent(k))
    ensures Quiet(Step(Step(l, SendErr(k, false)), CancelUnsent(k)), k + 1)
  {
    assert l.items - {IdOf(k)} == map[];
  }

  /** So does one that runs out of time. */
  lemma TimedOut(l: Link, k: nat)
    requires Asking(l, k)
    ensures var l1 := Step(l, SendOk(k));
            && Enabled(l1, Expire(k)) && Enabled(Step(l1, Expire(k)), CancelExpired(k))
            && Quiet(Step(Step(l1, Expire(k)), CancelExpired(k)), k + 1)
  {
    assert l.items - {IdOf(k)} == map[];
  }

  /** A run under construction, as far as `n`, with no reply more than a lap and one position late. */
  ghost predicate Leads(nets: seq<Net>, events: seq<NetEvent>, n: Net) {
    IsNetRun(nets, events, REPLIES) && nets[|events|] == n && RepliesWithin(nets, events, ID_SPACE + 1)
  }

  lemma ExtendNet(nets: seq<Net>, events: seq<NetEvent>, n: Net, e: NetEvent)
    returns (nets': seq<Net>, events': seq<NetEvent>)
    requires Leads(nets, events, n) && Polite(e, REPLIES) && NetEnabled(n, e) && ReplyWithin(n, e, ID_SPACE + 1)
    ensures Leads(nets', events', NetStep(n, e))
  {
    nets', events' := nets + [NetStep(n, e)], events + [e];
    StillARun(nets, events, e);
    StillWithin(nets, events, e, NetStep(n, e), ID_SPACE + 1);
  }

  lemma StillARun(nets: seq<Net>, events: seq<NetEvent>, e: NetEvent)
    requires IsNetRun(nets, events, REPLIES) && Polite(e, REPLIES) && NetEnabled(nets[|events|], e)
    ensures IsNetRun(nets + [NetStep(nets[|events|], e)], events + [e], REPLIES)
  {
    var nets', events' := nets + [NetStep(nets[|events|], e)], events + [e];
    forall i | 0 <= i < |events'|
      ensures Polite(events'[i], REPLIES) && NetEnabled(nets'[i], events'[i]) && nets'[i + 1] == NetStep(nets'[i], events'[i])
    {
      if i < |events| {
        assert nets'[i] == nets[i] && nets'[i + 1] == nets[i + 1] && events'[i] == events[i];
      }
    }
  }

  lemma StillWithin(nets: seq<Net>, events: seq<NetEvent>, e: NetEvent, n: Net, lap: nat)
    requires |nets| == |events| + 1 && RepliesWithin(nets, events, lap) && ReplyWithin(nets[|events|], e, lap)
    ensures RepliesWithin(nets + [n], events + [e], lap)
  {
    var nets', events' := nets + [n], events + [e];
    forall i | 0 <= i < |events'|
      ensures ReplyWithin(nets'[i], events'[i], lap)
    {
      if i < |events| {
        assert ReplyWithin(nets[i], events[i], lap);
      }
    }
  }

  /** One step of the left link alone. */
  lemma ExtendLeft(nets: seq<Net>, events: seq<NetEvent>, n: Net, e: Event)
    returns (nets': seq<Net>, events': seq<NetEvent>, n': Net)
    requires Leads(nets, events, n) && !e.Frame? && Enabled(n.left, e) && Polite(Local(Left, e), REPLIES)
    ensures Leads(nets', events', n')
    ensures n' == Net(Step(n.left, e), n.right, n.toLeft, n.toRight + Written(n.left, e))
  {
    nets', events' := ExtendNet(nets, events, n, Local(Left, e));
    n' := NetStep(n, Local(Left, e));
  }

  /** The left link asks once more. */
  lemma AskOnce(nets: seq<Net>, events: seq<NetEvent>, n: Net, k: nat)
    returns (nets': seq<Net>, events': seq<NetEvent>, n': Net)
    requires Leads(nets, events, n) && Quiet(n.left, k)
    ensures Leads(nets', events', n') && Asking(n'.left, k)
    ensures n'.right == n.right && n'.toLeft == n.toLeft && n'.toRight == n.toRight
  {
    AskedIsAsking(n.left, k);
    nets', events', n' := ExtendLeft(nets, events, n, ASK);
    nets', events', n' := ExtendLeft(nets', events', n', Acquire(k));
    nets', events', n' := ExtendLeft(nets', events', n', Insert(k));
  }

  /** `k` calls are over on the left; the right application has received the first one's request and kept it. */
  ghost predicate Pending(n: Net, k: nat) {
    Quiet(n.left, k) && n.toLeft == [] && n.right.inbox == [ASKED]
  }

  lemma FirstCall() returns (nets: seq<Net>, events: seq<NetEvent>, n: Net)
    ensures Leads(nets, events, n) && Pending(n, 1)
  {
    nets, events, n := [INITIAL_NET], [], INITIAL_NET;
    nets, events, n := AskOnce(nets, events, n, 0);
    TimedOut(n.left, 0);
    nets, events, n := ExtendLeft(nets, events, n, SendOk(0));
    assert n.toRight == [ASKED];
    nets, events, n := ExtendLeft(nets, events, n, Expire(0));
    nets, events, n := ExtendLeft(nets, events, n, CancelExpired(0));
    nets, events, n := Received(nets, events, n);
  }

  lemma PassedOn(nets: seq<Net>, events: seq<NetEvent>, n: Net)
    returns (nets': seq<Net>, events': seq<NetEvent>, n': Net)
    requires Leads(nets, events, n) && n.right == INITIAL.(reader := Forwarding(ASKED), log := [Arrival(0, 0)])
    ensures Leads(nets', events', n')
    ensures n'.left == n.left && n'.toLeft == n.toLeft && n'.right.inbox == [ASKED]
  {
    nets', events' := ExtendNet(nets, events, n, Local(Right, Forward));
    n' := NetStep(n, Local(Right, Forward));
    assert n'.right.queue == [ASKED];
    nets', events' := ExtendNet(nets', events', n', Local(Right, AppReceive));
    n' := NetStep(n', Local(Right, AppReceive));
  }

  lemma Received(nets: seq<Net>, events: seq<NetEvent>, n: Net)
    returns (nets': seq<Net>, events': seq<NetEvent>, n': Net)
    requires Leads(nets, events, n) && n.right == INITIAL && n.toRight == [ASKED]
    ensures Leads(nets', events', n')
    ensures n'.left == n.left && n'.toLeft == n.toLeft && n'.right.inbox == [ASKED]
  {
    nets', events' := ExtendNet(nets, events, n, Arrive(Right));
    n' := NetStep(n, Arrive(Right));
    assert n'.right == INITIAL.(reader := Forwarding(ASKED), log := [Arrival(0, 0)]);
    nets', events', n' := PassedOn(nets', events', n');
  }

  lemma {:induction false} ManyCalls(k: nat) returns (nets: seq<Net>, events: seq<NetEvent>, n: Net)
    requires k >= 1
    ensures Leads(nets, events, n) && Pending(n, k)
  {
    if k == 1 {
      nets, events, n := FirstCall();
    } else {
      nets, events, n := ManyCalls(k - 1);
      nets, events, n := AskOnce(nets, events, n, k - 1);
      GivenBack(n.left, k - 1);
      nets, events, n := ExtendLeft(nets, events, n, SendErr(k - 1, false));
      nets, events, n := ExtendLeft(nets, events, n, CancelUnsent(k - 1));
    }
  }

  /** The late reply is delivered to the call that now has its id. */
  lemma Misdelivered(l: Link, k: nat)
    requires Asking(l, k) && IdOf(k) == 0
    ensures var l1 := Step(l, SendOk(k));
            var l2 := Step(l1, Frame(LATE));
            && Enabled(l1, Frame(LATE)) && Enabled(l2, Deliver) && Enabled(Step(l2, Deliver), Complete(k))
            && k < |Step(Step(l2, Deliver), Complete(k)).calls|
            && Step(Step(l2, Deliver), Complete(k)).calls[k].phase == Done(Replied(LATE))
  {
    var l2 := Step(Step(l, SendOk(k)), Frame(LATE));
    assert l2.reader == Answering(Request(k, [1], None), LATE);
    assert !ReceiverGone(l2.calls[k]);
  }

  /** The right application answers the first request now, and the reader on the left takes the reply. */
  lemma AnswerNow(nets: seq<Net>, events: seq<NetEvent>, n: Net)
    returns (nets': seq<Net>, events': seq<NetEvent>, n': Net)
    requires Leads(nets, events, n) && n.toLeft == [] && n.right.inbox == [ASKED] && n.left.reader.Idle?
    requires Issued(n.left, 0) && n.left.cursor <= Ticket(n.left, 0) + ID_SPACE + 1
    ensures Leads(nets', events', n') && n'.left == Step(n.left, Frame(LATE))
  {
    var reply := Local(Right, AppReply(0, 1, []));
    nets', events' := ExtendNet(nets, events, n, reply);
    n' := NetStep(n, reply);
    assert n'.toLeft == [LATE];
    nets', events' := ExtendNet(nets', events', n', Arrive(Left));
    n' := NetStep(n', Arrive(Left));
  }

  /** A run with no reply more than `lap` late in which call `t` is completed by a reply to another. */
  ghost predicate Mistaken(nets: seq<Net>, events: seq<NetEvent>, replies: set<byte>, lap: nat, s: Side, t: nat, p: Packet) {
    && IsNetRun(nets, events, replies) && RepliesWithin(nets, events, lap)
    && t < |nets[|events|].At(s).calls| && nets[|events|].At(s).calls[t].phase == Done(Replied(p))
    && p.origin != ReplyTo(t)
  }

  /**
   * Polite callers and honest applications are not enough: a reply that comes a lap and one position late completes the
   * call that has been issued its id since, and that call's caller cannot tell.
   */
  lemma LateReplyIsMistaken() returns (nets: seq<Net>, events: seq<NetEvent>, t: nat)
    ensures Mistaken(nets, events, REPLIES, ID_SPACE + 1, Left, t, LATE)
  {
    var n;
    t := ID_SPACE;
    nets, events, n := ManyCalls(t);
    nets, events, n := AskOnce(nets, events, n, t);
    Misdelivered(n.left, t);
    nets, events, n := ExtendLeft(nets, events, n, SendOk(t));
    nets, events, n := AnswerNow(nets, events, n);
    nets, events, n := ExtendLeft(nets, events, n, Deliver);
    nets, events, n := ExtendLeft(nets, events, n, Complete(t));
  }

  lemma NotMistaken(nets: seq<Net>, events: seq<NetEvent>, replies: set<byte>, lap: nat, s: Side, t: nat, p: Packet)
    requires lap <= ID_SPACE
    ensures !Mistaken(nets, events, replies, lap, s, t, p)
  {
    if Mistaken(nets, events, replies, lap, s, t, p) {
      LaterStill(nets, events, lap, ID_SPACE);
      EndToEndCorrelation(nets, events, replies, |events|, s, t, p);
    }
  }

  lemma LaterStill(nets: seq<Net>, events: seq<NetEvent>, lap: nat, more: nat)
    requires |nets| == |events| + 1 && RepliesWithin(nets, events, lap) && lap <= more
    ensures RepliesWithin(nets, events, more)
  {
    forall i | 0 <= i < |events|
      ensures ReplyWithin(nets[i], events[i], more)
    {
      assert ReplyWithin(nets[i], events[i], lap);
    }
  }

  /**
   * Over all runs of two facing links in which no reply comes more than `lap` cursor positions after its request, every
   * completed call has the reply to its own request if and only if that is at most a lap.
   */
  lemma CorrelationExactly(lap: nat)
    ensures (forall nets: seq<Net>, events: seq<NetEvent>, replies: set<byte>, s: Side, t: nat, p: Packet ::
              !Mistaken(nets, events, replies, lap, s, t, p)) <==>
            lap <= ID_SPACE
  {
    if lap <= ID_SPACE {
      forall nets: seq<Net>, events: seq<NetEvent>, replies: set<byte>, s: Side, t: nat, p: Packet
        ensures !Mistaken(nets, events, replies, lap, s, t, p)
      {
        NotMistaken(nets, events, replies, lap, s, t, p);
      }
    } else {
      var nets, events, t := LateReplyIsMistaken();
      LaterStill(nets, events, ID_SPACE + 1, lap);
      assert Mistaken(nets, events, REPLIES, lap, Left, t, LATE);
    }
  }
}
