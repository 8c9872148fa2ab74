/**
 * The life of one request (`request_message` in src/link.rs): register, send, wait under a deadline, reclaim the id.
 *
 * A script says what the other tasks do to the request map at each point where this one waits: for a permit, while
 * its frame is being sent, for the reply, and between its deadline, when its receiver is dropped, and its cancel.
 */
module Requesting {
  import opened Wire
  import opened DigMessages
  import opened RateLimits
  import opened RequestMaps
  import opened MapRuns
  import opened IdReuse
  import opened Sending

  /**
   * What the others do while this task waits for a permit, sends, waits for the reply, and is late; `closed` are
   * the senders whose receivers are gone when the request is registered.
   */
  datatype Script = Script(queued: seq<Op>, closed: set<nat>, sending: seq<Op>, waiting: seq<Op>, late: seq<Op>)

  /** What the send loop meets on the way. */
  datatype Sendoff = Sendoff(timeout: nat, started: nat, schedule: nat -> Attempt, sinkAccepts: bool)

  /** The map still has the request whose reply goes to `sender`, under `id`; its channel is open for as long. */
  predicate Keeps(t: Table, id: u16, sender: nat) {
    id in t.items && t.items[id].sender == sender
  }

  predicate IsAnswered(t: Table, op: Op, sender: nat) {
    op.Take? && Classify(t, op.id, op.opcode).Answer? && Classify(t, op.id, op.opcode).request.sender == sender
  }

  /** The opcode of the first frame of a run that `sender` is answered with. */
  ghost function AnswerTo(t: Table, ops: seq<Op>, sender: nat): Option<byte> {
    if ops == [] then None else
    var n := |ops| - 1;
    var earlier := AnswerTo(t, ops[..n], sender);
    if earlier.Some? then earlier
    else if IsAnswered(Replay(t, ops[..n]), ops[n], sender) then Some(ops[n].opcode)
    else None
  }

  /** Other tasks use the map; `answer` is what the channel of `sender` then holds. */
  method Meanwhile(requests: RequestMap, ops: seq<Op>, sender: nat) returns (answer: Option<byte>)
    requires requests.Valid() && requests.outstanding == 0
    modifies requests
    ensures requests.Valid() && requests.outstanding == 0
    ensures requests.Contents() == Replay(old(requests.Contents()), ops)
    ensures answer == AnswerTo(old(requests.Contents()), ops, sender)
  {
    ghost var t := requests.Contents();
    answer := None;
    for i := 0 to |ops|
      invariant requests.Valid() && requests.outstanding == 0
      invariant requests.Contents() == Replay(t, ops[..i])
      invariant answer == AnswerTo(t, ops[..i], sender)
    {
      assert ops[..i + 1][..i] == ops[..i];
      var request := if ops[i].Take? && ops[i].id in requests.items then Some(requests.items[ops[i].id]) else None;
      if request.Some? && ops[i].opcode in request.value.expected && request.value.sender == sender && answer.None? {
        answer := Some(ops[i].opcode);
      }
      Perform(requests, ops[i]);
    }
    assert ops[..|ops|] == ops;
  }

  /** The table once the request is registered. */
  ghost function Registered(t: Table, sender: nat, expected: seq<byte>, s: Script): Table {
    Apply(t, Insert(sender, expected, s.closed))
  }

  /** The table when a caller gets its permit, or, if it gets none, at the end of `queued`; and whether it gets one. */
  ghost function Waited(t: Table, queued: seq<Op>, i: nat): (Table, bool)
    requires i <= |queued|
    decreases |queued| - i
  {
    if |t.items| < CAPACITY then (t, true)
    else if i == |queued| then (t, false)
    else Waited(Apply(t, queued[i]), queued, i + 1)
  }

  /** The `k`-th operation of `queued` is the first before which there are fewer than 65 535 requests. */
  ghost predicate PermitAt(t: Table, queued: seq<Op>, k: nat) {
    && k <= |queued| && |Replay(t, queued[..k]).items| < 65_535
    && forall j: nat | j < k :: |Replay(t, queued[..j]).items| >= 65_535
  }

  /** `at` is the table at that point. */
  ghost predicate ServedAt(t: Table, queued: seq<Op>, at: Table) {
    exists k: nat :: PermitAt(t, queued, k) && at == Replay(t, queued[..k])
  }

  /** Each table of a run. */
  ghost function TablesOf(t: Table, queued: seq<Op>): (tables: seq<Table>)
    ensures |tables| == |queued| + 1 && forall j | 0 <= j <= |queued| :: tables[j] == Replay(t, queued[..j])
  {
    seq(|queued| + 1, j requires 0 <= j <= |queued| => Replay(t, queued[..j]))
  }

  lemma TableAfter(t: Table, queued: seq<Op>, j: nat)
    requires j < |queued|
    ensures TablesOf(t, queued)[j + 1] == Apply(TablesOf(t, queued)[j], queued[j])
  {
    assert queued[..j + 1][..j] == queued[..j];
  }

  /** The wait ends with the first table that has room, and goes through everything if there is none. */
  lemma {:induction false} WaitedFrom(tables: seq<Table>, queued: seq<Op>, i: nat) returns (k: nat)
    requires i <= |queued| && |tables| == |queued| + 1
    requires forall j: nat | j < |queued| :: tables[j + 1] == Apply(tables[j], queued[j])
    requires forall j: nat | j < i :: |tables[j].items| >= CAPACITY
    ensures k <= |queued| && Waited(tables[i], queued, i) == (tables[k], |tables[k].items| < CAPACITY)
    ensures forall j: nat | j < k :: |tables[j].items| >= CAPACITY
    ensures |tables[k].items| >= CAPACITY ==> k == |queued|
    decreases |queued| - i
  {
    k := i;
    if |tables[i].items| >= CAPACITY && i < |queued| {
      k := WaitedFrom(tables, queued, i + 1);
    }
  }

  lemma WaitedTo(t: Table, queued: seq<Op>) returns (k: nat)
    ensures k <= |queued|
    ensures Waited(t, queued, 0) == (Replay(t, queued[..k]), |Replay(t, queued[..k]).items| < 65_535)
    ensures forall j: nat | j < k :: |Replay(t, queued[..j]).items| >= 65_535
    ensures |Replay(t, queued[..k]).items| >= 65_535 ==> k == |queued|
  {
    var tables := TablesOf(t, queued);
    assert queued[..0] == [] && tables[0] == t;
    forall j: nat | j < |queued|
      ensures tables[j + 1] == Apply(tables[j], queued[j])
    {
      TableAfter(t, queued, j);
    }
    k := WaitedFrom(tables, queued, 0);
    forall j: nat | j < k
      ensures |Replay(t, queued[..j]).items| >= 65_535
    {
      assert tables[j] == Replay(t, queued[..j]);
    }
  }

  ghost predicate NeverAPermit(t: Table, queued: seq<Op>) {
    forall j: nat | j <= |queued| :: |Replay(t, queued[..j]).items| >= 65_535
  }

  lemma GrantedAt(t: Table, queued: seq<Op>, k: nat, at: Table)
    requires k <= |queued| && at == Replay(t, queued[..k]) && |at.items| < 65_535
    requires forall j: nat | j < k :: |Replay(t, queued[..j]).items| >= 65_535
    ensures PermitAt(t, queued, k) && ServedAt(t, queued, at)
  {
    assert PermitAt(t, queued, k);
  }

  lemma NotGranted(t: Table, queued: seq<Op>, at: Table)
    requires at == Replay(t, queued[..|queued|]) && |at.items| >= 65_535
    requires forall j: nat | j < |queued| :: |Replay(t, queued[..j]).items| >= 65_535
    ensures NeverAPermit(t, queued) && at == Replay(t, queued)
    ensures !exists k: nat :: PermitAt(t, queued, k)
  {
    assert queued[..|queued|] == queued;
  }

  /** Whoever waits is served with the first permit there is, and with none only if there never is one. */
  lemma ServedAtTheFirstPermit(t: Table, queued: seq<Op>)
    ensures Waited(t, queued, 0).1 <==> exists k: nat :: PermitAt(t, queued, k)
    ensures Waited(t, queued, 0).1 ==> ServedAt(t, queued, Waited(t, queued, 0).0)
    ensures !Waited(t, queued, 0).1 ==> Waited(t, queued, 0).0 == Replay(t, queued)
  {
    var (at, granted) := Waited(t, queued, 0);
    var k := WaitedTo(t, queued);
    if granted {
      GrantedAt(t, queued, k, at);
    } else {
      NotGranted(t, queued, at);
    }
  }

  /** So a request gets its id, and runs its course, from the table in which the first permit is free. */
  lemma RequestFromTheFirstPermit(t: Table, sender: nat, opcode: byte, expected: seq<byte>, s: Script, failed: bool, k: nat)
    requires PermitAt(t, s.queued, k)
    ensures var at := Replay(t, s.queued[..k]);
            && GivenId(t, s) == IdOf(NextTicket(at, s.closed))
            && Whole(t, sender, opcode, expected, s, failed) ==
               (Course(at, sender, opcode, expected, s, failed).0, Some(Course(at, sender, opcode, expected, s, failed).1))
  {
    var j := WaitedTo(t, s.queued);
    assert j >= k;
    assert j <= k;
    CourseFrom(t, sender, opcode, expected, s, failed, Replay(t, s.queued[..k]));
  }

  lemma CourseFrom(t: Table, sender: nat, opcode: byte, expected: seq<byte>, s: Script, failed: bool, at: Table)
    requires Waited(t, s.queued, 0) == (at, true) && |at.items| < CAPACITY
    ensures GivenId(t, s) == IdOf(NextTicket(at, s.closed))
    ensures Whole(t, sender, opcode, expected, s, failed) ==
            (Course(at, sender, opcode, expected, s, failed).0, Some(Course(at, sender, opcode, expected, s, failed).1))
  {
  }

  /** With no permit to be had, nothing is registered. */
  lemma NoPermitNoRequest(t: Table, sender: nat, opcode: byte, expected: seq<byte>, s: Script, failed: bool)
    requires NeverAPermit(t, s.queued)
    ensures Whole(t, sender, opcode, expected, s, failed) == (Replay(t, s.queued), None)
  {
    ServedAtTheFirstPermit(t, s.queued);
  }

  /** Wait for a permit, for as long as `queued` lasts. */
  method AwaitPermit(requests: RequestMap, queued: seq<Op>) returns (granted: bool)
    requires requests.Valid() && requests.outstanding == 0
    modifies requests
    ensures requests.Valid() && requests.outstanding == if granted then 1 else 0
    ensures (requests.Contents(), granted) == Waited(old(requests.Contents()), queued, 0)
    ensures granted <==> exists k: nat :: PermitAt(old(requests.Contents()), queued, k)
    ensures granted ==> ServedAt(old(requests.Contents()), queued, requests.Contents())
    ensures !granted ==> requests.Contents() == Replay(old(requests.Contents()), queued)
  {
    ghost var t := requests.Contents();
    var i := 0;
    ServedAtTheFirstPermit(t, queued);
    granted := requests.Acquire();
    while !granted && i < |queued|
      invariant i <= |queued|
      invariant requests.Valid() && requests.outstanding == if granted then 1 else 0
      invariant granted ==> |requests.items| < CAPACITY
      invariant !granted ==> |requests.items| == CAPACITY
      invariant Waited(t, queued, 0) == Waited(requests.Contents(), queued, i)
      decreases |queued| - i, !granted
    {
      Perform(requests, queued[i]);
      i := i + 1;
      granted := requests.Acquire();
    }
  }

  /** The id a request gets once it has a permit. */
  ghost function GivenId(t: Table, s: Script): u16 {
    var (at, granted) := Waited(t, s.queued, 0);
    if |at.items| < CAPACITY then IdOf(NextTicket(at, s.closed)) else 0
  }

  /** The whole of a request, the send loop included. */
  method RequestMessage(requests: RequestMap, limiter: OpcodeRateLimiter, sender: nat, opcode: byte, data: seq<byte>,
                        expected: seq<byte>, s: Script, send: Sendoff)
    returns (outcome: Option<Outcome<byte>>, sent: SendOutcome, handed: seq<seq<byte>>)
    requires requests.Valid() && requests.outstanding == 0
    requires limiter.Valid() && Sleeps(send.schedule, send.started)
    modifies requests, limiter
    ensures requests.Valid() && requests.outstanding == 0 && limiter.Valid()
    ensures (requests.Contents(), outcome) == Whole(old(requests.Contents()), sender, opcode, expected, s, sent != Sent)
    ensures outcome.None? ==> limiter.Contents() == old(limiter.Contents()) && handed == []
    ensures outcome.Some? ==> handed == if sent.Sent? || sent.SinkFailed?
                                        then [Encode(DigMessage(opcode, Some(GivenId(old(requests.Contents()), s)), data))] else []
    ensures outcome.Some? ==>
              SentAs(limiter.Setting(), old(limiter.Contents()),
                     DigMessage(opcode, Some(GivenId(old(requests.Contents()), s)), data),
                     send.schedule, send.started + send.timeout, send.sinkAccepts, limiter.Contents(), sent)
  {
    sent := Sent;
    var granted := AwaitPermit(requests, s.queued);
    if !granted {
      return None, sent, [];
    }
    WaitedFits(old(requests.Contents()), s.queued, 0);
    var end;
    end, sent, handed := Pursue(requests, limiter, sender, opcode, data, expected, s, send);
    outcome := Some(end);
  }

  /** The rest of it, once there is a permit. */
  method Pursue(requests: RequestMap, limiter: OpcodeRateLimiter, sender: nat, opcode: byte, data: seq<byte>,
                expected: seq<byte>, s: Script, send: Sendoff)
    returns (outcome: Outcome<byte>, sent: SendOutcome, handed: seq<seq<byte>>)
    requires requests.Valid() && requests.outstanding == 1 && |requests.items| < CAPACITY
    requires limiter.Valid() && Sleeps(send.schedule, send.started)
    modifies requests, limiter
    ensures requests.Valid() && requests.outstanding == 0 && limiter.Valid()
    ensures (requests.Contents(), outcome) == Course(old(requests.Contents()), sender, opcode, expected, s, sent != Sent)
    ensures SentAs(limiter.Setting(), old(limiter.Contents()),
                   DigMessage(opcode, Some(IdOf(NextTicket(old(requests.Contents()), s.closed))), data),
                   send.schedule, send.started + send.timeout, send.sinkAccepts, limiter.Contents(), sent)
    ensures handed == if sent.Sent? || sent.SinkFailed?
                      then [Encode(DigMessage(opcode, Some(IdOf(NextTicket(old(requests.Contents()), s.closed))), data))] else []
  {
    var id := requests.Insert(sender, expected, s.closed);
    sent, handed := SendRequest(limiter, DigMessage(opcode, Some(id), data), send);
    outcome := AwaitReply(requests, id, sender, opcode, s, sent != Sent);
  }

  method SendRequest(limiter: OpcodeRateLimiter, m: DigMessage, send: Sendoff)
    returns (sent: SendOutcome, handed: seq<seq<byte>>)
    requires limiter.Valid() && Sleeps(send.schedule, send.started)
    modifies limiter
    ensures limiter.Valid()
    ensures SentAs(limiter.Setting(), old(limiter.Contents()), m, send.schedule, send.started + send.timeout,
                   send.sinkAccepts, limiter.Contents(), sent)
    ensures handed == if sent.Sent? || sent.SinkFailed? then [Encode(m)] else []
  {
    var attempts;
    sent, attempts, handed := SendMessage(limiter, m, send.timeout, send.started, send.schedule, send.sinkAccepts);
  }

  /** What follows once the request is registered and its frame sent or not. */
  method AwaitReply(requests: RequestMap, id: u16, sender: nat, opcode: byte, s: Script, failed: bool)
    returns (outcome: Outcome<byte>)
    requires requests.Valid() && requests.outstanding == 0
    modifies requests
    ensures requests.Valid() && requests.outstanding == 0
    ensures (requests.Contents(), outcome) == Aftermath(old(requests.Contents()), id, sender, opcode, s, failed)
  {
    var early := Meanwhile(requests, s.sending, sender);
    if failed {
      var _ := CancelOwn(requests, id);
      return SendFailed;
    }
    var answer := Meanwhile(requests, s.waiting, sender);
    answer := if early.Some? then early else answer;
    if answer.Some? {
      return Replied(answer.value);
    }
    if !(id in requests.items && requests.items[id].sender == sender) {
      return ChannelClosed;
    }
    var _ := Meanwhile(requests, s.late, sender);
    var removed := CancelOwn(requests, id);
    outcome := RequestTimeout(opcode);
    if removed.Some? {
      var diagnosis := removed.value.IntoDiagnosis();
      if diagnosis.Some? {
        outcome := InvalidResponse(diagnosis.value.0, diagnosis.value.1);
      }
    }
  }

  /** Cancel, and drop what was removed together with its permit. */
  method CancelOwn(requests: RequestMap, id: u16) returns (removed: Option<Request>)
    requires requests.Valid() && requests.outstanding == 0
    modifies requests
    ensures requests.Valid() && requests.outstanding == 0
    ensures requests.Contents() == Cancelled(old(requests.Contents()), id)
    ensures removed == Under(old(requests.Contents()), id)
  {
    removed := requests.Cancel(id);
    if removed.Some? {
      requests.Release();
    }
  }

  /** How a registered request ends, and the table it leaves. */
  ghost function Aftermath(t1: Table, id: u16, sender: nat, opcode: byte, s: Script, failed: bool): (Table, Outcome<byte>) {
    var t2 := Replay(t1, s.sending);
    if failed then (Cancelled(t2, id), SendFailed) else
    var t3, early := Replay(t2, s.waiting), AnswerTo(t1, s.sending, sender);
    var answer := if early.Some? then early else AnswerTo(t2, s.waiting, sender);
    if answer.Some? then (t3, Replied(answer.value))
    else if !Keeps(t3, id, sender) then (t3, ChannelClosed)
    else
      var t4 := Replay(t3, s.late);
      (Cancelled(t4, id), Report(Under(t4, id), opcode))
  }

  /** How a request ends that has got its permit in `t`, and the table it leaves. */
  ghost function Course(t: Table, sender: nat, opcode: byte, expected: seq<byte>, s: Script, failed: bool): (Table, Outcome<byte>)
    requires |t.items| < CAPACITY
  {
    Aftermath(Registered(t, sender, expected, s), IdOf(NextTicket(t, s.closed)), sender, opcode, s, failed)
  }

  /** From the wait for a permit on; `None` if that is not over when `queued` is. */
  ghost function Whole(t: Table, sender: nat, opcode: byte, expected: seq<byte>, s: Script, failed: bool): (Table, Option<Outcome<byte>>) {
    WaitedFits(t, s.queued, 0);
    var (at, granted) := Waited(t, s.queued, 0);
    if !granted then (at, None) else
    var (end, outcome) := Course(at, sender, opcode, expected, s, failed);
    (end, Some(outcome))
  }

  lemma {:induction false} WaitedFits(t: Table, queued: seq<Op>, i: nat)
    requires i <= |queued|
    ensures Waited(t, queued, i).1 ==> |Waited(t, queued, i).0.items| < CAPACITY
    decreases |queued| - i
  {
    if |t.items| >= CAPACITY && i < |queued| {
      WaitedFits(Apply(t, queued[i]), queued, i + 1);
    }
  }

  // ---------------------------------------------------------------------------------------------
  // One entry through a run of other tasks' operations
  // ---------------------------------------------------------------------------------------------

  /** No entry belongs to `sender`. */
  predicate Gone(t: Table, sender: nat) {
    forall j | j in t.items :: t.items[j].sender != sender
  }

  predicate OnlyAt(t: Table, id: u16, sender: nat) {
    forall j | j in t.items && t.items[j].sender == sender :: j == id
  }

  /** A sender registers once. */
  predicate NotRegistered(ops: seq<Op>, sender: nat) {
    forall i | 0 <= i < |ops| && ops[i].Insert? :: ops[i].sender != sender
  }

  /** The receiver of `sender` is there throughout. */
  predicate Awaited(ops: seq<Op>, sender: nat) {
    forall i | 0 <= i < |ops| && ops[i].Insert? :: sender !in ops[i].closed
  }

  /** The first operation that ends the entry under `id`: a frame with a declared opcode, or somebody's cancel. */
  function Ending(ops: seq<Op>, id: u16, expected: seq<byte>): Option<Op> {
    if ops == [] then None else
    var op, earlier := ops[|ops| - 1], Ending(ops[..|ops| - 1], id, expected);
    if earlier.None? && ((op.Take? && op.id == id && op.opcode in expected) || op == Cancel(id)) then Some(op) else earlier
  }

  /** The reply in an ending: somebody's cancel gives none. */
  function ReplyIn(ending: Option<Op>): Option<byte> {
    if ending.Some? && ending.value.Take? then Some(ending.value.opcode) else None
  }

  /** The opcode of the last frame on `id`, `before` if there is none. */
  function LastFrame(ops: seq<Op>, id: u16, before: Option<byte>): Option<byte> {
    if ops == [] then before else
    var op := ops[|ops| - 1];
    if op.Take? && op.id == id then Some(op.opcode) else LastFrame(ops[..|ops| - 1], id, before)
  }

  /** An operation that ends the entry: an insert that prunes it, the frame that answers it, or a cancel of its id. */
  predicate Evicts(t: Table, op: Op, id: u16, r: Request) {
    || (op.Insert? && Proceeds(t, op) && r.sender in op.closed)
    || (op.Take? && op.id == id && op.opcode in r.expected)
    || op == Cancel(id)
  }

  ghost predicate Evicted(t: Table, ops: seq<Op>, id: u16, r: Request) {
    ops != [] &&
    var n := |ops| - 1;
    Evicted(t, ops[..n], id, r) || Evicts(Replay(t, ops[..n]), ops[n], id, r)
  }

  lemma GoneStep(t: Table, op: Op, sender: nat)
    requires Gone(t, sender) && (op.Insert? ==> op.sender != sender)
    ensures Gone(Apply(t, op), sender) && !IsAnswered(t, op, sender)
  {
  }

  lemma KeptStep(t: Table, op: Op, id: u16, r: Request)
    requires Under(t, id) == Some(r) && OnlyAt(t, id, r.sender)
    requires op.Insert? ==> op.sender != r.sender
    ensures Evicts(t, op, id, r) ==> Gone(Apply(t, op), r.sender)
    ensures !Evicts(t, op, id, r) ==>
              && Under(Apply(t, op), id) == Some(r.(undeclared := LastFrame([op], id, r.undeclared)))
              && OnlyAt(Apply(t, op), id, r.sender)
  {
  }

  /** Through a run, an entry is evicted or records the last undeclared opcode that reached it. */
  lemma {:induction false} KeptOrGone(t: Table, ops: seq<Op>, id: u16, r: Request)
    requires Under(t, id) == Some(r) && OnlyAt(t, id, r.sender)
    requires NotRegistered(ops, r.sender)
    ensures Evicted(t, ops, id, r) ==> Gone(Replay(t, ops), r.sender)
    ensures !Evicted(t, ops, id, r) ==>
              && Under(Replay(t, ops), id) == Some(r.(undeclared := LastFrame(ops, id, r.undeclared)))
              && OnlyAt(Replay(t, ops), id, r.sender)
  {
    if ops != [] {
      var n := |ops| - 1;
      var before := Replay(t, ops[..n]);
      KeptOrGone(t, ops[..n], id, r);
      if Evicted(t, ops[..n], id, r) {
        GoneStep(before, ops[n], r.sender);
      } else {
        KeptStep(before, ops[n], id, r.(undeclared := LastFrame(ops[..n], id, r.undeclared)));
      }
    }
  }

  /** While the receiver waits, the entry ends exactly at its ending, and is answered if that is a frame. */
  lemma {:induction false} AnsweredByTheFirstDeclared(t: Table, ops: seq<Op>, id: u16, r: Request)
    requires Under(t, id) == Some(r) && OnlyAt(t, id, r.sender)
    requires NotRegistered(ops, r.sender) && Awaited(ops, r.sender)
    ensures AnswerTo(t, ops, r.sender) == ReplyIn(Ending(ops, id, r.expected))
    ensures Evicted(t, ops, id, r) <==> Ending(ops, id, r.expected).Some?
  {
    if ops != [] {
      var n := |ops| - 1;
      AnsweredByTheFirstDeclared(t, ops[..n], id, r);
      KeptOrGone(t, ops[..n], id, r);
      if Evicted(t, ops[..n], id, r) {
        GoneStep(Replay(t, ops[..n]), ops[n], r.sender);
      }
    }
  }

  lemma {:induction false} CursorGrows(t: Table, ops: seq<Op>)
    ensures t.cursor <= Replay(t, ops).cursor
  {
    if ops != [] {
      CursorGrows(t, ops[..|ops| - 1]);
    }
  }

  /** Within a lap of the position a request was issued at, its id is its own or nobody's. */
  lemma {:induction false} OwnOrFree(t: Table, ops: seq<Op>, v: nat, sender: nat)
    requires v < t.cursor && (IdOf(v) in t.items ==> Keeps(t, IdOf(v), sender))
    requires Replay(t, ops).cursor <= v + ID_SPACE
    ensures IdOf(v) in Replay(t, ops).items ==> Keeps(Replay(t, ops), IdOf(v), sender)
  {
    if ops != [] {
      var n := |ops| - 1;
      CursorGrows(t, ops[..n]);
      var before := Replay(t, ops[..n]);
      CursorGrows(before, [ops[n]]);
      assert Replay(before, []) == before;
      assert [ops[n]][..0] == [];
      OwnOrFree(t, ops[..n], v, sender);
      if Proceeds(before, ops[n]) && ops[n].Insert? && IdOf(NextTicket(before, ops[n].closed)) == IdOf(v) {
        WholeLaps(v, NextTicket(before, ops[n].closed));
      }
    }
  }

  // ---------------------------------------------------------------------------------------------
  // How a request ends
  // ---------------------------------------------------------------------------------------------

  /** The table a failed or expired request's cancel finds. */
  ghost function AtCancel(t: Table, sender: nat, expected: seq<byte>, s: Script, failed: bool): Table {
    var t2 := Replay(Registered(t, sender, expected, s), s.sending);
    if failed then t2 else Replay(Replay(t2, s.waiting), s.late)
  }

  /** The sender is this request's alone, and its receiver is there while it is waited for. */
  ghost predicate FairScript(t: Table, sender: nat, s: Script) {
    && Gone(t, sender)
    && NotRegistered(s.sending, sender) && NotRegistered(s.waiting, sender) && NotRegistered(s.late, sender)
    && Awaited(s.sending, sender) && Awaited(s.waiting, sender)
  }

  /**
   * How a request with its frame sent should end: by its first ending, or else, if its entry lasts until its cancel, by
   * the last frame on its id; `otherwise` if it does not.
   */
  ghost function Expected(t: Table, sender: nat, opcode: byte, expected: seq<byte>, s: Script, otherwise: Outcome<byte>): Outcome<byte>
    requires |t.items| < CAPACITY
  {
    var id, t1 := IdOf(NextTicket(t, s.closed)), Registered(t, sender, expected, s);
    var first := Ending(s.sending, id, expected);
    var ending := if first.Some? then first else Ending(s.waiting, id, expected);
    var seen := LastFrame(s.waiting, id, LastFrame(s.sending, id, None));
    if ending.Some? then
      if ending.value.Take? then Replied(ending.value.opcode) else ChannelClosed
    else if Evicted(Replay(Replay(t1, s.sending), s.waiting), s.late, id, Request(sender, expected, seen)) then otherwise
    else match LastFrame(s.late, id, seen)
      case Some(found) => InvalidResponse(expected, found)
      case None => RequestTimeout(opcode)
  }

  /**
   * Exactly how a request ends, from what reached its id: the first declared opcode answers it, unless somebody's
   * cancel came before; after the deadline, unless the entry went before the cancel, the last frame is the diagnosis.
   */
  lemma EndsExactly(t: Table, sender: nat, opcode: byte, expected: seq<byte>, s: Script, failed: bool)
    requires |t.items| < CAPACITY && FairScript(t, sender, s)
    ensures var otherwise := Report(Under(AtCancel(t, sender, expected, s, false), IdOf(NextTicket(t, s.closed))), opcode);
            Course(t, sender, opcode, expected, s, failed).1 ==
            if failed then SendFailed else Expected(t, sender, opcode, expected, s, otherwise)
  {
    var id, t1 := IdOf(NextTicket(t, s.closed)), Registered(t, sender, expected, s);
    var r1 := Request(sender, expected, None);
    AnsweredByTheFirstDeclared(t1, s.sending, id, r1);
    KeptOrGone(t1, s.sending, id, r1);
    var t2, r2 := Replay(t1, s.sending), r1.(undeclared := LastFrame(s.sending, id, None));
    if Ending(s.sending, id, expected).Some? {
      StaysGone(t2, s.waiting, sender);
    } else {
      AnsweredByTheFirstDeclared(t2, s.waiting, id, r2);
      KeptOrGone(t2, s.waiting, id, r2);
      if Ending(s.waiting, id, expected).None? {
        KeptOrGone(Replay(t2, s.waiting), s.late, id, r2.(undeclared := LastFrame(s.waiting, id, r2.undeclared)));
      }
    }
  }

  /** Within a lap, a request whose entry went before its cancel, and that was neither answered nor orphaned, times out. */
  lemma GoneMeansTimeout(t: Table, sender: nat, opcode: byte, expected: seq<byte>, s: Script)
    requires |t.items| < CAPACITY
    requires AtCancel(t, sender, expected, s, false).cursor <= NextTicket(t, s.closed) + ID_SPACE
    requires Gone(AtCancel(t, sender, expected, s, false), sender)
    requires var end := Course(t, sender, opcode, expected, s, false).1; !end.Replied? && !end.ChannelClosed?
    ensures Course(t, sender, opcode, expected, s, false).1 == RequestTimeout(opcode)
  {
    OwnAtCancel(t, sender, expected, s, false);
  }

  /** Within a lap, that leaves nothing open: a request whose entry goes after its deadline reports a timeout. */
  lemma EndsWithinALap(t: Table, sender: nat, opcode: byte, expected: seq<byte>, s: Script, failed: bool)
    requires |t.items| < CAPACITY && FairScript(t, sender, s)
    requires AtCancel(t, sender, expected, s, false).cursor <= NextTicket(t, s.closed) + ID_SPACE
    ensures Course(t, sender, opcode, expected, s, failed).1 ==
            if failed then SendFailed else Expected(t, sender, opcode, expected, s, RequestTimeout(opcode))
  {
    EndsExactly(t, sender, opcode, expected, s, failed);
    OwnAtCancel(t, sender, expected, s, false);
    var id := IdOf(NextTicket(t, s.closed));
    if Ending(s.sending, id, expected).None? && Ending(s.waiting, id, expected).None? {
      AtDeadline(t, sender, expected, s);
      KeptOrGone(Replay(Replay(Registered(t, sender, expected, s), s.sending), s.waiting), s.late, id,
                 Request(sender, expected, LastFrame(s.waiting, id, LastFrame(s.sending, id, None))));
    }
  }

  /** A request that nothing has ended by its deadline still has its entry, with the last frame on its id. */
  lemma AtDeadline(t: Table, sender: nat, expected: seq<byte>, s: Script)
    requires |t.items| < CAPACITY && FairScript(t, sender, s)
    requires var id := IdOf(NextTicket(t, s.closed)); Ending(s.sending, id, expected).None? && Ending(s.waiting, id, expected).None?
    ensures var id, t3 := IdOf(NextTicket(t, s.closed)), Replay(Replay(Registered(t, sender, expected, s), s.sending), s.waiting);
            && Under(t3, id) == Some(Request(sender, expected, LastFrame(s.waiting, id, LastFrame(s.sending, id, None))))
            && OnlyAt(t3, id, sender)
  {
    var id, t1 := IdOf(NextTicket(t, s.closed)), Registered(t, sender, expected, s);
    var r1 := Request(sender, expected, None);
    var r2 := r1.(undeclared := LastFrame(s.sending, id, None));
    AnsweredByTheFirstDeclared(t1, s.sending, id, r1);
    KeptOrGone(t1, s.sending, id, r1);
    AnsweredByTheFirstDeclared(Replay(t1, s.sending), s.waiting, id, r2);
    KeptOrGone(Replay(t1, s.sending), s.waiting, id, r2);
  }

  /** Within a lap, a cancel finds the request's own entry or none. */
  lemma OwnAtCancel(t: Table, sender: nat, expected: seq<byte>, s: Script, failed: bool)
    requires |t.items| < CAPACITY
    requires AtCancel(t, sender, expected, s, failed).cursor <= NextTicket(t, s.closed) + ID_SPACE
    ensures var id, found := IdOf(NextTicket(t, s.closed)), AtCancel(t, sender, expected, s, failed);
            id in found.items ==> Keeps(found, id, sender)
  {
    var v := NextTicket(t, s.closed);
    var t1 := Registered(t, sender, expected, s);
    var t2 := Replay(t1, s.sending);
    var t3 := Replay(t2, s.waiting);
    CursorGrows(t1, s.sending);
    CursorGrows(t2, s.waiting);
    CursorGrows(t3, s.late);
    OwnOrFree(t1, s.sending, v, sender);
    if !failed {
      OwnOrFree(t2, s.waiting, v, sender);
      OwnOrFree(t3, s.late, v, sender);
    }
  }

  /** Whatever else goes on, a cancel within a lap of the insert removes only the request's own entry. */
  lemma OthersUntouched(t: Table, sender: nat, opcode: byte, expected: seq<byte>, s: Script, failed: bool, j: u16)
    requires |t.items| < CAPACITY
    requires AtCancel(t, sender, expected, s, failed).cursor <= NextTicket(t, s.closed) + ID_SPACE
    requires var end := Course(t, sender, opcode, expected, s, failed).1;
             end.SendFailed? || end.InvalidResponse? || end.RequestTimeout?
    requires var r := Under(AtCancel(t, sender, expected, s, failed), j);
             r.Some? && r.value.sender != sender
    ensures Under(Course(t, sender, opcode, expected, s, failed).0, j) == Under(AtCancel(t, sender, expected, s, failed), j)
  {
    OwnAtCancel(t, sender, expected, s, failed);
  }

  // ---------------------------------------------------------------------------------------------
  // No id is leaked
  // ---------------------------------------------------------------------------------------------

  /** Through any run an entry stays at its id, and once answered it is gone. */
  lemma {:induction false} AnsweredIsGone(t: Table, ops: seq<Op>, id: u16, sender: nat)
    requires OnlyAt(t, id, sender) && NotRegistered(ops, sender)
    ensures OnlyAt(Replay(t, ops), id, sender)
    ensures AnswerTo(t, ops, sender).Some? ==> Gone(Replay(t, ops), sender)
  {
    if ops != [] {
      var n := |ops| - 1;
      var before := Replay(t, ops[..n]);
      AnsweredIsGone(t, ops[..n], id, sender);
      if AnswerTo(t, ops[..n], sender).Some? {
        GoneStep(before, ops[n], sender);
      }
    }
  }

  lemma {:induction false} StaysGone(t: Table, ops: seq<Op>, sender: nat)
    requires Gone(t, sender) && NotRegistered(ops, sender)
    ensures Gone(Replay(t, ops), sender) && AnswerTo(t, ops, sender).None?
  {
    if ops != [] {
      StaysGone(t, ops[..|ops| - 1], sender);
      GoneStep(Replay(t, ops[..|ops| - 1]), ops[|ops| - 1], sender);
    }
  }

  lemma {:induction false} WaitedGone(t: Table, queued: seq<Op>, i: nat, sender: nat)
    requires Gone(t, sender) && NotRegistered(queued, sender) && i <= |queued|
    ensures Gone(Waited(t, queued, i).0, sender)
    decreases |queued| - i
  {
    if |t.items| >= CAPACITY && i < |queued| {
      GoneStep(t, queued[i], sender);
      WaitedGone(Apply(t, queued[i]), queued, i + 1, sender);
    }
  }

  /** However a request ends, and whatever others cancel or prune, it leaves no entry behind. */
  lemma NothingLeftBehind(t: Table, sender: nat, opcode: byte, expected: seq<byte>, s: Script, failed: bool)
    requires Gone(t, sender) && NotRegistered(s.queued, sender)
    requires NotRegistered(s.sending, sender) && NotRegistered(s.waiting, sender) && NotRegistered(s.late, sender)
    ensures Gone(Whole(t, sender, opcode, expected, s, failed).0, sender)
  {
    WaitedFits(t, s.queued, 0);
    WaitedGone(t, s.queued, 0, sender);
    var (at, granted) := Waited(t, s.queued, 0);
    if granted {
      NothingLeftOnce(at, sender, opcode, expected, s, failed);
    }
  }

  lemma NothingLeftOnce(t: Table, sender: nat, opcode: byte, expected: seq<byte>, s: Script, failed: bool)
    requires |t.items| < CAPACITY && Gone(t, sender)
    requires NotRegistered(s.sending, sender) && NotRegistered(s.waiting, sender) && NotRegistered(s.late, sender)
    ensures Gone(Course(t, sender, opcode, expected, s, failed).0, sender)
  {
    var id, t1 := IdOf(NextTicket(t, s.closed)), Registered(t, sender, expected, s);
    var t2 := Replay(t1, s.sending);
    var t3 := Replay(t2, s.waiting);
    AnsweredIsGone(t1, s.sending, id, sender);
    AnsweredIsGone(t2, s.waiting, id, sender);
    AnsweredIsGone(t3, s.late, id, sender);
    if AnswerTo(t1, s.sending, sender).Some? {
      StaysGone(t2, s.waiting, sender);
    }
  }

  // ---------------------------------------------------------------------------------------------
  // A lap is the limit
  // ---------------------------------------------------------------------------------------------

  function SendersBelow(n: nat): (senders: set<nat>)
    ensures forall sender: nat :: sender in senders <==> sender < n
  {
    if n == 0 then {} else SendersBelow(n - 1) + {n - 1}
  }

  /** Requests of senders 1, 2, ..., each abandoned before the next is made. */
  function AbandonedInTurn(n: nat): (ops: seq<Op>)
    ensures |ops| == n
  {
    if n == 0 then [] else AbandonedInTurn(n - 1) + [Insert(n, [], SendersBelow(n))]
  }

  lemma PrunesAll(t: Table, sender: nat, expected: seq<byte>, closed: set<nat>)
    requires |t.items| < CAPACITY && Unabandoned(t.items, closed) == map[]
    ensures NextTicket(t, closed) == t.cursor
    ensures Apply(t, Insert(sender, expected, closed)) == Table(map[IdOf(t.cursor) := Request(sender, expected, None)], t.cursor + 1)
  {
    var live := Unabandoned(t.items, closed).Keys;
    assert live == {} && IdOf(t.cursor) !in live;
  }

  lemma ReplacedByTheNext(n: nat, expected: seq<byte>)
    ensures Apply(Table(map[IdOf(n) := Request(n, expected, None)], n + 1), Insert(n + 1, [], SendersBelow(n + 1)))
         == Table(map[IdOf(n + 1) := Request(n + 1, [], None)], n + 2)
  {
    var t := Table(map[IdOf(n) := Request(n, expected, None)], n + 1);
    assert |t.items| == 1;
    assert Unabandoned(t.items, SendersBelow(n + 1)) == map[];
    PrunesAll(t, n + 1, [], SendersBelow(n + 1));
  }

  lemma {:induction false} OnlyTheLastIsLive(expected: seq<byte>, n: nat)
    ensures Replay(Table(map[0 := Request(0, expected, None)], 1), AbandonedInTurn(n))
         == Table(map[IdOf(n) := Request(n, if n == 0 then expected else [], None)], n + 1)
  {
    if n > 0 {
      OnlyTheLastIsLive(expected, n - 1);
      assert AbandonedInTurn(n)[..n - 1] == AbandonedInTurn(n - 1);
      ReplacedByTheNext(n - 1, if n == 1 then expected else []);
    }
  }

  /**
   * A full lap between the deadline and the cancel, and the cancel takes a newer request's entry: after 65 536
   * requests (or any multiple) each abandoned in turn, the id is back with one whose caller is still waiting.
   */
  lemma {:induction false} LateCancelHitsAnother(opcode: byte, expected: seq<byte>, n: nat)
    requires n > 0 && IdOf(n) == 0
    ensures
      var t, s := Table(map[], 0), Script([], {}, [], [], AbandonedInTurn(n));
      && AtCancel(t, 0, expected, s, false).items == map[0 := Request(n, [], None)]
      && Course(t, 0, opcode, expected, s, false) == (Table(map[], n + 1), RequestTimeout(opcode))
  {
    var t, s := Table(map[], 0), Script([], {}, [], [], AbandonedInTurn(n));
    PrunesAll(t, 0, expected, {});
    OnlyTheLastIsLive(expected, n);
    var t1 := Registered(t, 0, expected, s);
    assert t1 == Table(map[0 := Request(0, expected, None)], 1);
    assert Replay(t1, []) == t1;
  }

  /** A run of others after which the cursor is no further than `bound` and the id of `v` is somebody else's. */
  ghost predicate Overtakes(t: Table, v: nat, sender: nat, bound: nat, ops: seq<Op>) {
    var end := Replay(t, ops);
    end.cursor <= bound && IdOf(v) in end.items && !Keeps(end, IdOf(v), sender)
  }

  lemma NotOvertaken(t: Table, first: Op, v: nat, bound: nat, ops: seq<Op>)
    requires Issues(t, first, v) && bound <= v + ID_SPACE
    ensures !Overtakes(Apply(t, first), v, first.sender, bound, ops)
  {
    if Replay(Apply(t, first), ops).cursor <= bound {
      OwnOrFree(Apply(t, first), ops, v, first.sender);
    }
  }

  /** Once the cursor has gone past a lap, another request can have the id. */
  lemma OvertakenPastALap(t: Table, first: Op, v: nat, bound: nat) returns (ops: seq<Op>)
    requires Issues(t, first, v) && bound > v + ID_SPACE
    ensures Overtakes(Apply(t, first), v, first.sender, bound, ops)
  {
    GivenUp(t, first, v);
    var end, k, u := ReachesAgain(Apply(t, first), Apply(t, first).items - {IdOf(v)}, v);
    var before := SomeRun(Apply(t, first), end, k);
    var again := Insert(first.sender + 1, [], {});
    Extended(Apply(t, first), before, again);
    InsertedAt(end, first.sender + 1, u);
    ops := before + [again];
  }

  lemma InsertedAt(t: Table, sender: nat, u: nat)
    requires Issues(t, Insert(0, [], {}), u)
    ensures var end := Apply(t, Insert(sender, [], {}));
            end.cursor == u + 1 && Under(end, IdOf(u)) == Some(Request(sender, [], None))
  {
  }

  /**
   * Whatever is live when a request is issued, every run of others leaves its id free or its own for as long as the
   * cursor ends no further than `bound` if and only if that is within a lap.
   */
  lemma OwnExactly(t: Table, first: Op, v: nat, bound: nat)
    requires Issues(t, first, v)
    ensures (forall ops :: !Overtakes(Apply(t, first), v, first.sender, bound, ops)) <==> bound <= v + ID_SPACE
  {
    if bound <= v + ID_SPACE {
      forall ops
        ensures !Overtakes(Apply(t, first), v, first.sender, bound, ops)
      {
        NotOvertaken(t, first, v, bound, ops);
      }
    } else {
      var ops := OvertakenPastALap(t, first, v, bound);
    }
  }

  /** A script on which the cancel, with the cursor no further than `bound`, finds somebody else's entry. */
  ghost predicate CancelsAnother(t: Table, sender: nat, expected: seq<byte>, closed: set<nat>, bound: nat, s: Script, failed: bool)
    requires |t.items| < CAPACITY
  {
    var id, found := IdOf(NextTicket(t, closed)), AtCancel(t, sender, expected, s, failed);
    s.closed == closed && found.cursor <= bound && id in found.items && !Keeps(found, id, sender)
  }

  lemma CancelsOwn(t: Table, sender: nat, expected: seq<byte>, closed: set<nat>, bound: nat, s: Script, failed: bool)
    requires |t.items| < CAPACITY && bound <= NextTicket(t, closed) + ID_SPACE
    ensures !CancelsAnother(t, sender, expected, closed, bound, s, failed)
  {
    if s.closed == closed && AtCancel(t, sender, expected, s, failed).cursor <= bound {
      OwnAtCancel(t, sender, expected, s, failed);
    }
  }

  lemma CancelsAnotherPastALap(t: Table, sender: nat, expected: seq<byte>, closed: set<nat>, bound: nat) returns (s: Script)
    requires |t.items| < CAPACITY && bound > NextTicket(t, closed) + ID_SPACE
    ensures CancelsAnother(t, sender, expected, closed, bound, s, false)
  {
    var first, v := Insert(sender, expected, closed), NextTicket(t, closed);
    var ops := OvertakenPastALap(t, first, v, bound);
    s := Script([], closed, [], [], ops);
    assert Replay(Apply(t, first), []) == Apply(t, first);
  }

  /**
   * From any table, the cancel of a failed or expired request is sure to find its own entry or none, as long as the cursor
   * is no further than `bound`, if and only if that is within a lap of the position the request was issued at.
   */
  lemma CancelOwnsExactly(t: Table, sender: nat, expected: seq<byte>, closed: set<nat>, bound: nat)
    requires |t.items| < CAPACITY
    ensures (forall s: Script, failed: bool :: !CancelsAnother(t, sender, expected, closed, bound, s, failed)) <==>
            bound <= NextTicket(t, closed) + ID_SPACE
  {
    if bound <= NextTicket(t, closed) + ID_SPACE {
      forall s: Script, failed: bool
        ensures !CancelsAnother(t, sender, expected, closed, bound, s, failed)
      {
        CancelsOwn(t, sender, expected, closed, bound, s, failed);
      }
    } else {
      var s := CancelsAnotherPastALap(t, sender, expected, closed, bound);
    }
  }
}
