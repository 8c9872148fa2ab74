/**
 * The send loop (`send_message` in src/link.rs): ask the limiter, back off while it defers, give up at a deadline.
 *
 * A schedule says what each attempt meets: what the link's other senders have offered the shared limiter since
 * the attempt before, what the wall clock shows the limiter, and the instant the deadline is checked at.
 * Instants are counted in nanoseconds.
 */
module Sending {
  import opened Wire
  import opened DigMessages
  import opened RateLimits
  import opened RateLimitRuns
  import opened RateLimitRelations

  const NANOS: nat := 1_000_000_000
  const RATE_LIMIT_BACKOFF: nat := 1 * NANOS
  const RATE_LIMIT_WINDOW_SECONDS: Seconds := 60
  /** The default of `LinkOptions::send_timeout`: two windows. */
  const DEFAULT_SEND_TIMEOUT: nat := RATE_LIMIT_WINDOW_SECONDS * 2 * NANOS

  datatype SendOutcome = Sent | SinkFailed | TooLarge(opcode: byte, size: nat) | SendTimeout(opcode: byte)

  datatype Attempt = Attempt(others: seq<Offer>, wall: nat, instant: nat)

  /** Every sleep lasts at least the backoff. */
  ghost predicate Sleeps(s: nat -> Attempt, started: nat) {
    && started <= s(0).instant
    && forall j: nat, k: nat | j < k :: s(j).instant + RATE_LIMIT_BACKOFF <= s(k).instant
  }

  /** The others' offers, then one attempt of ours: the window it leaves, and the verdict. */
  ghost function AttemptOn(c: Config, w: Window, m: DigMessage, a: Attempt): (Window, Admission) {
    Offered(c, After(c, w, a.others, |a.others|), PeriodOf(c.resetSeconds, a.wall), ChargeOf(m))
  }

  /** The limiter's window as the attempts before the `k`-th left it. */
  ghost function Inherited(c: Config, w: Window, m: DigMessage, s: nat -> Attempt, k: nat): Window {
    if k == 0 then w else AttemptOn(c, Inherited(c, w, m, s, k - 1), m, s(k - 1)).0
  }

  /** The window once the others have made their offers, as the `k`-th attempt finds it. */
  ghost function Before(c: Config, w: Window, m: DigMessage, s: nat -> Attempt, k: nat): Window {
    After(c, Inherited(c, w, m, s, k), s(k).others, |s(k).others|)
  }

  /** What the `k`-th attempt does: the window it leaves, and the verdict. */
  ghost function Tried(c: Config, w: Window, m: DigMessage, s: nat -> Attempt, k: nat): (Window, Admission) {
    AttemptOn(c, Inherited(c, w, m, s, k), m, s(k))
  }

  /** The `k`-th attempt is deferred with time left for another. */
  ghost predicate GoesOn(c: Config, w: Window, m: DigMessage, s: nat -> Attempt, deadline: nat, k: nat) {
    Tried(c, w, m, s, k).1 == Deferred && s(k).instant + RATE_LIMIT_BACKOFF <= deadline
  }

  /** Every attempt before the `n`-th goes on. */
  ghost predicate GoneOn(c: Config, w: Window, m: DigMessage, s: nat -> Attempt, deadline: nat, n: nat) {
    n > 0 ==> GoneOn(c, w, m, s, deadline, n - 1) && GoesOn(c, w, m, s, deadline, n - 1)
  }

  lemma {:induction false} GoneOnEach(c: Config, w: Window, m: DigMessage, s: nat -> Attempt, deadline: nat, n: nat, k: nat)
    requires GoneOn(c, w, m, s, deadline, n) && k < n
    ensures GoesOn(c, w, m, s, deadline, k)
  {
    if k < n - 1 {
      GoneOnEach(c, w, m, s, deadline, n - 1, k);
    }
  }

  /** The `n`-th attempt is the first that does not go on. */
  ghost predicate StopsAt(c: Config, w: Window, m: DigMessage, s: nat -> Attempt, deadline: nat, n: nat) {
    GoneOn(c, w, m, s, deadline, n) && !GoesOn(c, w, m, s, deadline, n)
  }

  function MostAttempts(sendTimeout: nat): nat {
    sendTimeout / RATE_LIMIT_BACKOFF + 1
  }

  function OutcomeOf(v: Admission, m: DigMessage, sinkAccepts: bool): SendOutcome {
    match v
    case Admitted => if sinkAccepts then Sent else SinkFailed
    case Unsendable => TooLarge(m.msgType, |m.data|)
    case Deferred => SendTimeout(m.msgType)
  }

  /** The loop started in `w` ends in `w'` with `outcome`. */
  ghost predicate SentAs(c: Config, w: Window, m: DigMessage, s: nat -> Attempt, deadline: nat, sinkAccepts: bool,
                         w': Window, outcome: SendOutcome) {
    exists n: nat :: StopsAt(c, w, m, s, deadline, n) &&
      Tried(c, w, m, s, n).0 == w' && outcome == OutcomeOf(Tried(c, w, m, s, n).1, m, sinkAccepts)
  }

  /** What other senders do to the shared limiter. */
  method OfferAll(limiter: OpcodeRateLimiter, offers: seq<Offer>)
    requires limiter.Valid()
    modifies limiter
    ensures limiter.Valid()
    ensures limiter.Contents() == After(limiter.Setting(), old(limiter.Contents()), offers, |offers|)
  {
    for i := 0 to |offers|
      invariant limiter.Valid()
      invariant limiter.Contents() == After(limiter.Setting(), old(limiter.Contents()), offers, i)
    {
      var _ := limiter.Admit(offers[i].message, offers[i].now);
    }
  }

  /** One attempt, after what the others did. */
  method AttemptOnce(limiter: OpcodeRateLimiter, m: DigMessage, a: Attempt) returns (verdict: Admission)
    requires limiter.Valid()
    modifies limiter
    ensures limiter.Valid()
    ensures (limiter.Contents(), verdict) == AttemptOn(limiter.Setting(), old(limiter.Contents()), m, a)
  {
    OfferAll(limiter, a.others);
    verdict := limiter.Admit(m, a.wall);
  }

  /** An attempt that leaves time for a sleep has had no more predecessors than there are whole backoffs before the deadline. */
  lemma RoomForAnother(s: nat -> Attempt, started: nat, sendTimeout: nat, k: nat)
    requires Sleeps(s, started) && s(k).instant + RATE_LIMIT_BACKOFF <= started + sendTimeout
    ensures k + 1 < MostAttempts(sendTimeout)
  {
    SleptFor(s, started, k);
  }

  lemma {:induction false} SleptFor(s: nat -> Attempt, started: nat, k: nat)
    requires Sleeps(s, started)
    ensures started + k * RATE_LIMIT_BACKOFF <= s(k).instant
  {
    if k > 0 {
      SleptFor(s, started, k - 1);
    }
  }

  /** However the others fill the limiter, the attempts are bounded by the timeout. */
  lemma AttemptsBounded(c: Config, w: Window, m: DigMessage, s: nat -> Attempt, started: nat, sendTimeout: nat, n: nat)
    requires Sleeps(s, started) && StopsAt(c, w, m, s, started + sendTimeout, n)
    ensures n < MostAttempts(sendTimeout) && n * 1_000_000_000 <= sendTimeout
  {
    if n > 0 {
      GoneOnEach(c, w, m, s, started + sendTimeout, n, n - 1);
      RoomForAnother(s, started, sendTimeout, n - 1);
    }
  }

  /** The loop: it goes on for as long as an attempt is deferred with time left for another. */
  method AwaitVerdict(limiter: OpcodeRateLimiter, m: DigMessage, sendTimeout: nat, started: nat, s: nat -> Attempt)
    returns (verdict: Admission, last: nat)
    requires limiter.Valid() && Sleeps(s, started)
    modifies limiter
    ensures limiter.Valid() && last < MostAttempts(sendTimeout)
    ensures StopsAt(limiter.Setting(), old(limiter.Contents()), m, s, started + sendTimeout, last)
    ensures (limiter.Contents(), verdict) == Tried(limiter.Setting(), old(limiter.Contents()), m, s, last)
  {
    ghost var c, w := limiter.Setting(), limiter.Contents();
    var deadline := started + sendTimeout;
    last := 0;
    while true
      invariant limiter.Valid() && limiter.Setting() == c
      invariant limiter.Contents() == Inherited(c, w, m, s, last)
      invariant GoneOn(c, w, m, s, deadline, last)
      invariant last < MostAttempts(sendTimeout)
      decreases MostAttempts(sendTimeout) - last
    {
      verdict := AttemptOnce(limiter, m, s(last));
      if verdict != Deferred || s(last).instant + RATE_LIMIT_BACKOFF > deadline {
        return;
      }
      RoomForAnother(s, started, sendTimeout, last);
      last := last + 1;
    }
  }

  /** It makes no more than `sendTimeout / backoff + 1` attempts, and hands the sink nothing unless admitted. */
  method SendMessage(limiter: OpcodeRateLimiter, m: DigMessage, sendTimeout: nat, started: nat, s: nat -> Attempt,
                     sinkAccepts: bool)
    returns (outcome: SendOutcome, attempts: nat, handed: seq<seq<byte>>)
    requires limiter.Valid() && Sleeps(s, started)
    modifies limiter
    ensures limiter.Valid()
    ensures 1 <= attempts <= MostAttempts(sendTimeout)
    ensures StopsAt(limiter.Setting(), old(limiter.Contents()), m, s, started + sendTimeout, attempts - 1)
    ensures var (w, v) := Tried(limiter.Setting(), old(limiter.Contents()), m, s, attempts - 1);
            limiter.Contents() == w && outcome == OutcomeOf(v, m, sinkAccepts)
    ensures handed == if outcome.Sent? || outcome.SinkFailed? then [Encode(m)] else []
  {
    var verdict, last := AwaitVerdict(limiter, m, sendTimeout, started, s);
    attempts, handed := last + 1, [];
    match verdict {
      case Admitted =>
        var frame := ToBytes(m);
        handed := [frame];
        outcome := if sinkAccepts then Sent else SinkFailed;
      case Unsendable => outcome := TooLarge(m.msgType, |m.data|);
      case Deferred => outcome := SendTimeout(m.msgType);
    }
  }

  // ---------------------------------------------------------------------------------------------
  // What the outcomes mean
  // ---------------------------------------------------------------------------------------------

  lemma {:induction false} GoneOnDeferred(c: Config, w: Window, m: DigMessage, s: nat -> Attempt, deadline: nat, n: nat, k: nat)
    requires GoneOn(c, w, m, s, deadline, n) && k < n
    ensures Tried(c, w, m, s, k).1 == Deferred && s(k).instant + 1_000_000_000 <= deadline
  {
    GoneOnEach(c, w, m, s, deadline, n, k);
  }

  /** What the `n`-th attempt was judged on. */
  ghost function JudgedAt(c: Config, w: Window, m: DigMessage, s: nat -> Attempt, n: nat): Window {
    Roll(Before(c, w, m, s, n), PeriodOf(c.resetSeconds, s(n).wall))
  }

  /** Some window, however it was charged, admits `m`. */
  ghost predicate SomeWindowAdmits(c: Config, m: DigMessage) {
    exists charges :: Verdict(c, charges, ChargeOf(m)) == Admitted
  }

  lemma AdmittedBySome(c: Config, charges: Charges, m: DigMessage)
    requires NonNegative(c)
    ensures SomeWindowAdmits(c, m) <==> Verdict(c, charges, ChargeOf(m)) != Unsendable
  {
    UnsendableExactly(c, charges, ChargeOf(m));
  }

  /** The attempt that ended the loop with `outcome`, leaving `w'`. */
  lemma LastAttempt(c: Config, w: Window, m: DigMessage, s: nat -> Attempt, deadline: nat, sinkAccepts: bool,
                    w': Window, outcome: SendOutcome) returns (n: nat)
    requires SentAs(c, w, m, s, deadline, sinkAccepts, w', outcome)
    ensures StopsAt(c, w, m, s, deadline, n) && Tried(c, w, m, s, n).0 == w'
    ensures outcome == OutcomeOf(Tried(c, w, m, s, n).1, m, sinkAccepts)
  {
    n :| StopsAt(c, w, m, s, deadline, n) && Tried(c, w, m, s, n).0 == w' &&
         outcome == OutcomeOf(Tried(c, w, m, s, n).1, m, sinkAccepts);
  }

  /** `TooLarge` is reported, with opcode and size, of exactly the messages that no window would ever admit. */
  lemma TooLargeExactly(c: Config, w: Window, m: DigMessage, s: nat -> Attempt, deadline: nat, sinkAccepts: bool,
                        w': Window, outcome: SendOutcome)
    requires NonNegative(c) && SentAs(c, w, m, s, deadline, sinkAccepts, w', outcome)
    ensures outcome.TooLarge? <==> !SomeWindowAdmits(c, m)
    ensures outcome.TooLarge? ==> outcome == TooLarge(m.msgType, |m.data|)
  {
    var n := LastAttempt(c, w, m, s, deadline, sinkAccepts, w', outcome);
    AdmittedBySome(c, JudgedAt(c, w, m, s, n).charges, m);
  }

  /** `SendTimeout` is reported exactly after every attempt was deferred, each but the last with a second to spare and the last without. */
  lemma SendTimeoutExactly(c: Config, w: Window, m: DigMessage, s: nat -> Attempt, deadline: nat, sinkAccepts: bool,
                           w': Window, outcome: SendOutcome) returns (n: nat)
    requires SentAs(c, w, m, s, deadline, sinkAccepts, w', outcome)
    ensures forall k: nat | k < n :: Tried(c, w, m, s, k).1 == Deferred && s(k).instant + 1_000_000_000 <= deadline
    ensures outcome.SendTimeout? <==> Tried(c, w, m, s, n).1 == Deferred
    ensures outcome.SendTimeout? ==> outcome == SendTimeout(m.msgType) && s(n).instant + 1_000_000_000 > deadline
  {
    n := LastAttempt(c, w, m, s, deadline, sinkAccepts, w', outcome);
    forall k: nat | k < n
      ensures Tried(c, w, m, s, k).1 == Deferred && s(k).instant + 1_000_000_000 <= deadline
    {
      GoneOnDeferred(c, w, m, s, deadline, n, k);
    }
  }

  /** A message that timed out is one that some window would have admitted. */
  lemma TimedOutWasWorthWaiting(c: Config, w: Window, m: DigMessage, s: nat -> Attempt, deadline: nat, sinkAccepts: bool,
                                w': Window, outcome: SendOutcome)
    requires NonNegative(c) && SentAs(c, w, m, s, deadline, sinkAccepts, w', outcome) && outcome.SendTimeout?
    ensures SomeWindowAdmits(c, m)
  {
    TooLargeExactly(c, w, m, s, deadline, sinkAccepts, w', outcome);
  }

  /** The sink is handed the message exactly if the last attempt charged it; whether it was sent is then the sink's doing. */
  lemma HandedExactlyIfCharged(c: Config, w: Window, m: DigMessage, s: nat -> Attempt, deadline: nat, sinkAccepts: bool,
                               w': Window, outcome: SendOutcome) returns (n: nat)
    requires c.direction == Outbound && SentAs(c, w, m, s, deadline, sinkAccepts, w', outcome)
    ensures StopsAt(c, w, m, s, deadline, n)
    ensures var judged := JudgedAt(c, w, m, s, n);
            && (outcome == (if sinkAccepts then Sent else SinkFailed) <==> w' == judged.(charges := Then(judged.charges, ChargeOf(m))))
            && (outcome.TooLarge? || outcome.SendTimeout? <==> w' == judged)
  {
    n := LastAttempt(c, w, m, s, deadline, sinkAccepts, w', outcome);
    LongerBy(JudgedAt(c, w, m, s, n).charges, ChargeOf(m));
  }

  lemma LongerBy(charges: Charges, m: Charge)
    ensures Then(charges, m) != charges
  {
    assert Count(Then(charges, m), {m.opcode}) == Count(charges, {m.opcode}) + 1;
  }

  // ---------------------------------------------------------------------------------------------
  // What is never retried, and what is charged
  // ---------------------------------------------------------------------------------------------

  /** A message that can never be admitted is given up at the first attempt, whatever the others do. */
  lemma {:induction false} UnsendableNeverRetried(c: Config, w: Window, m: DigMessage, s: nat -> Attempt, deadline: nat, n: nat)
    requires StopsAt(c, w, m, s, deadline, n) && Tried(c, w, m, s, n).1 == Unsendable
    ensures n == 0
  {
    if n > 0 {
      GoneOnEach(c, w, m, s, deadline, n, 0);
    }
    var p0, pn := PeriodOf(c.resetSeconds, s(0).wall), PeriodOf(c.resetSeconds, s(n).wall);
    UnsendableIgnoresTheWindow(c, Roll(Before(c, w, m, s, n), pn).charges, Roll(Before(c, w, m, s, 0), p0).charges,
                               ChargeOf(m));
  }

  /** The limiter's window had this sender never asked before its `k`-th attempt. */
  ghost function OthersOnly(c: Config, w: Window, s: nat -> Attempt, k: nat): Window {
    var previous := if k == 0 then w else OthersOnly(c, w, s, k - 1);
    After(c, previous, s(k).others, |s(k).others|)
  }

  /** A deferral says that the limiter's window is the attempt's own, and leaves it as it was. */
  lemma DeferredInPlace(c: Config, w: Window, period: nat, m: Charge)
    requires c.direction == Outbound && NonNegative(c) && Offered(c, w, period, m).1 == Deferred
    ensures w.period == period && Offered(c, w, period, m).0 == w
  {
    FirstOfWindow(c, m);
  }

  /** Outbound, deferred attempts leave no trace: under any clock, the window is what the others made it. */
  lemma {:induction false} DeferredLeavesNoTrace(c: Config, w: Window, m: DigMessage, s: nat -> Attempt, k: nat)
    requires c.direction == Outbound && NonNegative(c)
    requires forall j: nat | j < k :: Tried(c, w, m, s, j).1 == Deferred
    ensures Before(c, w, m, s, k) == OthersOnly(c, w, s, k)
  {
    if k > 0 {
      DeferredLeavesNoTrace(c, w, m, s, k - 1);
      assert Tried(c, w, m, s, k - 1).1 == Deferred;
      DeferredInPlace(c, Before(c, w, m, s, k - 1), PeriodOf(c.resetSeconds, s(k - 1).wall), ChargeOf(m));
    }
  }

  /**
   * The message is charged exactly once if it is admitted, and not at all otherwise: what the loop leaves in the
   * window is what the others alone would have left, with at most the message added.
   */
  lemma ChargedOnceOrNever(c: Config, w: Window, m: DigMessage, s: nat -> Attempt, deadline: nat, n: nat)
    requires c.direction == Outbound && NonNegative(c)
    requires StopsAt(c, w, m, s, deadline, n)
    ensures var left, without := Tried(c, w, m, s, n).0, Roll(OthersOnly(c, w, s, n), PeriodOf(c.resetSeconds, s(n).wall));
            left == if Tried(c, w, m, s, n).1 == Admitted then Window(without.period, Then(without.charges, ChargeOf(m))) else without
  {
    forall j: nat | j < n
      ensures Tried(c, w, m, s, j).1 == Deferred
    {
      GoneOnEach(c, w, m, s, deadline, n, j);
    }
    DeferredLeavesNoTrace(c, w, m, s, n);
  }

  // ---------------------------------------------------------------------------------------------
  // A lone sender
  // ---------------------------------------------------------------------------------------------

  /**
   * Nobody else sends, the loop starts at once, its sleeps last at least the backoff, and the limiter reads the
   * same clock in whole seconds, counted from any epoch.
   */
  ghost predicate Lone(s: nat -> Attempt, started: nat, epoch: int) {
    && Sleeps(s, started) && s(0).instant == started
    && forall k: nat :: s(k).others == [] && s(k).wall == (epoch + s(k).instant) / NANOS
  }

  /** As long as a lone sender is deferred, it finds the window as it was at the start. */
  lemma {:induction false} StillDeferred(c: Config, w: Window, m: DigMessage, s: nat -> Attempt, started: nat, epoch: int,
                                         deadline: nat, k: nat)
    requires c.direction == Outbound && NonNegative(c) && Lone(s, started, epoch) && GoneOn(c, w, m, s, deadline, k)
    ensures Inherited(c, w, m, s, k) == w && Tried(c, w, m, s, k) == Offered(c, w, PeriodOf(c.resetSeconds, s(k).wall), ChargeOf(m))
  {
    assert s(k).others == [];
    if k > 0 {
      StillDeferred(c, w, m, s, started, epoch, deadline, k - 1);
      assert GoesOn(c, w, m, s, deadline, k - 1);
      DeferredInPlace(c, w, PeriodOf(c.resetSeconds, s(k - 1).wall), ChargeOf(m));
    }
  }

  /**
   * However long its sleeps turn out, a lone sender that is deferred at first times out if and only if its last
   * attempt still falls in the first one's window; otherwise that attempt, the first in a later window, is admitted.
   */
  lemma LoneSenderExactly(c: Config, w: Window, m: DigMessage, s: nat -> Attempt, started: nat, epoch: int,
                          deadline: nat, n: nat)
    requires c.direction == Outbound && NonNegative(c) && Lone(s, started, epoch)
    requires Tried(c, w, m, s, 0).1 == Deferred && StopsAt(c, w, m, s, deadline, n)
    ensures Tried(c, w, m, s, n).1 == Deferred <==>
            PeriodOf(c.resetSeconds, s(n).wall) == PeriodOf(c.resetSeconds, s(0).wall)
    ensures Tried(c, w, m, s, n).1 in {Deferred, Admitted}
    ensures forall k: nat | k < n :: PeriodOf(c.resetSeconds, s(k).wall) == PeriodOf(c.resetSeconds, s(0).wall)
  {
    var first, last := PeriodOf(c.resetSeconds, s(0).wall), PeriodOf(c.resetSeconds, s(n).wall);
    StillDeferred(c, w, m, s, started, epoch, deadline, 0);
    StillDeferred(c, w, m, s, started, epoch, deadline, n);
    DeferredInPlace(c, w, first, ChargeOf(m));
    if last != first {
      DeferredIsWorthWaiting(c, w, first, last, ChargeOf(m));
    }
    forall k: nat | k < n
      ensures PeriodOf(c.resetSeconds, s(k).wall) == first
    {
      GoneOnEach(c, w, m, s, deadline, n, k);
      GoneOnTo(c, w, m, s, deadline, n, k);
      StillDeferred(c, w, m, s, started, epoch, deadline, k);
      DeferredInPlace(c, w, PeriodOf(c.resetSeconds, s(k).wall), ChargeOf(m));
    }
  }

  lemma {:induction false} GoneOnTo(c: Config, w: Window, m: DigMessage, s: nat -> Attempt, deadline: nat, n: nat, k: nat)
    requires GoneOn(c, w, m, s, deadline, n) && k <= n
    ensures GoneOn(c, w, m, s, deadline, k)
    decreases n
  {
    if k < n {
      GoneOnTo(c, w, m, s, deadline, n - 1, k);
    }
  }

  /**
   * The timeout that always outlasts a window: the window and one backoff, less a nanosecond. With windows no longer
   * than the backoff there is never a second attempt in one, and a backoff is enough.
   */
  function LongEnough(c: Config): nat {
    if c.resetSeconds == 1 then RATE_LIMIT_BACKOFF else c.resetSeconds * NANOS + RATE_LIMIT_BACKOFF - 1
  }

  /** A window's length later is another window. */
  lemma WindowOver(c: Config, a: nat, b: nat)
    requires a + c.resetSeconds <= b
    ensures PeriodOf(c.resetSeconds, a) != PeriodOf(c.resetSeconds, b)
  {
    var p := PeriodOf(c.resetSeconds, a);
    PeriodBounds(c, a, p);
    PeriodBounds(c, b, p);
  }

  /** With a timeout that is long enough, a lone sender's last attempt is not deferred. */
  lemma LoneSenderNotDeferred(c: Config, w: Window, m: DigMessage, s: nat -> Attempt, started: nat, epoch: int,
                                sendTimeout: nat, n: nat)
    requires c.direction == Outbound && NonNegative(c) && Lone(s, started, epoch)
    requires sendTimeout >= LongEnough(c) && StopsAt(c, w, m, s, started + sendTimeout, n)
    ensures Tried(c, w, m, s, n).1 != Deferred
  {
    var deadline := started + sendTimeout;
    if Tried(c, w, m, s, n).1 == Deferred {
      if n > 0 {
        GoneOnEach(c, w, m, s, deadline, n, 0);
      }
      LoneSenderExactly(c, w, m, s, started, epoch, deadline, n);
      assert n > 0;
      assert s(n).instant >= started + c.resetSeconds * NANOS by {
        assert s(0).instant + RATE_LIMIT_BACKOFF <= s(n).instant;
      }
      assert s(n).wall == (epoch + s(n).instant) / NANOS && s(0).wall == (epoch + started) / NANOS;
      WindowOver(c, s(0).wall, s(n).wall);
    }
  }

  /** With a timeout that is long enough, a lone sender never times out. */
  lemma LoneSenderNeverTimesOut(c: Config, w: Window, m: DigMessage, s: nat -> Attempt, started: nat, epoch: int,
                                sendTimeout: nat, sinkAccepts: bool, w': Window, outcome: SendOutcome)
    requires c.direction == Outbound && NonNegative(c) && Lone(s, started, epoch)
    requires sendTimeout >= LongEnough(c) && SentAs(c, w, m, s, started + sendTimeout, sinkAccepts, w', outcome)
    ensures !outcome.SendTimeout?
  {
    var n := LastAttempt(c, w, m, s, started + sendTimeout, sinkAccepts, w', outcome);
    LoneSenderNotDeferred(c, w, m, s, started, epoch, sendTimeout, n);
  }

  /** The link's own default is long enough. */
  lemma DefaultTimeoutSuffices(c: Config)
    requires c.resetSeconds == 60
    ensures DEFAULT_SEND_TIMEOUT == 120_000_000_000 >= LongEnough(c)
  {
  }

  /** The longest sleep from a window's start that still ends in it, if a backoff fits into one. */
  function Longest(c: Config): (d: nat)
    ensures d >= RATE_LIMIT_BACKOFF
  {
    if c.resetSeconds == 1 then RATE_LIMIT_BACKOFF else c.resetSeconds * NANOS - 1
  }

  /** One attempt at the very start of a window, the next at its very end, and so on. */
  function Unlucky(c: Config, started: nat): nat -> Attempt {
    var longest := Longest(c);
    (k: nat) => var instant := if k == 0 then started else started + longest + (k - 1) * RATE_LIMIT_BACKOFF;
                Attempt([], instant / NANOS, instant)
  }

  lemma UnluckyIsLone(c: Config, started: nat)
    ensures Lone(Unlucky(c, started), started, 0)
  {
    var s := Unlucky(c, started);
    forall j: nat, k: nat | j < k
      ensures s(j).instant + RATE_LIMIT_BACKOFF <= s(k).instant
    {
      assert Longest(c) >= RATE_LIMIT_BACKOFF;
    }
  }

  /** With any shorter timeout, a deferred lone sender whose sleeps are long can time out. */
  lemma ShorterTimesOut(c: Config, w: Window, m: DigMessage, sendTimeout: nat, sinkAccepts: bool)
    returns (s: nat -> Attempt, started: nat, n: nat)
    requires c.direction == Outbound && NonNegative(c)
    requires Verdict(c, w.charges, ChargeOf(m)) == Deferred && sendTimeout < LongEnough(c)
    ensures Lone(s, started, 0) && StopsAt(c, w, m, s, started + sendTimeout, n) && Tried(c, w, m, s, n).1 == Deferred
    ensures SentAs(c, w, m, s, started + sendTimeout, sinkAccepts, Tried(c, w, m, s, n).0, SendTimeout(m.msgType))
  {
    var wall := WindowStart(c, w.period);
    started := wall * NANOS;
    s := Unlucky(c, started);
    UnluckyIsLone(c, started);
    PeriodBounds(c, wall, w.period);
    assert s(0).wall == wall;
    StillDeferred(c, w, m, s, started, 0, started + sendTimeout, 0);
    if sendTimeout < RATE_LIMIT_BACKOFF {
      n := 0;
    } else {
      n := 1;
      assert GoesOn(c, w, m, s, started + sendTimeout, 0);
      assert s(1).instant == started + Longest(c) == started + c.resetSeconds * NANOS - 1;
      assert s(1).wall == wall + c.resetSeconds - 1;
      PeriodBounds(c, s(1).wall, w.period);
      assert GoneOn(c, w, m, s, started + sendTimeout, 0);
      StillDeferred(c, w, m, s, started, 0, started + sendTimeout, 1);
    }
  }

  // ---------------------------------------------------------------------------------------------
  // How soon, when the sleeps are exact
  // ---------------------------------------------------------------------------------------------

  /** Every sleep lasts exactly the backoff. */
  ghost predicate OnTheTick(s: nat -> Attempt, started: nat, epoch: int) {
    Lone(s, started, epoch) && forall k: nat :: s(k).instant == started + k * RATE_LIMIT_BACKOFF
  }

  /** How many seconds after `wall` the next window begins. */
  function UntilNextWindow(c: Config, wall: nat): (r: nat)
    ensures 1 <= r <= c.resetSeconds
  {
    var p := PeriodOf(c.resetSeconds, wall);
    PeriodBounds(c, wall, p);
    WindowStart(c, p + 1) - wall
  }

  lemma TickingWall(c: Config, s: nat -> Attempt, started: nat, epoch: int, k: nat)
    requires OnTheTick(s, started, epoch) && k <= UntilNextWindow(c, s(0).wall)
    ensures s(k).wall == s(0).wall + k
    ensures PeriodOf(c.resetSeconds, s(k).wall) == PeriodOf(c.resetSeconds, s(0).wall) <==> k < UntilNextWindow(c, s(0).wall)
  {
    var p := PeriodOf(c.resetSeconds, s(0).wall);
    assert s(k).instant == started + k * RATE_LIMIT_BACKOFF && s(0).instant == started;
    PeriodBounds(c, s(0).wall, p);
    PeriodBounds(c, s(k).wall, p);
  }

  /**
   * When every sleep is exact, a deferred lone sender times out if and only if its timeout ends before the window
   * does, and otherwise is admitted by the attempt that first finds the new window.
   */
  lemma LoneSenderOnTheTick(c: Config, w: Window, m: DigMessage, s: nat -> Attempt, started: nat, epoch: int,
                            sendTimeout: nat, n: nat)
    requires c.direction == Outbound && NonNegative(c) && OnTheTick(s, started, epoch)
    requires Tried(c, w, m, s, 0).1 == Deferred && StopsAt(c, w, m, s, started + sendTimeout, n)
    ensures Tried(c, w, m, s, n).1 == Deferred <==> sendTimeout < UntilNextWindow(c, s(0).wall) * RATE_LIMIT_BACKOFF
    ensures Tried(c, w, m, s, n).1 != Deferred ==> Tried(c, w, m, s, n).1 == Admitted && n == UntilNextWindow(c, s(0).wall)
  {
    var r, deadline := UntilNextWindow(c, s(0).wall), started + sendTimeout;
    LoneSenderExactly(c, w, m, s, started, epoch, deadline, n);
    if n > r {
      TickingWall(c, s, started, epoch, r);
    } else {
      TickingWall(c, s, started, epoch, n);
      assert s(n).instant == started + n * RATE_LIMIT_BACKOFF;
      if n > 0 {
        GoneOnEach(c, w, m, s, deadline, n, n - 1);
        assert s(n - 1).instant == started + (n - 1) * RATE_LIMIT_BACKOFF;
      }
    }
  }
}
