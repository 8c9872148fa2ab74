/**
 * The verdicts and the budgets, straight from the table and the messages (src/rate_limit.rs).
 *
 * Nothing here speaks of charges, bounds or rules: a run is its messages and times, sums are over payload lengths, and
 * limits are read off the table.
 */
module RateLimitTable {
  import opened Wire
  import opened DigMessages
  import opened RateLimits
  import opened RateLimitRuns
  import opened RateLimitVisits
  import opened RateLimitSpans
  import opened RateLimitIsolation

  /** The limiter is set up with table `l` and `factor`. */
  ghost predicate SetUp(c: Config, l: Limits, factor: real) {
    c.rules == RulesOf(l, factor)
  }

  /** The opcodes of `other` that `tx` does not shadow. */
  ghost function Shared(l: Limits): set<byte> {
    set op: byte | op in l.other && op !in l.tx
  }

  /** The size a message is taken to have. */
  function SizeOf(m: DigMessage): nat {
    if |m.data| <= 4_294_967_295 then |m.data| else 4_294_967_295
  }

  /** The `i`-th offer was made in the same window as `now`, on one of `ops`, and was charged. */
  ghost predicate Weighs(c: Config, start: nat, offers: seq<Offer>, i: nat, now: nat, ops: set<byte>)
    requires i < |offers|
  {
    && offers[i].now / c.resetSeconds == now / c.resetSeconds && offers[i].message.msgType in ops
    && (c.direction == Inbound || VerdictAt(c, Fresh(c, start), offers, i) == Admitted)
  }

  /** How many of the first `n` offers weigh on a message at `now`. */
  ghost function Messages(c: Config, start: nat, offers: seq<Offer>, n: nat, now: nat, ops: set<byte>): nat
    requires n <= |offers|
  {
    if n == 0 then 0 else
    Messages(c, start, offers, n - 1, now, ops) + if Weighs(c, start, offers, n - 1, now, ops) then 1 else 0
  }

  /** And how many bytes they have. */
  ghost function Bytes(c: Config, start: nat, offers: seq<Offer>, n: nat, now: nat, ops: set<byte>): nat
    requires n <= |offers|
  {
    if n == 0 then 0 else
    Bytes(c, start, offers, n - 1, now, ops) +
    if Weighs(c, start, offers, n - 1, now, ops) then SizeOf(offers[n - 1].message) else 0
  }

  lemma {:induction false} SumsAreCharges(c: Config, start: nat, offers: seq<Offer>, n: nat, now: nat, ops: set<byte>)
    requires n <= |offers|
    ensures var charged := ChargedIn(c, Trace(c, Fresh(c, start), offers), n, PeriodOf(c.resetSeconds, now));
            Messages(c, start, offers, n, now, ops) == Count(charged, ops) && Bytes(c, start, offers, n, now, ops) == Size(charged, ops)
  {
    if n > 0 {
      SumsAreCharges(c, start, offers, n - 1, now, ops);
      ChargedInStep(c, Trace(c, Fresh(c, start), offers), n - 1, PeriodOf(c.resetSeconds, now));
      PeriodIsQuotient(c.resetSeconds, now);
      PeriodIsQuotient(c.resetSeconds, offers[n - 1].now);
    }
  }

  /** What limits one opcode, scaled by the factor; `shared` says whether the aggregate does too. */
  datatype Terms = Terms(maxSize: real, messages: real, bytes: real, shared: bool, sharedMessages: real, sharedBytes: real)

  /** The terms, read off the table: `tx` before `other` before the default, and a missing total is the product. */
  function TermsOf(l: Limits, factor: real, op: byte): Terms {
    var limit := if op in l.tx then l.tx[op] else if op in l.other then l.other[op] else l.defaultSettings;
    var maxTotal := match limit.maxTotalSize
      case Some(total) => total
      case None => limit.frequency * limit.maxSize;
    Terms(limit.maxSize, limit.frequency * factor, maxTotal * factor, op !in l.tx && op in l.other,
          l.nonTxFrequency * factor, l.nonTxMaxTotalSize * factor)
  }

  /** The limiter's bounds on `op` are the floors of `x`. */
  ghost predicate LimitedBy(c: Config, op: byte, x: Terms) {
    && c.rules.bound(op) == Bound(x.maxSize.Floor, Budget(x.messages.Floor, x.bytes.Floor))
    && c.rules.shared == Budget(x.sharedMessages.Floor, x.sharedBytes.Floor)
    && (op in c.rules.aggregate <==> x.shared)
  }

  lemma LimitedByTable(c: Config, l: Limits, factor: real, op: byte)
    requires SetUp(c, l, factor)
    ensures LimitedBy(c, op, TermsOf(l, factor, op))
  {
  }

  lemma AggregateIsShared(c: Config, l: Limits, factor: real)
    requires SetUp(c, l, factor)
    ensures c.rules.aggregate == Shared(l)
  {
  }

  /** The source's comparisons: on the message alone, and on the totals it would leave behind. */
  predicate FitsAlone(x: Terms, size: nat) {
    && size as real <= x.maxSize
    && size as real <= x.bytes
    && 1.0 <= x.messages
    && (x.shared ==> 1.0 <= x.sharedMessages && size as real <= x.sharedBytes)
  }

  predicate FitsOnTop(x: Terms, size: nat, ownCount: nat, ownSize: nat, sharedCount: nat, sharedSize: nat) {
    && (sharedCount + if x.shared then 1 else 0) as real <= x.sharedMessages
    && (sharedSize + if x.shared then size else 0) as real <= x.sharedBytes
    && (ownCount + 1) as real <= x.messages
    && (ownSize + size) as real <= x.bytes
  }

  lemma JudgedByTerms(c: Config, x: Terms, charges: Charges, m: DigMessage)
    requires LimitedBy(c, m.msgType, x)
    ensures Verdict(c, charges, ChargeOf(m)) ==
            if !FitsAlone(x, SizeOf(m)) then Unsendable
            else if FitsOnTop(x, SizeOf(m), Count(charges, {m.msgType}), Size(charges, {m.msgType}),
                              Count(charges, c.rules.aggregate), Size(charges, c.rules.aggregate)) then Admitted
            else Deferred
  {
    JudgeByTotals(x.maxSize.Floor, Budget(x.messages.Floor, x.bytes.Floor), Budget(x.sharedMessages.Floor, x.sharedBytes.Floor),
                  c.rules.aggregate, charges, ChargeOf(m));
  }

  /** The verdict on the `i`-th offer is what the comparisons give on `x` and on the sums charged before it in its window. */
  ghost predicate JudgedBy(c: Config, x: Terms, shared: set<byte>, start: nat, offers: seq<Offer>, i: nat)
    requires i < |offers|
  {
    var m, now := offers[i].message, offers[i].now;
    VerdictAt(c, Fresh(c, start), offers, i) ==
    if !FitsAlone(x, SizeOf(m)) then Unsendable
    else if FitsOnTop(x, SizeOf(m), Messages(c, start, offers, i, now, {m.msgType}), Bytes(c, start, offers, i, now, {m.msgType}),
                      Messages(c, start, offers, i, now, shared), Bytes(c, start, offers, i, now, shared)) then Admitted
    else Deferred
  }

  lemma VerdictByTerms(c: Config, x: Terms, start: nat, offers: seq<Offer>, i: nat)
    requires NoReturn(c, ClockOf(offers)) && i < |offers| && LimitedBy(c, offers[i].message.msgType, x)
    ensures JudgedBy(c, x, c.rules.aggregate, start, offers, i)
  {
    JudgedByTrace(c, start, offers, i);
    SumsAreCharges(c, start, offers, i, offers[i].now, c.rules.aggregate);
    SumsAreCharges(c, start, offers, i, offers[i].now, {offers[i].message.msgType});
    JudgedByTerms(c, x, JudgedIn(c, Fresh(c, start), offers, i).charges, offers[i].message);
  }

  /**
   * Every verdict of a run, unless the clock returns to a window it has left, is the one the source's comparisons give on
   * the table, the message, and the sums over what was charged in the same window before it: every offer inbound, the
   * admitted ones outbound.
   */
  lemma VerdictByTable(c: Config, l: Limits, factor: real, start: nat, offers: seq<Offer>, i: nat)
    requires SetUp(c, l, factor) && NoReturn(c, ClockOf(offers)) && i < |offers|
    ensures JudgedBy(c, TermsOf(l, factor, offers[i].message.msgType), Shared(l), start, offers, i)
  {
    LimitedByTable(c, l, factor, offers[i].message.msgType);
    AggregateIsShared(c, l, factor);
    VerdictByTerms(c, TermsOf(l, factor, offers[i].message.msgType), start, offers, i);
  }

  /** On an empty window a message is `Unsendable` exactly if its length, up to 32 bits, fails one of the comparisons. */
  lemma UnsendableByTerms(c: Config, x: Terms, start: nat, now: nat, m: DigMessage)
    requires LimitedBy(c, m.msgType, x)
    ensures var size: real := if |m.data| <= 4_294_967_295 then |m.data| as real else 4_294_967_295.0;
            VerdictAt(c, Fresh(c, start), [Offer(now, m)], 0) == Unsendable <==>
            || size > x.maxSize || size > x.bytes || x.messages < 1.0
            || (x.shared && (x.sharedMessages < 1.0 || size > x.sharedBytes))
  {
    var offers := [Offer(now, m)];
    assert After(c, Fresh(c, start), offers, 0) == Fresh(c, start);
    JudgedByTerms(c, x, Roll(Fresh(c, start), PeriodOf(c.resetSeconds, now)).charges, m);
  }

  /** `limit` and `total` are what the table says of `op`, and `x` is that, scaled. */
  ghost predicate ReadOff(l: Limits, factor: real, op: byte, limit: RateLimit, total: real, x: Terms) {
    && (op in l.tx ==> limit == l.tx[op])
    && (op !in l.tx && op in l.other ==> limit == l.other[op])
    && (op !in l.tx && op !in l.other ==> limit == l.defaultSettings)
    && (limit.maxTotalSize.None? ==> total == limit.frequency * limit.maxSize)
    && (limit.maxTotalSize.Some? ==> total == limit.maxTotalSize.value)
    && x.maxSize == limit.maxSize && x.messages == limit.frequency * factor && x.bytes == total * factor
    && (x.shared <==> op !in l.tx && op in l.other)
    && x.sharedMessages == l.nonTxFrequency * factor && x.sharedBytes == l.nonTxMaxTotalSize * factor
  }

  lemma ReadOffTerms(l: Limits, factor: real, op: byte, limit: RateLimit, total: real, x: Terms)
    requires ReadOff(l, factor, op, limit, total, x)
    ensures x == TermsOf(l, factor, op)
  {
  }

  lemma UnsendableByTable(c: Config, l: Limits, factor: real, start: nat, now: nat, m: DigMessage,
                          limit: RateLimit, total: real, x: Terms)
    requires SetUp(c, l, factor) && ReadOff(l, factor, m.msgType, limit, total, x)
    ensures var size: real := if |m.data| <= 4_294_967_295 then |m.data| as real else 4_294_967_295.0;
            VerdictAt(c, Fresh(c, start), [Offer(now, m)], 0) == Unsendable <==>
            || size > x.maxSize || size > x.bytes || x.messages < 1.0
            || (x.shared && (x.sharedMessages < 1.0 || size > x.sharedBytes))
  {
    ReadOffTerms(l, factor, m.msgType, limit, total, x);
    LimitedByTable(c, l, factor, m.msgType);
    UnsendableByTerms(c, x, start, now, m);
  }

  // ---------------------------------------------------------------------------------------------
  // Budgets in messages and payload bytes
  // ---------------------------------------------------------------------------------------------

  /** The `i`-th offer was admitted in window `window` on one of `ops`. */
  ghost predicate GotThrough(c: Config, start: nat, offers: seq<Offer>, i: nat, window: nat, ops: set<byte>)
    requires i < |offers|
  {
    && offers[i].now / c.resetSeconds == window && offers[i].message.msgType in ops
    && VerdictAt(c, Fresh(c, start), offers, i) == Admitted
  }

  ghost function MessagesThrough(c: Config, start: nat, offers: seq<Offer>, n: nat, window: nat, ops: set<byte>): nat
    requires n <= |offers|
  {
    if n == 0 then 0 else
    MessagesThrough(c, start, offers, n - 1, window, ops) + if GotThrough(c, start, offers, n - 1, window, ops) then 1 else 0
  }

  ghost function PayloadThrough(c: Config, start: nat, offers: seq<Offer>, n: nat, window: nat, ops: set<byte>): nat
    requires n <= |offers|
  {
    if n == 0 then 0 else
    PayloadThrough(c, start, offers, n - 1, window, ops) +
    if GotThrough(c, start, offers, n - 1, window, ops) then |offers[n - 1].message.data| else 0
  }

  lemma {:induction false} ThroughIsAdmitted(c: Config, start: nat, offers: seq<Offer>, n: nat, window: nat, ops: set<byte>)
    requires n <= |offers| && forall i | 0 <= i < |offers| :: |offers[i].message.data| <= 4_294_967_295
    ensures var admitted := AdmittedIn(c, Trace(c, Fresh(c, start), offers), n, window);
            && MessagesThrough(c, start, offers, n, window, ops) == Count(admitted, ops)
            && PayloadThrough(c, start, offers, n, window, ops) == Size(admitted, ops)
  {
    if n > 0 {
      ThroughIsAdmitted(c, start, offers, n - 1, window, ops);
      AdmittedInStep(c, Trace(c, Fresh(c, start), offers), n - 1, window);
      PeriodIsQuotient(c.resetSeconds, offers[n - 1].now);
    }
  }

  /** At most so many messages and payload bytes get through on `ops` in the window. */
  ghost predicate Through(c: Config, start: nat, offers: seq<Offer>, window: nat, ops: set<byte>, messages: real, bytes: real) {
    && MessagesThrough(c, start, offers, |offers|, window, ops) as real <= messages
    && PayloadThrough(c, start, offers, |offers|, window, ops) as real <= bytes
  }

  lemma ThroughByTerms(c: Config, start: nat, offers: seq<Offer>, window: nat, g: Group, messages: real, bytes: real)
    requires NonNegative(c) && BudgetOf(c, g) == Budget(messages.Floor, bytes.Floor)
    requires NoReturn(c, ClockOf(offers)) && forall i | 0 <= i < |offers| :: |offers[i].message.data| <= 4_294_967_295
    ensures Through(c, start, offers, window, OpsOf(c, g), messages, bytes)
  {
    WindowBudget(c, Fresh(c, start), offers, |offers|, window, g);
    ThroughIsAdmitted(c, start, offers, |offers|, window, OpsOf(c, g));
    BudgetsNonNegative(c, g);
  }

  lemma SetUpNonNegative(c: Config, l: Limits, factor: real)
    requires SetUp(c, l, factor) && NonNegativeTable(l) && factor >= 0.0
    ensures NonNegative(c)
  {
    NonNegativeTableSuffices(c.direction, c.resetSeconds, l, factor);
    assert c == Config(c.direction, c.resetSeconds, RulesOf(l, factor));
  }

  /**
   * Unless the clock returns, no window lets through more messages or payload bytes of an opcode than the table, scaled,
   * allows it, nor of the opcodes that share the aggregate, together.
   */
  lemma BudgetByTable(c: Config, l: Limits, factor: real, start: nat, offers: seq<Offer>, window: nat, op: byte,
                      limit: RateLimit, total: real, x: Terms)
    requires SetUp(c, l, factor) && NonNegativeTable(l) && factor >= 0.0 && ReadOff(l, factor, op, limit, total, x)
    requires NoReturn(c, ClockOf(offers)) && forall i | 0 <= i < |offers| :: |offers[i].message.data| <= 4_294_967_295
    ensures Through(c, start, offers, window, {op}, x.messages, x.bytes)
    ensures Through(c, start, offers, window, Shared(l), x.sharedMessages, x.sharedBytes)
  {
    ReadOffTerms(l, factor, op, limit, total, x);
    SetUpNonNegative(c, l, factor);
    LimitedByTable(c, l, factor, op);
    AggregateIsShared(c, l, factor);
    ThroughByTerms(c, start, offers, window, One(op), x.messages, x.bytes);
    ThroughByTerms(c, start, offers, window, Aggregated, x.sharedMessages, x.sharedBytes);
  }
}
