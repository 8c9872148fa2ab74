/**
 * The directional rate limiter (src/rate_limit.rs).
 *
 * The specification never speaks of counters: a window is the list of charges made in it, and a verdict
 * compares what those charges would add up to with the scaled budgets. `OpcodeRateLimiter` keeps running
 * counters instead; its invariant says they are those sums.
 */
module RateLimits {
  import opened Wire
  import opened DigMessages

  datatype RateLimit = RateLimit(frequency: real, maxSize: real, maxTotalSize: Option<real>)

  datatype Limits = Limits(
    defaultSettings: RateLimit,
    nonTxFrequency: real,
    nonTxMaxTotalSize: real,
    tx: map<byte, RateLimit>,
    other: map<byte, RateLimit>)

  datatype Admission = Admitted | Deferred | Unsendable

  datatype Direction = Inbound | Outbound

  /** A window length; the source divides by it. */
  type Seconds = x: nat | x > 0 witness 1

  /** What one message costs: one unit of its opcode's count, and its size. */
  datatype Charge = Charge(opcode: byte, size: nat)

  /** Charges in the order they were made. */
  datatype Charges = Nothing | Then(before: Charges, last: Charge)

  /** The charges made so far in the window numbered `period`. */
  datatype Window = Window(period: nat, charges: Charges)

  function ChargeOf(m: DigMessage): Charge {
    Charge(m.msgType, if |m.data| <= U32_MAX then |m.data| else U32_MAX)
  }

  /** How many of `charges` are on opcodes in `ops`. */
  function Count(charges: Charges, ops: set<byte>): nat {
    match charges
    case Nothing => 0
    case Then(before, last) => Count(before, ops) + if last.opcode in ops then 1 else 0
  }

  /** How many bytes `charges` spends on opcodes in `ops`. */
  function Size(charges: Charges, ops: set<byte>): nat {
    match charges
    case Nothing => 0
    case Then(before, last) => Size(before, ops) + if last.opcode in ops then last.size else 0
  }

  /** The opcodes that share the aggregate budget: those of the `other` table, unless `tx` governs them. */
  function Aggregate(l: Limits): set<byte> {
    l.other.Keys - l.tx.Keys
  }

  function LimitFor(l: Limits, opcode: byte): RateLimit {
    if opcode in l.tx then l.tx[opcode]
    else if opcode in l.other then l.other[opcode]
    else l.defaultSettings
  }

  function MaxTotal(limit: RateLimit): real {
    if limit.maxTotalSize.Some? then limit.maxTotalSize.value else limit.frequency * limit.maxSize
  }

  /** What a window admits of one group of opcodes: whole messages, and whole bytes. */
  datatype Budget = Budget(messages: int, bytes: int)

  /** What governs one opcode: the largest message, and the budget of a window. */
  datatype Bound = Bound(maxSize: int, budget: Budget)

  /** The bounds in force once the factor has scaled the table. */
  datatype Rules = Rules(bound: byte -> Bound, aggregate: set<byte>, shared: Budget)

  function BoundOf(limit: RateLimit, factor: real): Bound {
    Bound(limit.maxSize.Floor, Budget((limit.frequency * factor).Floor, (MaxTotal(limit) * factor).Floor))
  }

  function RulesOf(l: Limits, factor: real): Rules {
    Rules((opcode: byte) => BoundOf(LimitFor(l, opcode), factor), Aggregate(l),
          Budget((l.nonTxFrequency * factor).Floor, (l.nonTxMaxTotalSize * factor).Floor))
  }

  datatype Config = Config(direction: Direction, resetSeconds: Seconds, rules: Rules) {
    function Own(opcode: byte): Budget {
      rules.bound(opcode).budget
    }
  }

  /** The charges on `ops` stay within budget `b`. */
  predicate Within(charges: Charges, ops: set<byte>, b: Budget) {
    Count(charges, ops) <= b.messages && Size(charges, ops) <= b.bytes
  }

  /** Verdict under given budgets: `own` for the opcode, `shared` for the opcodes in `all`. */
  function Judge(maxSize: int, own: Budget, shared: Budget, all: set<byte>, charges: Charges, m: Charge): Admission {
    var fitsAlone :=
      && m.size <= maxSize
      && Within(Then(Nothing, m), {m.opcode}, own)
      && (m.opcode in all ==> Within(Then(Nothing, m), all, shared));
    if !fitsAlone then Unsendable
    else if Within(Then(charges, m), {m.opcode}, own) && Within(Then(charges, m), all, shared) then Admitted
    else Deferred
  }

  function Verdict(c: Config, charges: Charges, m: Charge): Admission {
    Judge(c.rules.bound(m.opcode).maxSize, c.Own(m.opcode), c.rules.shared, c.rules.aggregate, charges, m)
  }

  predicate IsCharged(c: Config, v: Admission) {
    c.direction == Inbound || v == Admitted
  }

  /** The number of whole windows before `now`. */
  function PeriodOf(resetSeconds: Seconds, now: nat): nat {
    if now < resetSeconds then 0 else PeriodOf(resetSeconds, now - resetSeconds) + 1
  }

  lemma {:induction false} PeriodIsQuotient(resetSeconds: Seconds, now: nat)
    ensures PeriodOf(resetSeconds, now) == now / resetSeconds
  {
    if now >= resetSeconds {
      var q := (now - resetSeconds) / resetSeconds;
      PeriodIsQuotient(resetSeconds, now - resetSeconds);
      assert q * resetSeconds <= now - resetSeconds < (q + 1) * resetSeconds;
      OneWindowMore(now - resetSeconds, resetSeconds, q);
    } else {
      OneWindowMore(now, resetSeconds, 0);
    }
  }

  lemma OneWindowMore(n: nat, r: Seconds, q: nat)
    requires q * r <= n < (q + 1) * r
    ensures n / r == q && (n + r) / r == q + 1
  {
    QuotientUnique(n, r, q);
    assert (q + 1) * r == q * r + r && (q + 2) * r == (q + 1) * r + r;
    QuotientUnique(n + r, r, q + 1);
  }

  lemma QuotientUnique(n: nat, r: Seconds, q: nat)
    requires q * r <= n < (q + 1) * r
    ensures n / r == q
  {
    var k := n / r;
    assert k * r <= n < (k + 1) * r;
    if k < q {
      TimesGrows(k + 1, q, r);
    } else if q < k {
      TimesGrows(q + 1, k, r);
    }
  }

  lemma TimesGrows(a: nat, b: nat, r: nat)
    requires a <= b
    ensures a * r <= b * r
  {
    assert b * r == a * r + (b - a) * r;
  }

  function Roll(w: Window, period: nat): Window {
    if w.period == period then w else Window(period, Nothing)
  }

  /** One offer of `m` in window `period`: the verdict, and what the window has been charged afterwards. */
  function Offered(c: Config, w: Window, period: nat, m: Charge): (Window, Admission) {
    var rolled := Roll(w, period);
    var v := Verdict(c, rolled.charges, m);
    (if IsCharged(c, v) then rolled.(charges := Then(rolled.charges, m)) else rolled, v)
  }

  lemma SumsOfOne(m: Charge, ops: set<byte>)
    ensures Count(Then(Nothing, m), ops) == if m.opcode in ops then 1 else 0
    ensures Size(Then(Nothing, m), ops) == if m.opcode in ops then m.size else 0
  {
  }

  /** The verdict in terms of running totals: what each sum is before the message, plus what the message adds. */
  lemma JudgeByTotals(maxSize: int, own: Budget, shared: Budget, all: set<byte>, charges: Charges, m: Charge)
    ensures
      var size, (k, b) := m.size, if m.opcode in all then (1, m.size) else (0, 0);
      var fitsAlone :=
        && size <= maxSize && size <= own.bytes && 1 <= own.messages
        && (m.opcode in all ==> 1 <= shared.messages && size <= shared.bytes);
      var fitsWindow :=
        && Count(charges, all) + k <= shared.messages
        && Size(charges, all) + b <= shared.bytes
        && Count(charges, {m.opcode}) + 1 <= own.messages
        && Size(charges, {m.opcode}) + size <= own.bytes;
      Judge(maxSize, own, shared, all, charges, m) ==
      if !fitsAlone then Unsendable else if fitsWindow then Admitted else Deferred
  {
    SumsOfOne(m, {m.opcode});
    SumsOfOne(m, all);
  }

  function Get(counter: map<byte, real>, opcode: byte): real {
    if opcode in counter then counter[opcode] else 0.0
  }

  /** The per-opcode counters stand for the sums over `charges`. */
  ghost predicate Tallied(counts: map<byte, real>, sizes: map<byte, real>, charges: Charges) {
    forall op: byte :: Get(counts, op) == Count(charges, {op}) as real && Get(sizes, op) == Size(charges, {op}) as real
  }

  lemma TalliedAfter(counts: map<byte, real>, sizes: map<byte, real>, charges: Charges, m: Charge)
    requires Tallied(counts, sizes, charges)
    ensures Tallied(counts[m.opcode := Get(counts, m.opcode) + 1.0],
                    sizes[m.opcode := Get(sizes, m.opcode) + m.size as real], Then(charges, m))
  {
    var counts' := counts[m.opcode := Get(counts, m.opcode) + 1.0];
    var sizes' := sizes[m.opcode := Get(sizes, m.opcode) + m.size as real];
    forall op: byte
      ensures Get(counts', op) == Count(Then(charges, m), {op}) as real
      ensures Get(sizes', op) == Size(Then(charges, m), {op}) as real
    {
      assert Get(counts, op) == Count(charges, {op}) as real;
    }
  }

  class OpcodeRateLimiter {
    const direction: Direction
    const resetSeconds: Seconds
    const factor: real
    const limits: Limits
    var period: nat
    var counts: map<byte, real>
    var cumulativeSizes: map<byte, real>
    var nonTxCount: real
    var nonTxSize: real

    /** What the table and the factor come to, and what has been charged in the current window. */
    ghost const rules: Rules
    ghost var charges: Charges

    ghost function Setting(): Config {
      Config(direction, resetSeconds, rules)
    }

    /** Every counter is the sum, over the charges of the current window, that it stands for. */
    ghost predicate Valid()
      reads this
    {
      && rules == RulesOf(limits, factor)
      && Tallied(counts, cumulativeSizes, charges)
      && nonTxCount == Count(charges, rules.aggregate) as real
      && nonTxSize == Size(charges, rules.aggregate) as real
    }

    ghost function Contents(): Window
      reads this
    {
      Window(period, charges)
    }

    constructor (direction: Direction, resetSeconds: Seconds, factor: real, limits: Limits, nowSeconds: nat)
      ensures Valid() && Setting() == Config(direction, resetSeconds, RulesOf(limits, factor))
      ensures Contents() == Window(PeriodOf(resetSeconds, nowSeconds), Nothing)
    {
      PeriodIsQuotient(resetSeconds, nowSeconds);
      this.direction := direction;
      this.resetSeconds := resetSeconds;
      this.factor := factor;
      this.limits := limits;
      rules := RulesOf(limits, factor);
      period := nowSeconds / resetSeconds;
      counts, cumulativeSizes := map[], map[];
      nonTxCount, nonTxSize := 0.0, 0.0;
      charges := Nothing;
    }

    method RollWindow(nowSeconds: nat)
      requires Valid()
      modifies this
      ensures Valid() && Contents() == Roll(old(Contents()), PeriodOf(resetSeconds, nowSeconds))
    {
      PeriodIsQuotient(resetSeconds, nowSeconds);
      var now := nowSeconds / resetSeconds;
      if period == now {
        return;
      }
      period := now;
      counts, cumulativeSizes := map[], map[];
      nonTxCount, nonTxSize := 0.0, 0.0;
      charges := Nothing;
    }

    /** Which limits govern `opcode`, scaled, and whether it also counts against the aggregate. */
    method Govern(opcode: byte) returns (maxSize: real, messages: real, bytes: real, countsAgainstNonTx: bool)
      requires Valid()
      ensures Bound(maxSize.Floor, Budget(messages.Floor, bytes.Floor)) == rules.bound(opcode)
      ensures countsAgainstNonTx <==> opcode in rules.aggregate
    {
      var limit := limits.defaultSettings;
      countsAgainstNonTx := false;
      if opcode in limits.tx {
        limit := limits.tx[opcode];
      } else if opcode in limits.other {
        limit := limits.other[opcode];
        countsAgainstNonTx := true;
      }
      var maxTotal := if limit.maxTotalSize.Some? then limit.maxTotalSize.value else limit.frequency * limit.maxSize;
      maxSize, messages, bytes := limit.maxSize, limit.frequency * factor, maxTotal * factor;
    }

    /** The aggregate limits, scaled. */
    method GovernAggregate() returns (messages: real, bytes: real)
      requires Valid()
      ensures Budget(messages.Floor, bytes.Floor) == rules.shared
    {
      messages, bytes := limits.nonTxFrequency * factor, limits.nonTxMaxTotalSize * factor;
    }

    /** Judge one message under scaled limits, by the counters it would leave behind. */
    method Decide(m: Charge, countsAgainstNonTx: bool, maxSize: real, messages: real, bytes: real,
                  sharedMessages: real, sharedBytes: real)
      returns (verdict: Admission, newCount: real, newCumulative: real, newNonTxCount: real, newNonTxSize: real)
      requires Valid()
      requires countsAgainstNonTx <==> m.opcode in rules.aggregate
      ensures verdict == Judge(maxSize.Floor, Budget(messages.Floor, bytes.Floor),
                               Budget(sharedMessages.Floor, sharedBytes.Floor), rules.aggregate, charges, m)
      ensures newCount == Get(counts, m.opcode) + 1.0 && newCumulative == Get(cumulativeSizes, m.opcode) + m.size as real
      ensures newNonTxCount == nonTxCount + if m.opcode in rules.aggregate then 1.0 else 0.0
      ensures newNonTxSize == nonTxSize + if m.opcode in rules.aggregate then m.size as real else 0.0
    {
      var size := m.size as real;
      var fitsAnEmptyWindow :=
        && size <= maxSize
        && size <= bytes
        && 1.0 <= messages
        && (!countsAgainstNonTx || (1.0 <= sharedMessages && size <= sharedBytes));

      newCount := Get(counts, m.opcode) + 1.0;
      newCumulative := Get(cumulativeSizes, m.opcode) + size;
      newNonTxCount, newNonTxSize := nonTxCount, nonTxSize;
      if countsAgainstNonTx {
        newNonTxCount, newNonTxSize := nonTxCount + 1.0, nonTxSize + size;
      }
      var fitsThisWindow :=
        && newNonTxCount <= sharedMessages
        && newNonTxSize <= sharedBytes
        && newCount <= messages
        && newCumulative <= bytes;

      verdict := if !fitsAnEmptyWindow then Unsendable else if !fitsThisWindow then Deferred else Admitted;
      JudgeByTotals(maxSize.Floor, Budget(messages.Floor, bytes.Floor),
                    Budget(sharedMessages.Floor, sharedBytes.Floor), rules.aggregate, charges, m);
    }

    /** Charge one message, storing the counters it leaves behind. */
    method Book(m: Charge, newCount: real, newCumulative: real, newNonTxCount: real, newNonTxSize: real)
      requires Valid()
      requires newCount == Get(counts, m.opcode) + 1.0 && newCumulative == Get(cumulativeSizes, m.opcode) + m.size as real
      requires newNonTxCount == nonTxCount + if m.opcode in rules.aggregate then 1.0 else 0.0
      requires newNonTxSize == nonTxSize + if m.opcode in rules.aggregate then m.size as real else 0.0
      modifies this
      ensures Valid() && period == old(period) && charges == Then(old(charges), m)
    {
      TalliedAfter(counts, cumulativeSizes, charges, m);
      counts := counts[m.opcode := newCount];
      cumulativeSizes := cumulativeSizes[m.opcode := newCumulative];
      nonTxCount := newNonTxCount;
      nonTxSize := newNonTxSize;
      charges := Then(charges, m);
    }

    /** Judge one message in the current window, and charge it by direction. */
    method Judged(m: Charge) returns (verdict: Admission)
      requires Valid()
      modifies this
      ensures Valid() && period == old(period)
      ensures verdict == Verdict(Setting(), old(charges), m)
      ensures charges == if IsCharged(Setting(), verdict) then Then(old(charges), m) else old(charges)
    {
      var maxSize, messages, bytes, countsAgainstNonTx := Govern(m.opcode);
      var sharedMessages, sharedBytes := GovernAggregate();
      var newCount, newCumulative, newNonTxCount, newNonTxSize;
      verdict, newCount, newCumulative, newNonTxCount, newNonTxSize :=
        Decide(m, countsAgainstNonTx, maxSize, messages, bytes, sharedMessages, sharedBytes);
      if direction == Inbound || verdict == Admitted {
        Book(m, newCount, newCumulative, newNonTxCount, newNonTxSize);
      }
    }

    method Admit(message: DigMessage, nowSeconds: nat) returns (verdict: Admission)
      requires Valid()
      modifies this
      ensures Valid()
      ensures (Contents(), verdict) ==
              Offered(Setting(), old(Contents()), PeriodOf(resetSeconds, nowSeconds), ChargeOf(message))
    {
      RollWindow(nowSeconds);
      var size := |message.data|;
      if size > U32_MAX {
        size := U32_MAX;
      }
      verdict := Judged(Charge(message.msgType, size));
    }

    method Allow(message: DigMessage, nowSeconds: nat) returns (allowed: bool)
      requires Valid()
      modifies this
      ensures Valid()
      ensures var (w, v) := Offered(Setting(), old(Contents()), PeriodOf(resetSeconds, nowSeconds), ChargeOf(message));
              Contents() == w && allowed == (v == Admitted)
    {
      var verdict := Admit(message, nowSeconds);
      allowed := verdict == Admitted;
    }
  }
}
