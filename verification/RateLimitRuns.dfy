/** What the limiter promises over whole runs of timed offers (src/rate_limit.rs). */
module RateLimitRuns {
  import opened Wire
  import opened DigMessages
  import opened RateLimits

  datatype Offer = Offer(now: nat, message: DigMessage) {
    function Cost(): Charge {
      ChargeOf(message)
    }
  }

  function Fresh(c: Config, now: nat): Window {
    Window(PeriodOf(c.resetSeconds, now), Nothing)
  }

  /** The window a limiter in `w` is left with by the first `n` offers. */
  function After(c: Config, w: Window, offers: seq<Offer>, n: nat): Window
    requires n <= |offers|
  {
    if n == 0 then w else
    Offered(c, After(c, w, offers, n - 1), PeriodOf(c.resetSeconds, offers[n - 1].now), offers[n - 1].Cost()).0
  }

  function VerdictAt(c: Config, w: Window, offers: seq<Offer>, i: nat): Admission
    requires i < |offers|
  {
    Offered(c, After(c, w, offers, i), PeriodOf(c.resetSeconds, offers[i].now), offers[i].Cost()).1
  }

  /** The window the `i`-th offer is judged in, up to that offer. */
  function JudgedIn(c: Config, w: Window, offers: seq<Offer>, i: nat): Window
    requires i < |offers|
  {
    Roll(After(c, w, offers, i), PeriodOf(c.resetSeconds, offers[i].now))
  }

  /** A run does not depend on what comes after it. */
  lemma {:induction false} AfterPrefix(c: Config, w: Window, offers: seq<Offer>, more: seq<Offer>, n: nat)
    requires n <= |offers|
    ensures After(c, w, offers + more, n) == After(c, w, offers, n)
  {
    if n > 0 {
      AfterPrefix(c, w, offers, more, n - 1);
    }
  }

  /** The clock behind `offers` never runs backwards, and starts no earlier than `start`. */
  ghost predicate Timely(start: nat, offers: seq<Offer>) {
    && (forall i | 0 <= i < |offers| :: start <= offers[i].now)
    && (forall i, j | 0 <= i < j < |offers| :: offers[i].now <= offers[j].now)
  }

  /** The first `n` offers were made no later than `now`. */
  ghost predicate MadeBy(start: nat, offers: seq<Offer>, n: nat, now: nat)
    requires n <= |offers|
  {
    start <= now && forall i | 0 <= i < n :: offers[i].now <= now
  }

  ghost predicate NonNegativeLimit(limit: RateLimit) {
    && limit.frequency >= 0.0 && limit.maxSize >= 0.0
    && (limit.maxTotalSize.Some? ==> limit.maxTotalSize.value >= 0.0)
  }

  /** No limit in the table is negative. */
  ghost predicate NonNegativeTable(l: Limits) {
    && NonNegativeLimit(l.defaultSettings)
    && (forall op | op in l.tx :: NonNegativeLimit(l.tx[op]))
    && (forall op | op in l.other :: NonNegativeLimit(l.other[op]))
    && l.nonTxFrequency >= 0.0 && l.nonTxMaxTotalSize >= 0.0
  }

  /** No budget is negative, so that an unused one is within bounds. */
  ghost predicate NonNegative(c: Config) {
    && (forall op: byte :: c.Own(op).messages >= 0 && c.Own(op).bytes >= 0)
    && c.rules.shared.messages >= 0 && c.rules.shared.bytes >= 0
  }

  lemma NonNegativeTableSuffices(d: Direction, r: Seconds, l: Limits, factor: real)
    requires NonNegativeTable(l) && factor >= 0.0
    ensures NonNegative(Config(d, r, RulesOf(l, factor)))
  {
    var c := Config(d, r, RulesOf(l, factor));
    forall op: byte
      ensures c.Own(op).messages >= 0 && c.Own(op).bytes >= 0
    {
      var limit := LimitFor(l, op);
      assert NonNegativeLimit(limit);
      ProductNonNegative(limit.frequency, limit.maxSize);
      ProductNonNegative(limit.frequency, factor);
      ProductNonNegative(MaxTotal(limit), factor);
    }
    ProductNonNegative(l.nonTxFrequency, factor);
    ProductNonNegative(l.nonTxMaxTotalSize, factor);
  }

  lemma ProductNonNegative(x: real, y: real)
    requires x >= 0.0 && y >= 0.0
    ensures x * y >= 0.0
  {
  }

  // ---------------------------------------------------------------------------------------------
  // History
  // ---------------------------------------------------------------------------------------------

  /** One line of a limiter's history. */
  datatype Entry = Entry(now: nat, cost: Charge, verdict: Admission)

  /** What a run of offers leaves on record. */
  function Trace(c: Config, w: Window, offers: seq<Offer>): seq<Entry> {
    seq(|offers|, i requires 0 <= i < |offers| => Entry(offers[i].now, offers[i].Cost(), VerdictAt(c, w, offers, i)))
  }

  predicate Counts(e: Entry, lo: nat, hi: nat, refusedToo: bool) {
    lo <= e.now < hi && (refusedToo || e.verdict == Admitted)
  }

  /** The charges recorded at `lo <= now < hi` among the first `n`: all of them, or only the admitted ones. */
  function Booked(trace: seq<Entry>, n: nat, lo: nat, hi: nat, refusedToo: bool): Charges
    requires n <= |trace|
  {
    if n == 0 then Nothing else
    var rest := Booked(trace, n - 1, lo, hi, refusedToo);
    if Counts(trace[n - 1], lo, hi, refusedToo) then Then(rest, trace[n - 1].cost) else rest
  }

  /** The first second of the window numbered `period`. */
  function WindowStart(c: Config, period: nat): nat {
    if period == 0 then 0 else WindowStart(c, period - 1) + c.resetSeconds
  }

  lemma {:induction false} PeriodBelow(c: Config, now: nat, period: nat)
    ensures PeriodOf(c.resetSeconds, now) < period <==> now < WindowStart(c, period)
    decreases now
  {
    if now >= c.resetSeconds && period > 0 {
      PeriodBelow(c, now - c.resetSeconds, period - 1);
    }
  }

  lemma PeriodBounds(c: Config, now: nat, period: nat)
    ensures PeriodOf(c.resetSeconds, now) == period <==> WindowStart(c, period) <= now < WindowStart(c, period + 1)
    ensures PeriodOf(c.resetSeconds, now) < period <==> now < WindowStart(c, period)
  {
    PeriodBelow(c, now, period);
    PeriodBelow(c, now, period + 1);
  }

  lemma PeriodsGrow(c: Config, a: nat, b: nat)
    requires a <= b
    ensures PeriodOf(c.resetSeconds, a) <= PeriodOf(c.resetSeconds, b)
  {
    PeriodBelow(c, b, PeriodOf(c.resetSeconds, b) + 1);
    PeriodBelow(c, a, PeriodOf(c.resetSeconds, b) + 1);
  }

  lemma {:induction false} BookedPrefix(trace: seq<Entry>, more: seq<Entry>, n: nat, lo: nat, hi: nat, refusedToo: bool)
    requires n <= |trace| <= |more| && forall i | 0 <= i < |trace| :: more[i] == trace[i]
    ensures Booked(more, n, lo, hi, refusedToo) == Booked(trace, n, lo, hi, refusedToo)
  {
    if n > 0 {
      BookedPrefix(trace, more, n - 1, lo, hi, refusedToo);
    }
  }

  // ---------------------------------------------------------------------------------------------
  // The window is the trace
  // ---------------------------------------------------------------------------------------------

  /** What the first `n` entries charged to the window numbered `period`. */
  function ChargedIn(c: Config, trace: seq<Entry>, n: nat, period: nat): Charges
    requires n <= |trace|
  {
    Booked(trace, n, WindowStart(c, period), WindowStart(c, period + 1), c.direction == Inbound)
  }

  lemma {:induction false} NothingChargedYet(c: Config, trace: seq<Entry>, n: nat, period: nat)
    requires n <= |trace| && forall i | 0 <= i < n :: PeriodOf(c.resetSeconds, trace[i].now) != period
    ensures ChargedIn(c, trace, n, period) == Nothing
  {
    if n > 0 {
      NothingChargedYet(c, trace, n - 1, period);
      ChargedInStep(c, trace, n - 1, period);
    }
  }

  lemma ChargedInStep(c: Config, trace: seq<Entry>, n: nat, period: nat)
    requires n < |trace|
    ensures ChargedIn(c, trace, n + 1, period) ==
            if PeriodOf(c.resetSeconds, trace[n].now) == period && IsCharged(c, trace[n].verdict)
            then Then(ChargedIn(c, trace, n, period), trace[n].cost) else ChargedIn(c, trace, n, period)
  {
    PeriodBounds(c, trace[n].now, period);
  }

  /** An offer leaves its window charged with what the trace then says. */
  lemma ChargedStep(c: Config, w: Window, offers: seq<Offer>, n: nat)
    requires n < |offers|
    requires var p := PeriodOf(c.resetSeconds, offers[n].now);
             JudgedIn(c, w, offers, n).charges == ChargedIn(c, Trace(c, w, offers), n, p)
    ensures var p := PeriodOf(c.resetSeconds, offers[n].now);
            After(c, w, offers, n + 1) == Window(p, ChargedIn(c, Trace(c, w, offers), n + 1, p))
  {
    ChargedInStep(c, Trace(c, w, offers), n, PeriodOf(c.resetSeconds, offers[n].now));
  }

  /** The offers made so far in the period of `now` were made in one go, and up to now. */
  ghost predicate Unbroken(c: Config, offers: seq<Offer>, n: nat, now: nat)
    requires n <= |offers|
  {
    forall i, j | 0 <= i < j < n && PeriodOf(c.resetSeconds, offers[i].now) == PeriodOf(c.resetSeconds, now) ::
      PeriodOf(c.resetSeconds, offers[j].now) == PeriodOf(c.resetSeconds, now)
  }

  /**
   * Unless the clock has left the period and come back, the window an offer at `now` is judged in holds exactly
   * the charged offers of that period so far: every offer inbound, the admitted ones outbound.
   */
  lemma {:induction false} WindowIsTrace(c: Config, start: nat, offers: seq<Offer>, n: nat, now: nat)
    requires n <= |offers| && Unbroken(c, offers, n, now)
    ensures var w, p := Fresh(c, start), PeriodOf(c.resetSeconds, now);
            Roll(After(c, w, offers, n), p) == Window(p, ChargedIn(c, Trace(c, w, offers), n, p))
  {
    if n > 0 {
      var p, trace := PeriodOf(c.resetSeconds, now), Trace(c, Fresh(c, start), offers);
      if PeriodOf(c.resetSeconds, offers[n - 1].now) == p {
        WindowIsTrace(c, start, offers, n - 1, offers[n - 1].now);
        ChargedStep(c, Fresh(c, start), offers, n - 1);
      } else {
        NothingChargedYet(c, trace, n, p);
      }
    }
  }
}
