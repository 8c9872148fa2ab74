/** What the limiter admits in any span of real time (src/rate_limit.rs). */
module RateLimitSpans {
  import opened Wire
  import opened RateLimits
  import opened RateLimitRuns
  import opened RateLimitVisits
  import opened RateLimitBursts

  // ---------------------------------------------------------------------------------------------
  // How many windows a span touches
  // ---------------------------------------------------------------------------------------------

  /** How many windows the span `lo <= now < hi` touches. */
  function WindowsTouched(c: Config, lo: nat, hi: nat): nat
    requires lo <= hi
  {
    if lo == hi then 0 else
    PeriodsGrow(c, lo, hi - 1);
    PeriodOf(c.resetSeconds, hi - 1) - PeriodOf(c.resetSeconds, lo) + 1
  }

  /** The most windows `d` seconds can touch. */
  function MostWindows(c: Config, d: nat): nat {
    if d == 0 then 0 else (d + c.resetSeconds - 2) / c.resetSeconds + 1
  }

  lemma MostWindowsByPeriods(c: Config, d: nat)
    requires d > 0
    ensures MostWindows(c, d) == PeriodOf(c.resetSeconds, d + c.resetSeconds - 2) + 1
  {
    PeriodIsQuotient(c.resetSeconds, d + c.resetSeconds - 2);
  }

  lemma {:induction false} PeriodsAdd(c: Config, a: nat, b: nat)
    ensures PeriodOf(c.resetSeconds, a + b) <=
            PeriodOf(c.resetSeconds, a) + PeriodOf(c.resetSeconds, b + c.resetSeconds - 1)
    decreases a
  {
    if a >= c.resetSeconds {
      PeriodsAdd(c, a - c.resetSeconds, b);
    } else {
      PeriodsGrow(c, a + b, b + c.resetSeconds - 1);
    }
  }

  /** A span of `d` seconds, however it is aligned, touches at most `MostWindows(d)` windows; one that begins in a window's last second touches as many. */
  lemma FewWindowsTouched(c: Config, lo: nat, d: nat)
    ensures WindowsTouched(c, lo, lo + d) <= MostWindows(c, d)
    ensures lo == c.resetSeconds - 1 ==> WindowsTouched(c, lo, lo + d) == MostWindows(c, d)
  {
    if d > 0 {
      MostWindowsByPeriods(c, d);
      PeriodsAdd(c, lo, d - 1);
    }
  }

  lemma WindowsTouchedStep(c: Config, lo: nat, hi: nat)
    requires lo < hi
    ensures var mid := WindowStart(c, PeriodOf(c.resetSeconds, lo) + 1);
            && lo < mid
            && (hi <= mid ==> WindowsTouched(c, lo, hi) == 1)
            && (mid < hi ==> WindowsTouched(c, lo, mid) == 1 &&
                             WindowsTouched(c, lo, hi) == WindowsTouched(c, mid, hi) + 1)
  {
    var p := PeriodOf(c.resetSeconds, lo);
    var mid := WindowStart(c, p + 1);
    PeriodBounds(c, lo, p);
    PeriodBounds(c, hi - 1, p + 1);
    PeriodsGrow(c, lo, hi - 1);
    PeriodBounds(c, mid - 1, p);
    PeriodBounds(c, mid, p + 1);
    PeriodBounds(c, mid, p + 2);
  }

  // ---------------------------------------------------------------------------------------------
  // What a span admits
  // ---------------------------------------------------------------------------------------------

  /** Booking over a wider span, or booking refusals as well, never adds up to less. */
  lemma {:induction false} BookedMonotone(trace: seq<Entry>, n: nat, ops: set<byte>, lo: nat, hi: nat, refusedToo: bool,
                                          lo': nat, hi': nat, refusedToo': bool)
    requires n <= |trace| && lo' <= lo && hi <= hi' && (refusedToo ==> refusedToo')
    ensures var less, more := Booked(trace, n, lo, hi, refusedToo), Booked(trace, n, lo', hi', refusedToo');
            Count(less, ops) <= Count(more, ops) && Size(less, ops) <= Size(more, ops)
  {
    if n > 0 {
      BookedMonotone(trace, n - 1, ops, lo, hi, refusedToo, lo', hi', refusedToo');
    }
  }

  lemma {:induction false} BookedSplits(trace: seq<Entry>, n: nat, ops: set<byte>, lo: nat, mid: nat, hi: nat)
    requires n <= |trace| && lo <= mid <= hi
    ensures var whole, left, right := Booked(trace, n, lo, hi, false), Booked(trace, n, lo, mid, false),
                                      Booked(trace, n, mid, hi, false);
            && Count(whole, ops) == Count(left, ops) + Count(right, ops)
            && Size(whole, ops) == Size(left, ops) + Size(right, ops)
  {
    if n > 0 {
      BookedSplits(trace, n - 1, ops, lo, mid, hi);
    }
  }

  lemma LessIsWithin(less: Charges, more: Charges, ops: set<byte>, b: Budget)
    requires b.messages >= 0 && b.bytes >= 0 && Spent(more, ops, b)
    requires Count(less, ops) <= Count(more, ops) && Size(less, ops) <= Size(more, ops)
    ensures Within(less, ops, b)
  {
  }

  lemma BudgetsNonNegative(c: Config, g: Group)
    requires NonNegative(c)
    ensures BudgetOf(c, g).messages >= 0 && BudgetOf(c, g).bytes >= 0
  {
    if g.One? {
      assert c.Own(g.opcode).messages >= 0;
    }
  }

  lemma InOneWindow(c: Config, lo: nat, hi: nat)
    requires lo < hi && WindowsTouched(c, lo, hi) == 1
    ensures var p := PeriodOf(c.resetSeconds, lo); WindowStart(c, p) <= lo && hi <= WindowStart(c, p + 1)
  {
    PeriodBounds(c, lo, PeriodOf(c.resetSeconds, lo));
    PeriodBounds(c, hi - 1, PeriodOf(c.resetSeconds, lo));
  }

  /** Part of one window never admits more than that window's budget. */
  lemma PartialWindow(c: Config, start: nat, offers: seq<Offer>, g: Group, lo: nat, hi: nat)
    requires NoReturn(c, ClockOf(offers)) && NonNegative(c)
    requires lo < hi && WindowsTouched(c, lo, hi) == 1
    ensures Within(AdmittedBetween(c, start, offers, lo, hi), OpsOf(c, g), BudgetOf(c, g))
  {
    var p, trace := PeriodOf(c.resetSeconds, lo), Trace(c, Fresh(c, start), offers);
    InOneWindow(c, lo, hi);
    WindowBudget(c, Fresh(c, start), offers, |offers|, p, g);
    BookedMonotone(trace, |offers|, OpsOf(c, g), lo, hi, false, WindowStart(c, p), WindowStart(c, p + 1), false);
    BudgetsNonNegative(c, g);
    LessIsWithin(AdmittedBetween(c, start, offers, lo, hi), AdmittedIn(c, trace, |offers|, p), OpsOf(c, g), BudgetOf(c, g));
  }

  lemma WithinOneMore(whole: Charges, left: Charges, right: Charges, ops: set<byte>, k: nat, b: Budget)
    requires Count(whole, ops) == Count(left, ops) + Count(right, ops)
    requires Size(whole, ops) == Size(left, ops) + Size(right, ops)
    requires Within(left, ops, b) && Within(right, ops, Times(k, b))
    ensures Within(whole, ops, Times(k + 1, b))
  {
  }

  /** Any span admits at most one budget per window it touches. */
  lemma {:induction false} SpanWithin(c: Config, start: nat, offers: seq<Offer>, g: Group, lo: nat, hi: nat)
    requires NoReturn(c, ClockOf(offers)) && NonNegative(c)
    requires lo < hi
    ensures Within(AdmittedBetween(c, start, offers, lo, hi), OpsOf(c, g), Times(WindowsTouched(c, lo, hi), BudgetOf(c, g)))
    decreases hi - lo
  {
    var mid := WindowStart(c, PeriodOf(c.resetSeconds, lo) + 1);
    WindowsTouchedStep(c, lo, hi);
    if hi <= mid {
      PartialWindow(c, start, offers, g, lo, hi);
      WithinOneMore(AdmittedBetween(c, start, offers, lo, hi), AdmittedBetween(c, start, offers, lo, hi), Nothing,
                    OpsOf(c, g), 0, BudgetOf(c, g));
    } else {
      PartialWindow(c, start, offers, g, lo, mid);
      SpanWithin(c, start, offers, g, mid, hi);
      BookedSplits(Trace(c, Fresh(c, start), offers), |offers|, OpsOf(c, g), lo, mid, hi);
      WithinOneMore(AdmittedBetween(c, start, offers, lo, hi), AdmittedBetween(c, start, offers, lo, mid),
                    AdmittedBetween(c, start, offers, mid, hi), OpsOf(c, g), WindowsTouched(c, mid, hi), BudgetOf(c, g));
    }
  }

  lemma {:induction false} EmptySpan(trace: seq<Entry>, n: nat, lo: nat)
    requires n <= |trace|
    ensures Booked(trace, n, lo, lo, false) == Nothing
  {
    if n > 0 {
      EmptySpan(trace, n - 1, lo);
    }
  }

  lemma SpanBudget(c: Config, start: nat, offers: seq<Offer>, g: Group, lo: nat, hi: nat)
    requires NoReturn(c, ClockOf(offers)) && NonNegative(c) && lo <= hi
    ensures var admitted, k, b := AdmittedBetween(c, start, offers, lo, hi), WindowsTouched(c, lo, hi), BudgetOf(c, g);
            Count(admitted, OpsOf(c, g)) <= k * b.messages && Size(admitted, OpsOf(c, g)) <= k * b.bytes
  {
    TimesIsProduct(WindowsTouched(c, lo, hi), BudgetOf(c, g));
    if lo == hi {
      EmptySpan(Trace(c, Fresh(c, start), offers), |offers|, lo);
    } else {
      SpanWithin(c, start, offers, g, lo, hi);
    }
  }

  /**
   * Any `d` seconds admit at most `MostWindows(d)` budgets, of one opcode or of the aggregate, unless the clock
   * returns to a period it has left.
   */
  lemma RealTimeBound(c: Config, start: nat, offers: seq<Offer>, g: Group, lo: nat, d: nat)
    requires NoReturn(c, ClockOf(offers)) && NonNegative(c)
    ensures var admitted, k, b := AdmittedBetween(c, start, offers, lo, lo + d), MostWindows(c, d), BudgetOf(c, g);
            Count(admitted, OpsOf(c, g)) <= k * b.messages && Size(admitted, OpsOf(c, g)) <= k * b.bytes
  {
    var touched, b := WindowsTouched(c, lo, lo + d), BudgetOf(c, g);
    SpanBudget(c, start, offers, g, lo, lo + d);
    FewWindowsTouched(c, lo, d);
    BudgetsNonNegative(c, g);
    TimesIsProduct(touched, b);
    TimesIsProduct(MostWindows(c, d), b);
    TimesGrow(touched, MostWindows(c, d), b);
  }

  // ---------------------------------------------------------------------------------------------
  // Bursts reach the bound
  // ---------------------------------------------------------------------------------------------

  /** When the `i`-th burst is made: in the last second of the first window, then at the start of each window. */
  function BurstTime(c: Config, i: nat): nat {
    if i == 0 then c.resetSeconds - 1 else WindowStart(c, i)
  }

  lemma BurstTimes(c: Config, i: nat)
    ensures PeriodOf(c.resetSeconds, BurstTime(c, i)) == i
    ensures BurstTime(c, i) < BurstTime(c, i + 1)
  {
    assert WindowStart(c, 1) == WindowStart(c, 0) + c.resetSeconds;
    PeriodBounds(c, BurstTime(c, i), i);
  }

  /** A whole budget in each of the first `m` windows. */
  lemma {:induction false} BurstsInARow(c: Config, opcode: byte, m: nat, hi: nat) returns (offers: seq<Offer>)
    requires NonNegative(c) && Bursts(c, opcode) && m > 0 && BurstTime(c, m - 1) < hi
    ensures var start := c.resetSeconds - 1;
            && Timely(start, offers) && MadeBy(start, offers, |offers|, BurstTime(c, m - 1))
            && After(c, Fresh(c, start), offers, |offers|).period == m - 1
            && Count(AdmittedBetween(c, start, offers, start, hi), {opcode}) == Times(m, c.Own(opcode)).messages
  {
    var start, at := c.resetSeconds - 1, BurstTime(c, m - 1);
    offers := [];
    BurstTimes(c, m - 1);
    if m > 1 {
      BurstTimes(c, m - 2);
      offers := BurstsInARow(c, opcode, m - 1, hi);
    }
    offers := AddTimelyBurst(c, start, offers, opcode, at, c.Own(opcode).messages, start, hi);
  }

  /** `RealTimeBound` is sharp: for every length of time some run is admitted as many messages as it allows. */
  lemma RealTimeBoundReached(c: Config, opcode: byte, d: nat) returns (start: nat, offers: seq<Offer>, lo: nat)
    requires NonNegative(c) && Bursts(c, opcode) && d > 0
    ensures Timely(start, offers)
    ensures Count(AdmittedBetween(c, start, offers, lo, lo + d), {opcode}) == MostWindows(c, d) * c.Own(opcode).messages
  {
    var m := MostWindows(c, d);
    start, lo := c.resetSeconds - 1, c.resetSeconds - 1;
    MostWindowsByPeriods(c, d);
    PeriodBounds(c, d + c.resetSeconds - 2, m - 1);
    offers := BurstsInARow(c, opcode, m, start + d);
    TimesIsProduct(m, c.Own(opcode));
  }

  /** No window length of time admits more than twice the budget; windows of two seconds or more do admit that. */
  lemma TwiceTheBudget(c: Config, start: nat, offers: seq<Offer>, g: Group, lo: nat)
    requires NoReturn(c, ClockOf(offers)) && NonNegative(c)
    ensures var admitted, b := AdmittedBetween(c, start, offers, lo, lo + c.resetSeconds), BudgetOf(c, g);
            Count(admitted, OpsOf(c, g)) <= 2 * b.messages && Size(admitted, OpsOf(c, g)) <= 2 * b.bytes
  {
    RealTimeBound(c, start, offers, g, lo, c.resetSeconds);
    TwoWindows(c);
    BudgetsNonNegative(c, g);
  }

  lemma TwoWindows(c: Config)
    ensures MostWindows(c, c.resetSeconds) == if c.resetSeconds == 1 then 1 else 2
  {
    MostWindowsByPeriods(c, c.resetSeconds);
    assert PeriodOf(c.resetSeconds, c.resetSeconds + c.resetSeconds - 2) ==
           if c.resetSeconds == 1 then 0 else 1 by {
      PeriodBounds(c, c.resetSeconds + c.resetSeconds - 2, if c.resetSeconds == 1 then 0 else 1);
      assert WindowStart(c, 0) == 0 && WindowStart(c, 1) == c.resetSeconds && WindowStart(c, 2) == WindowStart(c, 1) + c.resetSeconds;
    }
  }

  lemma TwiceIsReached(c: Config, opcode: byte) returns (start: nat, offers: seq<Offer>, lo: nat)
    requires NonNegative(c) && Bursts(c, opcode) && c.resetSeconds >= 2
    ensures Timely(start, offers)
    ensures Count(AdmittedBetween(c, start, offers, lo, lo + c.resetSeconds), {opcode}) == 2 * c.Own(opcode).messages
  {
    TwoWindows(c);
    start, offers, lo := RealTimeBoundReached(c, opcode, c.resetSeconds);
  }

  // ---------------------------------------------------------------------------------------------
  // Exactly the spans that keep to one budget
  // ---------------------------------------------------------------------------------------------

  /** A run whose clock does not return that admits more than one budget of `opcode` in the window length of time from `lo` on. */
  ghost predicate Overspends(c: Config, opcode: byte, lo: nat, start: nat, offers: seq<Offer>) {
    NoReturn(c, ClockOf(offers)) && !Within(AdmittedBetween(c, start, offers, lo, lo + c.resetSeconds), {opcode}, c.Own(opcode))
  }

  /** `lo` is the first second of a window. */
  predicate Aligned(c: Config, lo: nat) {
    lo == WindowStart(c, PeriodOf(c.resetSeconds, lo))
  }

  /** A window length of time that is not a window has a roll inside. */
  lemma RollWithin(c: Config, lo: nat) returns (mid: nat)
    requires !Aligned(c, lo)
    ensures lo < mid < lo + c.resetSeconds && PeriodOf(c.resetSeconds, mid - 1) != PeriodOf(c.resetSeconds, mid)
  {
    var p := PeriodOf(c.resetSeconds, lo);
    mid := WindowStart(c, p + 1);
    PeriodBounds(c, lo, p);
    PeriodBounds(c, mid - 1, p);
    PeriodBounds(c, mid, p + 1);
  }

  /** A burst in a window's last second and one more message in the next second. */
  lemma BurstAcross(c: Config, opcode: byte, mid: nat, lo: nat, hi: nat) returns (offers: seq<Offer>)
    requires NonNegative(c) && Bursts(c, opcode) && lo < mid < hi
    requires PeriodOf(c.resetSeconds, mid - 1) != PeriodOf(c.resetSeconds, mid)
    ensures Timely(mid - 1, offers)
    ensures Count(AdmittedBetween(c, mid - 1, offers, lo, hi), {opcode}) == c.Own(opcode).messages + 1
  {
    offers := AddTimelyBurst(c, mid - 1, [], opcode, mid - 1, c.Own(opcode).messages, lo, hi);
    offers := AddTimelyBurst(c, mid - 1, offers, opcode, mid, 1, lo, hi);
  }

  lemma UnalignedOverspends(c: Config, opcode: byte, lo: nat) returns (start: nat, offers: seq<Offer>)
    requires NonNegative(c) && Bursts(c, opcode) && !Aligned(c, lo)
    ensures Timely(start, offers) && Overspends(c, opcode, lo, start, offers)
  {
    var mid := RollWithin(c, lo);
    start := mid - 1;
    offers := BurstAcross(c, opcode, mid, lo, lo + c.resetSeconds);
    TimelyNeverReturns(c, start, offers);
  }

  lemma AlignedKeepsToOne(c: Config, opcode: byte, lo: nat, start: nat, offers: seq<Offer>)
    requires NonNegative(c) && Aligned(c, lo)
    ensures !Overspends(c, opcode, lo, start, offers)
  {
    PeriodBounds(c, lo + c.resetSeconds - 1, PeriodOf(c.resetSeconds, lo));
    if NoReturn(c, ClockOf(offers)) {
      PartialWindow(c, start, offers, One(opcode), lo, lo + c.resetSeconds);
    }
  }

  /**
   * The limiter is sliding for no alignment but its own: every run keeps to one budget of an opcode over a
   * window length of time if and only if that time is one of the limiter's windows.
   */
  lemma OneBudgetExactly(c: Config, opcode: byte, lo: nat)
    requires NonNegative(c) && Bursts(c, opcode)
    ensures (forall start: nat, offers: seq<Offer> :: !Overspends(c, opcode, lo, start, offers)) <==> Aligned(c, lo)
  {
    if Aligned(c, lo) {
      forall start: nat, offers: seq<Offer>
        ensures !Overspends(c, opcode, lo, start, offers)
      {
        AlignedKeepsToOne(c, opcode, lo, start, offers);
      }
    } else {
      var start, offers := UnalignedOverspends(c, opcode, lo);
    }
  }
}
