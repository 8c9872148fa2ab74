/** How runs of the limiter relate to each other, and what each verdict means (src/rate_limit.rs). */
module RateLimitRelations {
  import opened Wire
  import opened RateLimits
  import opened RateLimitRuns

  // ---------------------------------------------------------------------------------------------
  // What the verdicts mean
  // ---------------------------------------------------------------------------------------------

  /** An empty window admits exactly what is not `Unsendable`: no first message of a window is ever `Deferred`. */
  lemma FirstOfWindow(c: Config, m: Charge)
    requires NonNegative(c)
    ensures Verdict(c, Nothing, m) != Deferred
  {
    SumsOfOne(m, c.rules.aggregate);
  }

  lemma UnsendableIgnoresTheWindow(c: Config, charges: Charges, charges': Charges, m: Charge)
    ensures Verdict(c, charges, m) == Unsendable <==> Verdict(c, charges', m) == Unsendable
  {
  }

  /** `Unsendable` is exactly permanent refusal: no window, however it was charged, admits the message. */
  lemma UnsendableExactly(c: Config, charges: Charges, m: Charge)
    requires NonNegative(c)
    ensures Verdict(c, charges, m) == Unsendable <==> forall charges' :: Verdict(c, charges', m) != Admitted
  {
    FirstOfWindow(c, m);
    if forall charges' :: Verdict(c, charges', m) != Admitted {
      assert Verdict(c, Nothing, m) != Admitted;
      UnsendableIgnoresTheWindow(c, charges, Nothing, m);
    }
  }

  /** A deferred message is admitted if it is the first one offered in any other window. */
  lemma DeferredIsWorthWaiting(c: Config, w: Window, period: nat, later: nat, m: Charge)
    requires NonNegative(c)
    requires Offered(c, w, period, m).1 == Deferred && period != later
    ensures Offered(c, Offered(c, w, period, m).0, later, m).1 == Admitted
  {
    FirstOfWindow(c, m);
    UnsendableIgnoresTheWindow(c, Roll(w, period).charges, Nothing, m);
  }

  // ---------------------------------------------------------------------------------------------
  // Charges only add up
  // ---------------------------------------------------------------------------------------------

  /** On the opcodes `ops`, `less` adds up to no more than `more`. */
  predicate Below(less: Charges, more: Charges, ops: set<byte>) {
    Count(less, ops) <= Count(more, ops) && Size(less, ops) <= Size(more, ops)
  }

  lemma BelowStep(less: Charges, more: Charges, ops: set<byte>, m: Charge)
    requires Below(less, more, ops)
    ensures Below(less, Then(more, m), ops) && Below(Then(less, m), Then(more, m), ops)
  {
  }

  /** The fuller window admits no more. */
  lemma {:induction false} FullerAdmitsLess(c: Config, less: Charges, more: Charges, m: Charge)
    requires Below(less, more, {m.opcode}) && Below(less, more, c.rules.aggregate)
    requires Verdict(c, more, m) == Admitted
    ensures Verdict(c, less, m) == Admitted
  {
    BelowStep(less, more, {m.opcode}, m);
    BelowStep(less, more, c.rules.aggregate, m);
  }

  // ---------------------------------------------------------------------------------------------
  // Direction dominance
  // ---------------------------------------------------------------------------------------------

  /** Whether a message is charged or not, a window that was below stays below one that charges it. */
  lemma BelowOffer(c: Config, outbound: Window, inbound: Window, ops: set<byte>, period: nat, m: Charge)
    requires outbound.period == inbound.period && Below(outbound.charges, inbound.charges, ops)
    ensures var o, i := Offered(c.(direction := Outbound), outbound, period, m).0,
                        Offered(c.(direction := Inbound), inbound, period, m).0;
            o.period == i.period && Below(o.charges, i.charges, ops)
  {
    BelowStep(Roll(outbound, period).charges, Roll(inbound, period).charges, ops, m);
  }

  /**
   * Fed the same offers, the inbound limiter is always charged at least as much as the outbound one, on every
   * group of opcodes, and both are in the same window.
   */
  lemma {:induction false} InboundChargedMore(c: Config, w: Window, offers: seq<Offer>, n: nat, ops: set<byte>)
    requires n <= |offers|
    ensures var inbound := After(c.(direction := Inbound), w, offers, n);
            var outbound := After(c.(direction := Outbound), w, offers, n);
            inbound.period == outbound.period && Below(outbound.charges, inbound.charges, ops)
  {
    if n > 0 {
      InboundChargedMore(c, w, offers, n - 1, ops);
      BelowOffer(c, After(c.(direction := Outbound), w, offers, n - 1), After(c.(direction := Inbound), w, offers, n - 1),
                 ops, PeriodOf(c.resetSeconds, offers[n - 1].now), offers[n - 1].Cost());
    }
  }

  /** Whatever the inbound limiter admits the outbound one admits, and both call the same messages unsendable. */
  lemma DirectionDominance(c: Config, w: Window, offers: seq<Offer>, i: nat)
    requires i < |offers|
    ensures var inbound := VerdictAt(c.(direction := Inbound), w, offers, i);
            var outbound := VerdictAt(c.(direction := Outbound), w, offers, i);
            (inbound == Admitted ==> outbound == Admitted) && (inbound == Unsendable <==> outbound == Unsendable)
  {
    var m := offers[i].Cost();
    InboundChargedMore(c, w, offers, i, {m.opcode});
    InboundChargedMore(c, w, offers, i, c.rules.aggregate);
    var inbound := JudgedIn(c.(direction := Inbound), w, offers, i).charges;
    var outbound := JudgedIn(c.(direction := Outbound), w, offers, i).charges;
    assert Verdict(c, inbound, m) == Verdict(c.(direction := Inbound), inbound, m);
    assert Verdict(c, outbound, m) == Verdict(c.(direction := Outbound), outbound, m);
    if Verdict(c, inbound, m) == Admitted {
      FullerAdmitsLess(c, outbound, inbound, m);
    }
    UnsendableIgnoresTheWindow(c, inbound, outbound, m);
  }

  // ---------------------------------------------------------------------------------------------
  // The inbound ratchet and lockout
  // ---------------------------------------------------------------------------------------------

  /** Every offer from the `i`-th to the `j`-th is made in one window. */
  ghost predicate SameWindow(c: Config, offers: seq<Offer>, i: nat, j: nat)
    requires i <= j < |offers|
  {
    forall k | i <= k <= j :: PeriodOf(c.resetSeconds, offers[k].now) == PeriodOf(c.resetSeconds, offers[i].now)
  }

  /** Inbound, an offer is charged to its window whatever the verdict. */
  lemma InboundCharges(c: Config, w: Window, offers: seq<Offer>, i: nat)
    requires c.direction == Inbound && i < |offers|
    ensures After(c, w, offers, i + 1) ==
            Window(PeriodOf(c.resetSeconds, offers[i].now), Then(JudgedIn(c, w, offers, i).charges, offers[i].Cost()))
  {
  }

  /** Inbound, within one window, an offer is judged on top of everything offered just before. */
  lemma InboundJudgedNext(c: Config, w: Window, offers: seq<Offer>, i: nat)
    requires c.direction == Inbound && i + 1 < |offers|
    requires PeriodOf(c.resetSeconds, offers[i + 1].now) == PeriodOf(c.resetSeconds, offers[i].now)
    ensures JudgedIn(c, w, offers, i + 1).charges == Then(JudgedIn(c, w, offers, i).charges, offers[i].Cost())
  {
    InboundCharges(c, w, offers, i);
  }

  /** Inbound, a window's charges only grow while it lasts. */
  lemma {:induction false} InboundOnlyGrows(c: Config, w: Window, offers: seq<Offer>, i: nat, j: nat, ops: set<byte>)
    requires c.direction == Inbound && i < j < |offers| && SameWindow(c, offers, i, j)
    ensures Below(Then(JudgedIn(c, w, offers, i).charges, offers[i].Cost()), JudgedIn(c, w, offers, j).charges, ops)
    decreases j
  {
    InboundJudgedNext(c, w, offers, j - 1);
    if i + 1 < j {
      InboundOnlyGrows(c, w, offers, i, j - 1, ops);
      BelowStep(Then(JudgedIn(c, w, offers, i).charges, offers[i].Cost()), JudgedIn(c, w, offers, j - 1).charges,
                ops, offers[j - 1].Cost());
    }
  }

  /** What one window has refused as over budget it refuses again, whatever follows: deferral is not undone by sending less. */
  lemma OverBudgetStays(c: Config, charges: Charges, later: Charges, first: Charge, m: Charge)
    requires Verdict(c, charges, first) == Deferred && m.opcode == first.opcode
    requires Below(Then(charges, first), later, {m.opcode}) && Below(Then(charges, first), later, c.rules.aggregate)
    ensures Verdict(c, later, m) != Admitted
  {
    BelowStep(Then(charges, first), later, {m.opcode}, m);
    BelowStep(Then(charges, first), later, c.rules.aggregate, m);
  }

  /** Inbound, once an opcode has been deferred no message of that opcode is admitted before the window rolls. */
  lemma InboundRatchet(c: Config, w: Window, offers: seq<Offer>, i: nat, j: nat)
    requires c.direction == Inbound && i < j < |offers| && SameWindow(c, offers, i, j)
    requires offers[i].Cost().opcode == offers[j].Cost().opcode
    requires VerdictAt(c, w, offers, i) == Deferred
    ensures VerdictAt(c, w, offers, j) != Admitted
  {
    InboundOnlyGrows(c, w, offers, i, j, {offers[j].Cost().opcode});
    InboundOnlyGrows(c, w, offers, i, j, c.rules.aggregate);
    OverBudgetStays(c, JudgedIn(c, w, offers, i).charges, JudgedIn(c, w, offers, j).charges,
                    offers[i].Cost(), offers[j].Cost());
  }

  /** The charges on the aggregate exceed its budget. */
  predicate AggregateOverrun(c: Config, charges: Charges) {
    !Within(charges, c.rules.aggregate, c.rules.shared)
  }

  lemma OverrunRefusesAll(c: Config, overrun: Charges, later: Charges, m: Charge)
    requires AggregateOverrun(c, overrun) && Below(overrun, later, c.rules.aggregate)
    ensures Verdict(c, later, m) != Admitted
  {
    BelowStep(overrun, later, c.rules.aggregate, m);
  }

  /** Inbound, an overrun aggregate refuses every opcode, aggregate or not, until the window rolls. */
  lemma InboundLockout(c: Config, w: Window, offers: seq<Offer>, i: nat, j: nat)
    requires c.direction == Inbound && i < j < |offers| && SameWindow(c, offers, i, j)
    requires AggregateOverrun(c, After(c, w, offers, i + 1).charges)
    ensures VerdictAt(c, w, offers, j) != Admitted
  {
    InboundCharges(c, w, offers, i);
    InboundOnlyGrows(c, w, offers, i, j, c.rules.aggregate);
    OverrunRefusesAll(c, After(c, w, offers, i + 1).charges, JudgedIn(c, w, offers, j).charges, offers[j].Cost());
  }
}
