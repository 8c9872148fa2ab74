/**
 * What a window admits under any clock (src/rate_limit.rs).
 *
 * The limiter forgets a window whenever it finds itself in another, so what counts is not the period but the visit:
 * an unbroken stretch of offers made in it.
 */
module RateLimitVisits {
  import opened Wire
  import opened RateLimits
  import opened RateLimitRuns

  /** What a budget is for: one opcode, or all that share the aggregate. */
  datatype Group = One(opcode: byte) | Aggregated

  function OpsOf(c: Config, g: Group): set<byte> {
    if g.One? then {g.opcode} else c.rules.aggregate
  }

  function BudgetOf(c: Config, g: Group): Budget {
    if g.One? then c.Own(g.opcode) else c.rules.shared
  }

  /** What the first `n` entries say was admitted in window `period`. */
  function AdmittedIn(c: Config, trace: seq<Entry>, n: nat, period: nat): Charges
    requires n <= |trace|
  {
    Booked(trace, n, WindowStart(c, period), WindowStart(c, period + 1), false)
  }

  lemma AdmittedInStep(c: Config, trace: seq<Entry>, n: nat, period: nat)
    requires n < |trace|
    ensures AdmittedIn(c, trace, n + 1, period) ==
            if PeriodOf(c.resetSeconds, trace[n].now) == period && trace[n].verdict == Admitted
            then Then(AdmittedIn(c, trace, n, period), trace[n].cost) else AdmittedIn(c, trace, n, period)
  {
    PeriodBounds(c, trace[n].now, period);
  }

  /** Nothing was charged to `ops`, or what was charged stays within `b`. */
  predicate Spent(charges: Charges, ops: set<byte>, b: Budget) {
    (Count(charges, ops) == 0 && Size(charges, ops) == 0) || Within(charges, ops, b)
  }

  // ---------------------------------------------------------------------------------------------
  // Several budgets
  // ---------------------------------------------------------------------------------------------

  /** `k` windows' worth of budget `b`. */
  function Times(k: nat, b: Budget): Budget {
    if k == 0 then Budget(0, 0) else
    Budget(Times(k - 1, b).messages + b.messages, Times(k - 1, b).bytes + b.bytes)
  }

  lemma {:induction false} TimesIsProduct(k: nat, b: Budget)
    ensures Times(k, b) == Budget(k * b.messages, k * b.bytes)
  {
    if k > 0 {
      TimesIsProduct(k - 1, b);
      assert k * b.messages == (k - 1) * b.messages + b.messages && k * b.bytes == (k - 1) * b.bytes + b.bytes;
    }
  }

  lemma {:induction false} TimesGrow(j: nat, k: nat, b: Budget)
    requires j <= k && b.messages >= 0 && b.bytes >= 0
    ensures 0 <= Times(j, b).messages <= Times(k, b).messages
    ensures 0 <= Times(j, b).bytes <= Times(k, b).bytes
    decreases k
  {
    if j < k {
      TimesGrow(j, k - 1, b);
    } else if k > 0 {
      TimesGrow(k - 1, k - 1, b);
    }
  }

  /** As `Spent`, for a count and a size, and `k` budgets. */
  predicate SpentSum(count: int, size: int, k: nat, b: Budget) {
    (count == 0 && size == 0) ||
    (b.messages >= 0 && b.bytes >= 0 && count <= Times(k, b).messages && size <= Times(k, b).bytes)
  }

  lemma SpentAdds(count: int, size: int, k: nat, charges: Charges, ops: set<byte>, b: Budget)
    requires SpentSum(count, size, k, b) && Spent(charges, ops, b)
    ensures SpentSum(count + Count(charges, ops), size + Size(charges, ops), k + 1, b)
  {
    if b.messages >= 0 && b.bytes >= 0 {
      TimesGrow(k, k, b);
    }
  }

  // ---------------------------------------------------------------------------------------------
  // One visit, one budget
  // ---------------------------------------------------------------------------------------------

  /** The times at which offers are made. */
  function ClockOf(offers: seq<Offer>): (clock: seq<nat>)
    ensures |clock| == |offers| && forall i | 0 <= i < |offers| :: clock[i] == offers[i].now
  {
    seq(|offers|, i requires 0 <= i < |offers| => offers[i].now)
  }

  /** How often the first `n` times enter `period`. */
  function Visits(c: Config, clock: seq<nat>, n: nat, period: nat): nat
    requires n <= |clock|
  {
    if n == 0 then 0 else Visits(c, clock, n - 1, period) + if Enters(c, clock, n - 1, period) then 1 else 0
  }

  /** The `i`-th time is in `period`, and the one before was not. */
  predicate Enters(c: Config, clock: seq<nat>, i: nat, period: nat)
    requires i < |clock|
  {
    PeriodOf(c.resetSeconds, clock[i]) == period && (i == 0 || PeriodOf(c.resetSeconds, clock[i - 1]) != period)
  }

  /** What was admitted before the `i`-th offer in the visit it belongs to. */
  function Earlier(c: Config, w: Window, offers: seq<Offer>, i: nat): Charges
    requires i < |offers|
    decreases i, 0
  {
    if Enters(c, ClockOf(offers), i, PeriodOf(c.resetSeconds, offers[i].now)) then Nothing else Visited(c, w, offers, i)
  }

  /** What was admitted in the visit the last of the first `n` offers belongs to. */
  function Visited(c: Config, w: Window, offers: seq<Offer>, n: nat): Charges
    requires 0 < n <= |offers|
    decreases n - 1, 1
  {
    var earlier := Earlier(c, w, offers, n - 1);
    if VerdictAt(c, w, offers, n - 1) == Admitted then Then(earlier, offers[n - 1].Cost()) else earlier
  }

  /** Whatever a visit admitted is charged to the window an offer of it is judged in. */
  lemma {:induction false} EarlierIsCharged(c: Config, w: Window, offers: seq<Offer>, i: nat, ops: set<byte>)
    requires i < |offers|
    ensures Count(Earlier(c, w, offers, i), ops) <= Count(JudgedIn(c, w, offers, i).charges, ops)
    ensures Size(Earlier(c, w, offers, i), ops) <= Size(JudgedIn(c, w, offers, i).charges, ops)
  {
    if !Enters(c, ClockOf(offers), i, PeriodOf(c.resetSeconds, offers[i].now)) {
      EarlierIsCharged(c, w, offers, i - 1, ops);
    }
  }

  /** Admission means that the window keeps to every budget it touches. */
  lemma AdmittedMeansWithin(c: Config, w: Window, offers: seq<Offer>, i: nat, g: Group)
    requires i < |offers| && VerdictAt(c, w, offers, i) == Admitted && offers[i].Cost().opcode in OpsOf(c, g)
    ensures Within(Then(JudgedIn(c, w, offers, i).charges, offers[i].Cost()), OpsOf(c, g), BudgetOf(c, g))
  {
  }

  /** One more admission, within budget on top of what was charged, is within budget on top of what was admitted. */
  lemma SpentOneMore(admitted: Charges, charged: Charges, ops: set<byte>, b: Budget, m: Charge)
    requires Count(admitted, ops) <= Count(charged, ops) && Size(admitted, ops) <= Size(charged, ops)
    requires Spent(admitted, ops, b) && (m.opcode in ops ==> Within(Then(charged, m), ops, b))
    ensures Spent(Then(admitted, m), ops, b)
  {
  }

  /** One visit admits at most one budget. */
  lemma {:induction false} VisitSpent(c: Config, w: Window, offers: seq<Offer>, n: nat, g: Group)
    requires 0 < n <= |offers|
    ensures Spent(Visited(c, w, offers, n), OpsOf(c, g), BudgetOf(c, g))
  {
    var i, m := n - 1, offers[n - 1].Cost();
    if !Enters(c, ClockOf(offers), i, PeriodOf(c.resetSeconds, offers[i].now)) {
      VisitSpent(c, w, offers, i, g);
    }
    if VerdictAt(c, w, offers, i) == Admitted {
      EarlierIsCharged(c, w, offers, i, OpsOf(c, g));
      if m.opcode in OpsOf(c, g) {
        AdmittedMeansWithin(c, w, offers, i, g);
      }
      SpentOneMore(Earlier(c, w, offers, i), JudgedIn(c, w, offers, i).charges, OpsOf(c, g), BudgetOf(c, g), m);
    }
  }

  /** The visits before the current one have kept to a budget each. */
  ghost predicate PastSpent(c: Config, w: Window, offers: seq<Offer>, n: nat, period: nat, g: Group)
    requires n <= |offers|
  {
    var admitted, ops, k := AdmittedIn(c, Trace(c, w, offers), n, period), OpsOf(c, g), Visits(c, ClockOf(offers), n, period);
    if n > 0 && PeriodOf(c.resetSeconds, offers[n - 1].now) == period then
      var visited := Visited(c, w, offers, n);
      k > 0 &&
      SpentSum(Count(admitted, ops) - Count(visited, ops), Size(admitted, ops) - Size(visited, ops), k - 1, BudgetOf(c, g))
    else
      SpentSum(Count(admitted, ops), Size(admitted, ops), k, BudgetOf(c, g))
  }

  lemma AllSpent(c: Config, w: Window, offers: seq<Offer>, n: nat, period: nat, g: Group)
    requires n <= |offers| && PastSpent(c, w, offers, n, period, g)
    ensures var admitted, ops := AdmittedIn(c, Trace(c, w, offers), n, period), OpsOf(c, g);
            SpentSum(Count(admitted, ops), Size(admitted, ops), Visits(c, ClockOf(offers), n, period), BudgetOf(c, g))
  {
    if n > 0 && PeriodOf(c.resetSeconds, offers[n - 1].now) == period {
      var admitted, visited, ops := AdmittedIn(c, Trace(c, w, offers), n, period), Visited(c, w, offers, n), OpsOf(c, g);
      VisitSpent(c, w, offers, n, g);
      SpentAdds(Count(admitted, ops) - Count(visited, ops), Size(admitted, ops) - Size(visited, ops),
                Visits(c, ClockOf(offers), n, period) - 1, visited, ops, BudgetOf(c, g));
    }
  }

  /** One more offer in the same visit adds as much to the visit as to the period. */
  lemma StayingKeepsPast(c: Config, w: Window, offers: seq<Offer>, n: nat, period: nat, g: Group)
    requires 0 < n < |offers| && PastSpent(c, w, offers, n, period, g)
    requires PeriodOf(c.resetSeconds, offers[n].now) == period && !Enters(c, ClockOf(offers), n, period)
    ensures PastSpent(c, w, offers, n + 1, period, g)
  {
    AdmittedInStep(c, Trace(c, w, offers), n, period);
    assert Earlier(c, w, offers, n) == Visited(c, w, offers, n);
  }

  /** An offer that enters the period begins a visit with nothing admitted. */
  lemma EnteringKeepsPast(c: Config, w: Window, offers: seq<Offer>, n: nat, period: nat, g: Group)
    requires n < |offers| && PastSpent(c, w, offers, n, period, g) && Enters(c, ClockOf(offers), n, period)
    ensures PastSpent(c, w, offers, n + 1, period, g)
  {
    AdmittedInStep(c, Trace(c, w, offers), n, period);
    assert Earlier(c, w, offers, n) == Nothing;
  }

  /** An offer elsewhere ends the visit, if there was one. */
  lemma LeavingKeepsPast(c: Config, w: Window, offers: seq<Offer>, n: nat, period: nat, g: Group)
    requires n < |offers| && PastSpent(c, w, offers, n, period, g)
    requires PeriodOf(c.resetSeconds, offers[n].now) != period
    ensures PastSpent(c, w, offers, n + 1, period, g)
  {
    AdmittedInStep(c, Trace(c, w, offers), n, period);
    AllSpent(c, w, offers, n, period, g);
  }

  lemma {:induction false} PastIsSpent(c: Config, w: Window, offers: seq<Offer>, n: nat, period: nat, g: Group)
    requires n <= |offers|
    ensures PastSpent(c, w, offers, n, period, g)
  {
    if n > 0 {
      PastIsSpent(c, w, offers, n - 1, period, g);
      if PeriodOf(c.resetSeconds, offers[n - 1].now) != period {
        LeavingKeepsPast(c, w, offers, n - 1, period, g);
      } else if Enters(c, ClockOf(offers), n - 1, period) {
        EnteringKeepsPast(c, w, offers, n - 1, period, g);
      } else {
        StayingKeepsPast(c, w, offers, n - 1, period, g);
      }
    }
  }

  /** Under any clock whatever, a period admits at most one budget for each time the clock enters it. */
  lemma BudgetPerVisit(c: Config, w: Window, offers: seq<Offer>, n: nat, period: nat, g: Group)
    requires n <= |offers|
    ensures var admitted, ops := AdmittedIn(c, Trace(c, w, offers), n, period), OpsOf(c, g);
            var k, b := Visits(c, ClockOf(offers), n, period), BudgetOf(c, g);
            (Count(admitted, ops) == 0 && Size(admitted, ops) == 0) ||
            (Count(admitted, ops) <= k * b.messages && Size(admitted, ops) <= k * b.bytes)
  {
    PastIsSpent(c, w, offers, n, period, g);
    AllSpent(c, w, offers, n, period, g);
    TimesIsProduct(Visits(c, ClockOf(offers), n, period), BudgetOf(c, g));
  }

  // ---------------------------------------------------------------------------------------------
  // Clocks that never return
  // ---------------------------------------------------------------------------------------------

  /** No period is entered again once it has been left; the clock may step back within one. */
  ghost predicate NoReturn(c: Config, clock: seq<nat>) {
    forall i, j, k | 0 <= i < j < k < |clock| ::
      PeriodOf(c.resetSeconds, clock[i]) == PeriodOf(c.resetSeconds, clock[k]) ==>
      PeriodOf(c.resetSeconds, clock[j]) == PeriodOf(c.resetSeconds, clock[i])
  }

  lemma TimelyNeverReturns(c: Config, start: nat, offers: seq<Offer>)
    requires Timely(start, offers)
    ensures NoReturn(c, ClockOf(offers))
  {
    forall i, j, k | 0 <= i < j < k < |offers| &&
      PeriodOf(c.resetSeconds, offers[i].now) == PeriodOf(c.resetSeconds, offers[k].now)
      ensures PeriodOf(c.resetSeconds, offers[j].now) == PeriodOf(c.resetSeconds, offers[i].now)
    {
      PeriodsGrow(c, offers[i].now, offers[j].now);
      PeriodsGrow(c, offers[j].now, offers[k].now);
    }
  }

  lemma {:induction false} VisitedBefore(c: Config, clock: seq<nat>, n: nat, period: nat) returns (i: nat)
    requires n <= |clock| && Visits(c, clock, n, period) > 0
    ensures i < n && PeriodOf(c.resetSeconds, clock[i]) == period
  {
    if Enters(c, clock, n - 1, period) {
      i := n - 1;
    } else {
      i := VisitedBefore(c, clock, n - 1, period);
    }
  }

  lemma {:induction false} OneVisitEach(c: Config, clock: seq<nat>, n: nat, period: nat)
    requires NoReturn(c, clock) && n <= |clock|
    ensures Visits(c, clock, n, period) <= 1
  {
    if n > 0 {
      OneVisitEach(c, clock, n - 1, period);
      if Enters(c, clock, n - 1, period) && Visits(c, clock, n - 1, period) > 0 {
        var i := VisitedBefore(c, clock, n - 1, period);
        assert false;
      }
    }
  }

  lemma {:induction false} VisitsGrow(c: Config, clock: seq<nat>, m: nat, n: nat, period: nat)
    requires m <= n <= |clock|
    ensures Visits(c, clock, m, period) <= Visits(c, clock, n, period)
    decreases n
  {
    if m < n {
      VisitsGrow(c, clock, m, n - 1, period);
    }
  }

  /** An offer made in a period belongs to some visit. */
  lemma {:induction false} SomeVisit(c: Config, clock: seq<nat>, i: nat)
    requires i < |clock|
    ensures Visits(c, clock, i + 1, PeriodOf(c.resetSeconds, clock[i])) > 0
  {
    if !Enters(c, clock, i, PeriodOf(c.resetSeconds, clock[i])) {
      SomeVisit(c, clock, i - 1);
    }
  }

  /** Whoever is back after having been away has entered again. */
  lemma {:induction false} BackAgain(c: Config, clock: seq<nat>, j: nat, k: nat)
    requires j < k < |clock|
    requires PeriodOf(c.resetSeconds, clock[j]) != PeriodOf(c.resetSeconds, clock[k])
    ensures var p := PeriodOf(c.resetSeconds, clock[k]);
            Visits(c, clock, k + 1, p) > Visits(c, clock, j + 1, p)
    decreases k
  {
    var p := PeriodOf(c.resetSeconds, clock[k]);
    if Enters(c, clock, k, p) {
      VisitsGrow(c, clock, j + 1, k, p);
    } else {
      BackAgain(c, clock, j, k - 1);
    }
  }

  /** A return is a second visit. */
  lemma ReturnIsAVisit(c: Config, clock: seq<nat>, i: nat, j: nat, k: nat)
    requires i < j < k < |clock|
    requires PeriodOf(c.resetSeconds, clock[i]) == PeriodOf(c.resetSeconds, clock[k])
    requires PeriodOf(c.resetSeconds, clock[j]) != PeriodOf(c.resetSeconds, clock[i])
    ensures Visits(c, clock, |clock|, PeriodOf(c.resetSeconds, clock[i])) >= 2
  {
    var p := PeriodOf(c.resetSeconds, clock[i]);
    SomeVisit(c, clock, i);
    VisitsGrow(c, clock, i + 1, j + 1, p);
    BackAgain(c, clock, j, k);
    VisitsGrow(c, clock, k + 1, |clock|, p);
  }

  /**
   * Unless the clock returns to a period it has left, the admitted messages of each opcode, and those of the
   * aggregate, stay within the scaled budgets in every window.
   */
  lemma WindowBudget(c: Config, w: Window, offers: seq<Offer>, n: nat, period: nat, g: Group)
    requires NoReturn(c, ClockOf(offers)) && n <= |offers|
    ensures Spent(AdmittedIn(c, Trace(c, w, offers), n, period), OpsOf(c, g), BudgetOf(c, g))
  {
    OneVisitEach(c, ClockOf(offers), n, period);
    PastIsSpent(c, w, offers, n, period, g);
    AllSpent(c, w, offers, n, period, g);
    assert Times(0, BudgetOf(c, g)) == Budget(0, 0) && Times(1, BudgetOf(c, g)) == BudgetOf(c, g);
  }
}
