/** Exactly the clocks that keep every window to one budget (src/rate_limit.rs). */
module RateLimitClocks {
  import opened Wire
  import opened RateLimits
  import opened RateLimitRuns
  import opened RateLimitVisits
  import opened RateLimitBursts

  /** Each offer is made at the time of `clock` that `at` says, never going back in it. */
  predicate Follows(offers: seq<Offer>, clock: seq<nat>, at: seq<nat>) {
    && |at| == |offers|
    && (forall i | 0 <= i < |at| :: at[i] < |clock| && offers[i].now == clock[at[i]])
    && (forall i, j | 0 <= i < j < |at| :: at[i] <= at[j])
  }

  /** Offers made at the times of `clock`, in order, any number at each. */
  ghost predicate MadeOn(offers: seq<Offer>, clock: seq<nat>) {
    exists at :: Follows(offers, clock, at)
  }

  /** Offers made on a clock that never returns never return. */
  lemma FollowersNeverReturn(c: Config, offers: seq<Offer>, clock: seq<nat>)
    requires MadeOn(offers, clock) && NoReturn(c, clock)
    ensures NoReturn(c, ClockOf(offers))
  {
    var at :| Follows(offers, clock, at);
    forall i, j, k | 0 <= i < j < k < |offers| &&
      PeriodOf(c.resetSeconds, offers[i].now) == PeriodOf(c.resetSeconds, offers[k].now)
      ensures PeriodOf(c.resetSeconds, offers[j].now) == PeriodOf(c.resetSeconds, offers[i].now)
    {
      assert at[i] <= at[j] <= at[k];
      if at[i] < at[j] < at[k] {
        assert PeriodOf(c.resetSeconds, clock[at[j]]) == PeriodOf(c.resetSeconds, clock[at[i]]);
      }
    }
  }

  /** More offers at one time of the clock, no earlier than those before. */
  lemma FollowsMore(offers: seq<Offer>, all: seq<Offer>, clock: seq<nat>, at: seq<nat>, i: nat) returns (at': seq<nat>)
    requires Follows(offers, clock, at) && i < |clock| && (forall k | 0 <= k < |at| :: at[k] <= i)
    requires Extends(all, offers, clock[i])
    ensures Follows(all, clock, at') && forall k | 0 <= k < |at'| :: at'[k] <= i
  {
    at' := at + seq(|all| - |offers|, _ => i);
    forall k | 0 <= k < |all|
      ensures all[k].now == clock[at'[k]]
    {
      if k < |offers| {
        assert all[k] == all[..|offers|][k];
      }
    }
  }

  // ---------------------------------------------------------------------------------------------
  // A burst at each visit
  // ---------------------------------------------------------------------------------------------

  /** A whole budget whenever the first `n` times enter a period, whichever it is. */
  lemma {:induction false} BurstEachVisit(c: Config, opcode: byte, clock: seq<nat>, n: nat, period: nat)
    returns (offers: seq<Offer>, at: seq<nat>)
    requires NonNegative(c) && Bursts(c, opcode) && n <= |clock|
    ensures Follows(offers, clock, at) && forall k | 0 <= k < |at| :: at[k] < n
    ensures n > 0 ==> After(c, Fresh(c, 0), offers, |offers|).period == PeriodOf(c.resetSeconds, clock[n - 1])
    ensures n == 0 ==> offers == []
    ensures Count(AdmittedBetween(c, 0, offers, WindowStart(c, period), WindowStart(c, period + 1)), {opcode}) ==
            Times(Visits(c, clock, n, period), c.Own(opcode)).messages
  {
    if n == 0 {
      offers, at := [], [];
    } else {
      offers, at := BurstEachVisit(c, opcode, clock, n - 1, period);
      if Enters(c, clock, n - 1, PeriodOf(c.resetSeconds, clock[n - 1])) {
        offers, at := OneMoreVisit(c, opcode, clock, n - 1, period, offers, at);
      }
    }
  }

  lemma OneMoreVisit(c: Config, opcode: byte, clock: seq<nat>, i: nat, period: nat, offers: seq<Offer>, at: seq<nat>)
    returns (all: seq<Offer>, at': seq<nat>)
    requires NonNegative(c) && Bursts(c, opcode) && i < |clock|
    requires Enters(c, clock, i, PeriodOf(c.resetSeconds, clock[i]))
    requires Follows(offers, clock, at) && forall k | 0 <= k < |at| :: at[k] < i
    requires if i == 0 then offers == []
             else After(c, Fresh(c, 0), offers, |offers|).period == PeriodOf(c.resetSeconds, clock[i - 1])
    ensures Follows(all, clock, at') && forall k | 0 <= k < |at'| :: at'[k] <= i
    ensures After(c, Fresh(c, 0), all, |all|).period == PeriodOf(c.resetSeconds, clock[i])
    ensures var lo, hi := WindowStart(c, period), WindowStart(c, period + 1);
            Count(AdmittedBetween(c, 0, all, lo, hi), {opcode}) ==
            Count(AdmittedBetween(c, 0, offers, lo, hi), {opcode}) +
            if PeriodOf(c.resetSeconds, clock[i]) == period then c.Own(opcode).messages else 0
  {
    PeriodBounds(c, clock[i], period);
    all := AddBurst(c, 0, offers, opcode, clock[i], c.Own(opcode).messages, WindowStart(c, period), WindowStart(c, period + 1));
    at' := FollowsMore(offers, all, clock, at, i);
  }

  /** `BudgetPerVisit` is sharp: on any clock some run spends a whole budget at each visit to a period. */
  lemma BudgetPerVisitReached(c: Config, opcode: byte, clock: seq<nat>, period: nat) returns (offers: seq<Offer>)
    requires NonNegative(c) && Bursts(c, opcode)
    ensures MadeOn(offers, clock)
    ensures Count(AdmittedIn(c, Trace(c, Fresh(c, 0), offers), |offers|, period), {opcode}) ==
            Visits(c, clock, |clock|, period) * c.Own(opcode).messages
  {
    var at;
    offers, at := BurstEachVisit(c, opcode, clock, |clock|, period);
    TimesIsProduct(Visits(c, clock, |clock|, period), c.Own(opcode));
  }

  // ---------------------------------------------------------------------------------------------
  // One budget
  // ---------------------------------------------------------------------------------------------

  /** A run on `clock` that is admitted more than one budget of `opcode` in `period`. */
  ghost predicate Overdraws(c: Config, opcode: byte, clock: seq<nat>, start: nat, offers: seq<Offer>, period: nat) {
    MadeOn(offers, clock) &&
    !Within(AdmittedIn(c, Trace(c, Fresh(c, start), offers), |offers|, period), {opcode}, c.Own(opcode))
  }

  lemma NoReturnNoOverdraft(c: Config, opcode: byte, clock: seq<nat>, start: nat, offers: seq<Offer>, period: nat)
    requires NonNegative(c) && NoReturn(c, clock)
    ensures !Overdraws(c, opcode, clock, start, offers, period)
  {
    if MadeOn(offers, clock) {
      FollowersNeverReturn(c, offers, clock);
      WindowBudget(c, Fresh(c, start), offers, |offers|, period, One(opcode));
      assert c.Own(opcode).messages >= 0;
    }
  }

  lemma ReturnOverdraws(c: Config, opcode: byte, clock: seq<nat>, i: nat, j: nat, k: nat) returns (offers: seq<Offer>)
    requires NonNegative(c) && Bursts(c, opcode) && i < j < k < |clock|
    requires PeriodOf(c.resetSeconds, clock[i]) == PeriodOf(c.resetSeconds, clock[k])
    requires PeriodOf(c.resetSeconds, clock[j]) != PeriodOf(c.resetSeconds, clock[i])
    ensures Overdraws(c, opcode, clock, 0, offers, PeriodOf(c.resetSeconds, clock[i]))
    ensures Count(AdmittedIn(c, Trace(c, Fresh(c, 0), offers), |offers|, PeriodOf(c.resetSeconds, clock[i])), {opcode}) >=
            2 * c.Own(opcode).messages
  {
    var p, b := PeriodOf(c.resetSeconds, clock[i]), c.Own(opcode);
    ReturnIsAVisit(c, clock, i, j, k);
    offers := BudgetPerVisitReached(c, opcode, clock, p);
    TimesIsProduct(Visits(c, clock, |clock|, p), b);
    TimesIsProduct(2, b);
    TimesGrow(2, Visits(c, clock, |clock|, p), b);
  }

  /**
   * Every run made on a clock keeps to one budget of an opcode in every window if and only if the clock never
   * returns to a period it has left.
   */
  lemma BudgetKeptExactly(c: Config, opcode: byte, clock: seq<nat>)
    requires NonNegative(c) && Bursts(c, opcode)
    ensures (forall start: nat, offers: seq<Offer>, period: nat :: !Overdraws(c, opcode, clock, start, offers, period)) <==>
            NoReturn(c, clock)
  {
    if NoReturn(c, clock) {
      forall start: nat, offers: seq<Offer>, period: nat
        ensures !Overdraws(c, opcode, clock, start, offers, period)
      {
        NoReturnNoOverdraft(c, opcode, clock, start, offers, period);
      }
    } else {
      var i, j, k := SomeReturn(c, clock);
      var offers := ReturnOverdraws(c, opcode, clock, i, j, k);
    }
  }

  lemma SomeReturn(c: Config, clock: seq<nat>) returns (i: nat, j: nat, k: nat)
    requires !NoReturn(c, clock)
    ensures i < j < k < |clock|
    ensures PeriodOf(c.resetSeconds, clock[i]) == PeriodOf(c.resetSeconds, clock[k])
    ensures PeriodOf(c.resetSeconds, clock[j]) != PeriodOf(c.resetSeconds, clock[i])
  {
    i, j, k :| 0 <= i < j < k < |clock| &&
      PeriodOf(c.resetSeconds, clock[i]) == PeriodOf(c.resetSeconds, clock[k]) &&
      PeriodOf(c.resetSeconds, clock[j]) != PeriodOf(c.resetSeconds, clock[i]);
  }

  /** A clock that steps back into a window finds it empty again, and that window is admitted twice its budget. */
  lemma BackwardClockOverspends(c: Config, opcode: byte) returns (offers: seq<Offer>)
    requires NonNegative(c) && Bursts(c, opcode)
    ensures var roll: nat := c.resetSeconds; MadeOn(offers, [roll, 0, roll])
    ensures Count(AdmittedIn(c, Trace(c, Fresh(c, 0), offers), |offers|, 1), {opcode}) >= 2 * c.Own(opcode).messages
  {
    var roll: nat := c.resetSeconds;
    var clock := [roll, 0, roll];
    assert PeriodOf(c.resetSeconds, 0) == 0 && PeriodOf(c.resetSeconds, c.resetSeconds) == 1;
    offers := ReturnOverdraws(c, opcode, clock, 0, 1, 2);
  }
}
