/** When the verdicts on an opcode depend on its own traffic alone (src/rate_limit.rs). */
module RateLimitIsolation {
  import opened Wire
  import opened RateLimits
  import opened RateLimitRuns
  import opened RateLimitVisits
  import opened RateLimitBursts
  import opened RateLimitClocks
  import opened RateLimitRelations

  /** The offers on `opcode` among the first `n`. */
  function Only(offers: seq<Offer>, n: nat, opcode: byte): seq<Offer>
    requires n <= |offers|
  {
    if n == 0 then []
    else if offers[n - 1].Cost().opcode == opcode then Only(offers, n - 1, opcode) + [offers[n - 1]]
    else Only(offers, n - 1, opcode)
  }

  /** Outbound, the aggregate is never overrun: only admitted messages are charged to it. */
  lemma {:induction false} OutboundNeverOverrun(c: Config, start: nat, offers: seq<Offer>, n: nat)
    requires c.direction == Outbound && NonNegative(c) && n <= |offers|
    ensures !AggregateOverrun(c, After(c, Fresh(c, start), offers, n).charges)
  {
    if n > 0 {
      OutboundNeverOverrun(c, start, offers, n - 1);
    }
  }

  /** Outside the aggregate, with the aggregate not overrun, a verdict only looks at the opcode's own sums. */
  lemma VerdictByOwnSums(c: Config, charges: Charges, charges': Charges, m: Charge)
    requires m.opcode !in c.rules.aggregate
    requires !AggregateOverrun(c, charges) && !AggregateOverrun(c, charges')
    requires SameSums(charges, charges', m.opcode)
    ensures Verdict(c, charges, m) == Verdict(c, charges', m)
  {
  }

  ghost predicate SameSums(charges: Charges, charges': Charges, opcode: byte) {
    Count(charges, {opcode}) == Count(charges', {opcode}) && Size(charges, {opcode}) == Size(charges', {opcode})
  }

  /** The charges an offer is judged on top of are the trace of its period, unless the clock has been there before. */
  lemma JudgedByTrace(c: Config, start: nat, offers: seq<Offer>, i: nat)
    requires NoReturn(c, ClockOf(offers)) && i < |offers|
    ensures Unbroken(c, offers, i, offers[i].now)
    ensures var w := Fresh(c, start);
            JudgedIn(c, w, offers, i).charges == ChargedIn(c, Trace(c, w, offers), i, PeriodOf(c.resetSeconds, offers[i].now))
  {
    forall j, k | 0 <= j < k < i && PeriodOf(c.resetSeconds, offers[j].now) == PeriodOf(c.resetSeconds, offers[i].now)
      ensures PeriodOf(c.resetSeconds, offers[k].now) == PeriodOf(c.resetSeconds, offers[i].now)
    {
      var clock := ClockOf(offers);
      assert PeriodOf(c.resetSeconds, clock[j]) == PeriodOf(c.resetSeconds, clock[i]);
      assert PeriodOf(c.resetSeconds, clock[k]) == PeriodOf(c.resetSeconds, clock[j]);
    }
    WindowIsTrace(c, start, offers, i, offers[i].now);
  }

  lemma {:induction false} OnlyFrom(offers: seq<Offer>, n: nat, opcode: byte, i: nat) returns (j: nat)
    requires n <= |offers| && i < |Only(offers, n, opcode)|
    ensures j < n && Only(offers, n, opcode)[i] == offers[j] && offers[j].Cost().opcode == opcode
  {
    if offers[n - 1].Cost().opcode == opcode && i == |Only(offers, n, opcode)| - 1 {
      j := n - 1;
    } else {
      j := OnlyFrom(offers, n - 1, opcode, i);
    }
  }

  /** Leaving offers out breaks no period up. */
  lemma {:induction false} OnlyUnbroken(c: Config, offers: seq<Offer>, n: nat, opcode: byte, now: nat)
    requires n <= |offers| && Unbroken(c, offers, n, now)
    ensures var own := Only(offers, n, opcode); Unbroken(c, own, |own|, now)
  {
    if n > 0 {
      OnlyUnbroken(c, offers, n - 1, opcode, now);
      var own := Only(offers, n, opcode);
      forall i, j | 0 <= i < j < |own| && PeriodOf(c.resetSeconds, own[i].now) == PeriodOf(c.resetSeconds, now)
        ensures PeriodOf(c.resetSeconds, own[j].now) == PeriodOf(c.resetSeconds, now)
      {
        if offers[n - 1].Cost().opcode == opcode && j == |own| - 1 {
          var k := OnlyFrom(offers, n - 1, opcode, i);
        }
      }
    }
  }

  /** One more offer at the end of a run, and what it charges. */
  lemma ChargedMore(c: Config, w: Window, offers: seq<Offer>, o: Offer, period: nat)
    ensures var before := ChargedIn(c, Trace(c, w, offers), |offers|, period);
            ChargedIn(c, Trace(c, w, offers + [o]), |offers| + 1, period) ==
            if PeriodOf(c.resetSeconds, o.now) == period && IsCharged(c, VerdictAt(c, w, offers + [o], |offers|))
            then Then(before, o.Cost()) else before
  {
    var trace, more := Trace(c, w, offers), Trace(c, w, offers + [o]);
    forall i | 0 <= i < |offers|
      ensures more[i] == trace[i]
    {
      AfterPrefix(c, w, offers, [o], i);
    }
    BookedPrefix(trace, more, |offers|, WindowStart(c, period), WindowStart(c, period + 1), c.direction == Inbound);
    ChargedInStep(c, more, |offers|, period);
  }

  /** Outbound, no window an offer is judged in is overrun on the aggregate. */
  lemma OutboundJudgedFits(c: Config, start: nat, offers: seq<Offer>, i: nat)
    requires c.direction == Outbound && NonNegative(c) && i < |offers|
    ensures !AggregateOverrun(c, JudgedIn(c, Fresh(c, start), offers, i).charges)
  {
    OutboundNeverOverrun(c, start, offers, i);
  }

  /** The verdict the `i`-th offer would get if only its own opcode had ever been offered. */
  function VerdictAlone(c: Config, start: nat, offers: seq<Offer>, i: nat): Admission
    requires i < |offers|
  {
    var own := Only(offers, i, offers[i].Cost().opcode);
    VerdictAt(c, Fresh(c, start), own + [offers[i]], |own|)
  }

  /** What that verdict is judged on. */
  lemma AloneByTrace(c: Config, start: nat, offers: seq<Offer>, i: nat)
    requires NoReturn(c, ClockOf(offers)) && i < |offers|
    ensures var w, p, own := Fresh(c, start), PeriodOf(c.resetSeconds, offers[i].now), Only(offers, i, offers[i].Cost().opcode);
            JudgedIn(c, w, own + [offers[i]], |own|).charges == ChargedIn(c, Trace(c, w, own), |own|, p)
  {
    var own := Only(offers, i, offers[i].Cost().opcode);
    JudgedByTrace(c, start, offers, i);
    OnlyUnbroken(c, offers, i, offers[i].Cost().opcode, offers[i].now);
    AfterPrefix(c, Fresh(c, start), own, [offers[i]], |own|);
    WindowIsTrace(c, start, own, |own|, offers[i].now);
  }

  /** `opcode` is charged alike in the full run up to `n` and in its own part of it. */
  ghost predicate ChargedAlike(c: Config, start: nat, offers: seq<Offer>, n: nat, opcode: byte, period: nat)
    requires n <= |offers|
  {
    var w, own := Fresh(c, start), Only(offers, n, opcode);
    SameSums(ChargedIn(c, Trace(c, w, offers), n, period), ChargedIn(c, Trace(c, w, own), |own|, period), opcode)
  }

  lemma OtherOpcodeAlike(c: Config, start: nat, offers: seq<Offer>, n: nat, opcode: byte, period: nat)
    requires n < |offers| && offers[n].Cost().opcode != opcode && ChargedAlike(c, start, offers, n, opcode, period)
    ensures ChargedAlike(c, start, offers, n + 1, opcode, period)
  {
    ChargedInStep(c, Trace(c, Fresh(c, start), offers), n, period);
    assert Only(offers, n + 1, opcode) == Only(offers, n, opcode);
  }

  lemma OwnOpcodeAlike(c: Config, start: nat, offers: seq<Offer>, n: nat, opcode: byte, period: nat)
    requires n < |offers| && offers[n].Cost().opcode == opcode && ChargedAlike(c, start, offers, n, opcode, period)
    requires c.direction == Outbound && PeriodOf(c.resetSeconds, offers[n].now) == period ==>
             VerdictAt(c, Fresh(c, start), offers, n) == VerdictAlone(c, start, offers, n)
    ensures ChargedAlike(c, start, offers, n + 1, opcode, period)
  {
    ChargedInStep(c, Trace(c, Fresh(c, start), offers), n, period);
    ChargedMore(c, Fresh(c, start), Only(offers, n, opcode), offers[n], period);
    assert Only(offers, n + 1, opcode) == Only(offers, n, opcode) + [offers[n]];
  }

  /** Unless the clock returns, what an opcode outside the aggregate has been charged in a window is what it would have been with the link to itself. */
  lemma {:induction false} OwnTrafficOnly(c: Config, start: nat, offers: seq<Offer>, n: nat, opcode: byte, period: nat)
    requires NonNegative(c) && opcode !in c.rules.aggregate
    requires NoReturn(c, ClockOf(offers)) && n <= |offers|
    ensures ChargedAlike(c, start, offers, n, opcode, period)
  {
    if n > 0 {
      OwnTrafficOnly(c, start, offers, n - 1, opcode, period);
      if offers[n - 1].Cost().opcode != opcode {
        OtherOpcodeAlike(c, start, offers, n - 1, opcode, period);
      } else {
        OneMoreAlike(c, start, offers, n - 1, period);
      }
    }
  }

  lemma OneMoreAlike(c: Config, start: nat, offers: seq<Offer>, n: nat, period: nat)
    requires NonNegative(c) && NoReturn(c, ClockOf(offers))
    requires n < |offers| && offers[n].Cost().opcode !in c.rules.aggregate
    requires ChargedAlike(c, start, offers, n, offers[n].Cost().opcode, period)
    ensures ChargedAlike(c, start, offers, n + 1, offers[n].Cost().opcode, period)
  {
    if c.direction == Outbound && PeriodOf(c.resetSeconds, offers[n].now) == period {
      OutboundAlike(c, start, offers, n);
    }
    OwnOpcodeAlike(c, start, offers, n, offers[n].Cost().opcode, period);
  }

  /** Outbound, with equal sums so far, the next verdict is the one it would be with the link to itself. */
  lemma OutboundAlike(c: Config, start: nat, offers: seq<Offer>, i: nat)
    requires c.direction == Outbound && NonNegative(c) && NoReturn(c, ClockOf(offers))
    requires i < |offers| && offers[i].Cost().opcode !in c.rules.aggregate
    requires ChargedAlike(c, start, offers, i, offers[i].Cost().opcode, PeriodOf(c.resetSeconds, offers[i].now))
    ensures VerdictAt(c, Fresh(c, start), offers, i) == VerdictAlone(c, start, offers, i)
  {
    var w, own := Fresh(c, start), Only(offers, i, offers[i].Cost().opcode);
    JudgedByTrace(c, start, offers, i);
    AloneByTrace(c, start, offers, i);
    OutboundJudgedFits(c, start, offers, i);
    OutboundJudgedFits(c, start, own + [offers[i]], |own|);
    VerdictByOwnSums(c, JudgedIn(c, w, offers, i).charges, JudgedIn(c, w, own + [offers[i]], |own|).charges, offers[i].Cost());
  }

  /** Traffic outside the aggregate charges nothing to it. */
  lemma {:induction false} LeavesAggregate(c: Config, start: nat, offers: seq<Offer>, n: nat)
    requires n <= |offers| && forall i | 0 <= i < n :: offers[i].Cost().opcode !in c.rules.aggregate
    ensures var charges := After(c, Fresh(c, start), offers, n).charges;
            Count(charges, c.rules.aggregate) == 0 && Size(charges, c.rules.aggregate) == 0
  {
    if n > 0 {
      LeavesAggregate(c, start, offers, n - 1);
    }
  }

  lemma AloneFits(c: Config, start: nat, offers: seq<Offer>, i: nat)
    requires NonNegative(c) && i < |offers| && offers[i].Cost().opcode !in c.rules.aggregate
    ensures var own := Only(offers, i, offers[i].Cost().opcode);
            !AggregateOverrun(c, JudgedIn(c, Fresh(c, start), own + [offers[i]], |own|).charges)
  {
    var own := Only(offers, i, offers[i].Cost().opcode);
    forall k | 0 <= k < |own|
      ensures own[k].Cost().opcode !in c.rules.aggregate
    {
      var j := OnlyFrom(offers, i, offers[i].Cost().opcode, k);
    }
    LeavesAggregate(c, start, own + [offers[i]], |own|);
  }

  /** With equal sums on its own opcode, an overrun aggregate changes a verdict exactly if it would be an admission. */
  lemma OverrunMatters(c: Config, all: Charges, own: Charges, m: Charge)
    requires m.opcode !in c.rules.aggregate && SameSums(all, own, m.opcode) && !AggregateOverrun(c, own)
    ensures Verdict(c, all, m) == Verdict(c, own, m) <==> !AggregateOverrun(c, all) || Verdict(c, own, m) != Admitted
  {
    UnsendableIgnoresTheWindow(c, all, own, m);
    if AggregateOverrun(c, all) {
      OverrunRefusesAll(c, all, all, m);
    } else {
      VerdictByOwnSums(c, all, own, m);
    }
  }

  /**
   * In either direction, unless the clock returns to a period it has left, the verdict on an opcode outside the
   * aggregate is the one it would get with no other traffic at all if and only if the window it is judged in is not
   * overrun on the aggregate, or it would have been refused anyway.
   */
  lemma IsolationExactly(c: Config, start: nat, offers: seq<Offer>, i: nat)
    requires NonNegative(c) && NoReturn(c, ClockOf(offers))
    requires i < |offers| && offers[i].Cost().opcode !in c.rules.aggregate
    ensures VerdictAt(c, Fresh(c, start), offers, i) == VerdictAlone(c, start, offers, i) <==>
            !AggregateOverrun(c, JudgedIn(c, Fresh(c, start), offers, i).charges) ||
            VerdictAlone(c, start, offers, i) != Admitted
  {
    var w, m := Fresh(c, start), offers[i].Cost();
    var own := Only(offers, i, m.opcode);
    OwnTrafficOnly(c, start, offers, i, m.opcode, PeriodOf(c.resetSeconds, offers[i].now));
    JudgedByTrace(c, start, offers, i);
    AloneByTrace(c, start, offers, i);
    AloneFits(c, start, offers, i);
    OverrunMatters(c, JudgedIn(c, w, offers, i).charges, JudgedIn(c, w, own + [offers[i]], |own|).charges, m);
  }

  /** Outbound, unless the clock returns, the verdict on an opcode outside the aggregate is the one it would get with no other traffic at all. */
  lemma OutboundIsolation(c: Config, start: nat, offers: seq<Offer>, i: nat)
    requires c.direction == Outbound && NonNegative(c) && NoReturn(c, ClockOf(offers))
    requires i < |offers| && offers[i].Cost().opcode !in c.rules.aggregate
    ensures VerdictAt(c, Fresh(c, start), offers, i) == VerdictAlone(c, start, offers, i)
  {
    OutboundJudgedFits(c, start, offers, i);
    IsolationExactly(c, start, offers, i);
  }

  /** A run on `clock` in which an offer on `opcode` gets another verdict than it would with no other traffic. */
  ghost predicate Misjudges(c: Config, opcode: byte, clock: seq<nat>, start: nat, offers: seq<Offer>, i: nat) {
    && MadeOn(offers, clock) && i < |offers| && offers[i].Cost().opcode == opcode
    && VerdictAt(c, Fresh(c, start), offers, i) != VerdictAlone(c, start, offers, i)
  }

  /** A burst, one message of another opcode in another window, and one more message back in the first. */
  function Interrupted(c: Config, opcode: byte, other: byte, here: nat, there: nat, back: nat): seq<Offer>
    requires c.Own(opcode).messages >= 0
  {
    Row(opcode, here, c.Own(opcode).messages) + [Offer(there, EmptyOn(other))] + [Offer(back, EmptyOn(opcode))]
  }

  lemma {:induction false} RowAdmitted(c: Config, start: nat, opcode: byte, at: nat, offers: seq<Offer>, n: nat)
    requires NonNegative(c) && Bursts(c, opcode) && n <= |offers| && n <= c.Own(opcode).messages
    requires forall i | 0 <= i < n :: offers[i] == Offer(at, EmptyOn(opcode))
    ensures Roll(After(c, Fresh(c, start), offers, n), PeriodOf(c.resetSeconds, at)).charges == Empties(opcode, n)
    ensures n > 0 ==> After(c, Fresh(c, start), offers, n).period == PeriodOf(c.resetSeconds, at)
  {
    if n > 0 {
      RowAdmitted(c, start, opcode, at, offers, n - 1);
      EmptyAdmitted(c, After(c, Fresh(c, start), offers, n - 1), PeriodOf(c.resetSeconds, at), opcode, n - 1);
    }
  }

  lemma {:induction false} OnlyRow(offers: seq<Offer>, n: nat, opcode: byte, at: nat)
    requires n <= |offers| && forall i | 0 <= i < n :: offers[i] == Offer(at, EmptyOn(opcode))
    ensures Only(offers, n, opcode) == Row(opcode, at, n)
  {
    if n > 0 {
      OnlyRow(offers, n - 1, opcode, at);
    }
  }

  /** With a full budget charged and no roll in between, one more message is refused. */
  lemma OneTooMany(c: Config, w: Window, period: nat, opcode: byte)
    requires Bursts(c, opcode) && w == Window(period, Empties(opcode, c.Own(opcode).messages))
    ensures Offered(c, w, period, ChargeOf(EmptyOn(opcode))).1 != Admitted
  {
    assert ChargeOf(EmptyOn(opcode)) == Charge(opcode, 0);
    EmptiesSums(opcode, c.Own(opcode).messages, {opcode});
  }

  /** The message on the way back is admitted, and would not have been on its own. */
  lemma InterruptionHelps(c: Config, opcode: byte, other: byte, here: nat, there: nat, back: nat)
    requires NonNegative(c) && Bursts(c, opcode) && other != opcode
    requires PeriodOf(c.resetSeconds, here) == PeriodOf(c.resetSeconds, back)
    requires PeriodOf(c.resetSeconds, there) != PeriodOf(c.resetSeconds, here)
    ensures var offers, i := Interrupted(c, opcode, other, here, there, back), c.Own(opcode).messages + 1;
            && |offers| == i + 1 && offers[i] == Offer(back, EmptyOn(opcode))
            && VerdictAt(c, Fresh(c, 0), offers, i) == Admitted && VerdictAlone(c, 0, offers, i) != Admitted
  {
    var offers, n := Interrupted(c, opcode, other, here, there, back), c.Own(opcode).messages;
    assert offers[n] == Offer(there, EmptyOn(other)) && offers[n + 1] == Offer(back, EmptyOn(opcode));
    assert After(c, Fresh(c, 0), offers, n + 1).period == PeriodOf(c.resetSeconds, there);
    EmptyAdmitted(c, After(c, Fresh(c, 0), offers, n + 1), PeriodOf(c.resetSeconds, back), opcode, 0);
    OnlyRow(offers, n, opcode, here);
    assert Only(offers, n + 1, opcode) == Row(opcode, here, n);
    var alone := Row(opcode, here, n) + [Offer(back, EmptyOn(opcode))];
    RowAdmitted(c, 0, opcode, here, alone, n);
    OneTooMany(c, After(c, Fresh(c, 0), alone, n), PeriodOf(c.resetSeconds, back), opcode);
  }

  lemma InterruptedFollows(c: Config, opcode: byte, other: byte, clock: seq<nat>, i: nat, j: nat, k: nat)
    requires i < j < k < |clock| && c.Own(opcode).messages >= 0
    ensures MadeOn(Interrupted(c, opcode, other, clock[i], clock[j], clock[k]), clock)
  {
    var n := c.Own(opcode).messages;
    var at := seq(n + 2, x => if x < n then i else if x == n then j else k);
    assert Follows(Interrupted(c, opcode, other, clock[i], clock[j], clock[k]), clock, at);
  }

  /**
   * Outbound, the verdicts on an opcode outside the aggregate are isolated in every run made on a clock if and only if
   * that clock never returns to a period it has left.
   */
  lemma OutboundIsolationExactly(c: Config, opcode: byte, clock: seq<nat>)
    requires c.direction == Outbound && NonNegative(c) && Bursts(c, opcode) && opcode !in c.rules.aggregate
    ensures (forall start: nat, offers: seq<Offer>, i: nat :: !Misjudges(c, opcode, clock, start, offers, i)) <==>
            NoReturn(c, clock)
  {
    if NoReturn(c, clock) {
      forall start: nat, offers: seq<Offer>, i: nat
        ensures !Misjudges(c, opcode, clock, start, offers, i)
      {
        NeverMisjudged(c, opcode, clock, start, offers, i);
      }
    } else {
      var i, j, k := SomeReturn(c, clock);
      var other: byte := if opcode == 0 then 1 else 0;
      InterruptionHelps(c, opcode, other, clock[i], clock[j], clock[k]);
      InterruptedFollows(c, opcode, other, clock, i, j, k);
      assert Misjudges(c, opcode, clock, 0, Interrupted(c, opcode, other, clock[i], clock[j], clock[k]),
                       c.Own(opcode).messages + 1);
    }
  }

  lemma NeverMisjudged(c: Config, opcode: byte, clock: seq<nat>, start: nat, offers: seq<Offer>, i: nat)
    requires c.direction == Outbound && NonNegative(c) && opcode !in c.rules.aggregate && NoReturn(c, clock)
    ensures !Misjudges(c, opcode, clock, start, offers, i)
  {
    if MadeOn(offers, clock) && i < |offers| && offers[i].Cost().opcode == opcode {
      FollowersNeverReturn(c, offers, clock);
      OutboundIsolation(c, start, offers, i);
    }
  }

  // ---------------------------------------------------------------------------------------------
  // The inbound aggregate can be overrun
  // ---------------------------------------------------------------------------------------------

  /** Inbound, empty messages on one opcode pile up in the window whatever the verdicts. */
  lemma {:induction false} InboundPilesUp(c: Config, at: nat, opcode: byte, offers: seq<Offer>, n: nat)
    requires c.direction == Inbound && n <= |offers|
    requires forall i | 0 <= i < n :: offers[i] == Offer(at, EmptyOn(opcode))
    ensures After(c, Fresh(c, at), offers, n) == Window(PeriodOf(c.resetSeconds, at), Empties(opcode, n))
  {
    if n > 0 {
      InboundPilesUp(c, at, opcode, offers, n - 1);
      assert offers[n - 1].Cost() == Charge(opcode, 0);
    }
  }

  function Row(opcode: byte, at: nat, n: nat): (offers: seq<Offer>)
    ensures |offers| == n && forall i | 0 <= i < n :: offers[i] == Offer(at, EmptyOn(opcode))
  {
    if n == 0 then [] else Row(opcode, at, n - 1) + [Offer(at, EmptyOn(opcode))]
  }

  /**
   * Inbound isolation fails: one message more than the aggregate's budget, on an opcode of the aggregate, and an
   * opcode outside it that would be admitted on its own is refused.
   */
  lemma InboundNotIsolated(c: Config, at: nat, flood: byte, victim: byte) returns (offers: seq<Offer>)
    requires c.direction == Inbound && NonNegative(c)
    requires flood in c.rules.aggregate && victim !in c.rules.aggregate && Bursts(c, victim)
    ensures var i := |offers| - 1;
            && i >= 0 && Timely(at, offers) && offers[i] == Offer(at, EmptyOn(victim))
            && VerdictAlone(c, at, offers, i) == Admitted
            && VerdictAt(c, Fresh(c, at), offers, i) != Admitted
  {
    var n := c.rules.shared.messages + 1;
    offers := Row(flood, at, n) + [Offer(at, EmptyOn(victim))];
    InboundPilesUp(c, at, flood, offers, n);
    EmptiesSums(flood, n, c.rules.aggregate);
    NoneOfTheVictim(offers, n, victim);
    EmptyAdmitted(c, Fresh(c, at), PeriodOf(c.resetSeconds, at), victim, 0);
    assert After(c, Fresh(c, at), [] + [offers[n]], 0) == Fresh(c, at);
    TimelyNeverReturns(c, at, offers);
    IsolationExactly(c, at, offers, n);
  }

  lemma {:induction false} NoneOfTheVictim(offers: seq<Offer>, n: nat, opcode: byte)
    requires n <= |offers| && forall i | 0 <= i < n :: offers[i].Cost().opcode != opcode
    ensures Only(offers, n, opcode) == []
  {
    if n > 0 {
      NoneOfTheVictim(offers, n - 1, opcode);
    }
  }

  /** A table with such opcodes: one governed by `other`, one by the default. */
  lemma NotIsolatedTable(r: Seconds)
    ensures var limit := RateLimit(1.0, 0.0, None);
            var c := Config(Inbound, r, RulesOf(Limits(limit, 1.0, 0.0, map[], map[1 := limit]), 1.0));
            NonNegative(c) && 1 in c.rules.aggregate && 0 !in c.rules.aggregate && Bursts(c, 0)
  {
  }
}
