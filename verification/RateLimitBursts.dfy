/** Runs that spend whole budgets on empty messages (src/rate_limit.rs). */
module RateLimitBursts {
  import opened Wire
  import opened DigMessages
  import opened RateLimits
  import opened RateLimitRuns

  /** Everything a run admitted on `lo <= now < hi`. */
  function AdmittedBetween(c: Config, start: nat, offers: seq<Offer>, lo: nat, hi: nat): Charges {
    Booked(Trace(c, Fresh(c, start), offers), |offers|, lo, hi, false)
  }

  /** The budget of `opcode` can be spent on empty messages alone. */
  predicate Bursts(c: Config, opcode: byte) {
    && c.rules.bound(opcode).maxSize >= 0 && c.Own(opcode).messages >= 1
    && (opcode in c.rules.aggregate ==> c.Own(opcode).messages <= c.rules.shared.messages)
  }

  /** That is so of every opcode the aggregate does not hold and that is allowed a message a window at all. */
  lemma TableBursts(d: Direction, r: Seconds, l: Limits, factor: real, opcode: byte)
    requires NonNegativeTable(l) && factor >= 0.0
    requires opcode !in Aggregate(l) && LimitFor(l, opcode).frequency * factor >= 1.0
    ensures Bursts(Config(d, r, RulesOf(l, factor)), opcode) && NonNegative(Config(d, r, RulesOf(l, factor)))
  {
    NonNegativeTableSuffices(d, r, l, factor);
    assert NonNegativeLimit(LimitFor(l, opcode));
  }

  function EmptyOn(opcode: byte): DigMessage {
    DigMessage(opcode, None, [])
  }

  function Empties(opcode: byte, n: nat): Charges {
    if n == 0 then Nothing else Then(Empties(opcode, n - 1), Charge(opcode, 0))
  }

  lemma {:induction false} EmptiesSums(opcode: byte, n: nat, ops: set<byte>)
    ensures Count(Empties(opcode, n), ops) == (if opcode in ops then n else 0) && Size(Empties(opcode, n), ops) == 0
  {
    if n > 0 {
      EmptiesSums(opcode, n - 1, ops);
    }
  }

  /** The `n`-th empty message of a window is admitted, up to the budget. */
  lemma EmptyAdmitted(c: Config, w: Window, period: nat, opcode: byte, n: nat)
    requires NonNegative(c) && Bursts(c, opcode) && n < c.Own(opcode).messages
    requires Roll(w, period).charges == Empties(opcode, n)
    ensures Offered(c, w, period, ChargeOf(EmptyOn(opcode))) == (Window(period, Empties(opcode, n + 1)), Admitted)
  {
    assert ChargeOf(EmptyOn(opcode)) == Charge(opcode, 0);
    SumsOfOne(Charge(opcode, 0), {opcode});
    SumsOfOne(Charge(opcode, 0), c.rules.aggregate);
    EmptiesSums(opcode, n, {opcode});
    EmptiesSums(opcode, n, c.rules.aggregate);
    assert c.Own(opcode).bytes >= 0;
  }

  /** One more offer at the end of a run. */
  lemma OneMoreOffer(c: Config, start: nat, offers: seq<Offer>, o: Offer, lo: nat, hi: nat)
    ensures var w := Fresh(c, start);
            var (left, v) := Offered(c, After(c, w, offers, |offers|), PeriodOf(c.resetSeconds, o.now), o.Cost());
            var before := AdmittedBetween(c, start, offers, lo, hi);
            && After(c, w, offers + [o], |offers| + 1) == left
            && AdmittedBetween(c, start, offers + [o], lo, hi) ==
               if v == Admitted && lo <= o.now < hi then Then(before, o.Cost()) else before
  {
    var w := Fresh(c, start);
    var trace, more := Trace(c, w, offers), Trace(c, w, offers + [o]);
    AfterPrefix(c, w, offers, [o], |offers|);
    forall i | 0 <= i < |offers|
      ensures more[i] == trace[i]
    {
      AfterPrefix(c, w, offers, [o], i);
    }
    BookedPrefix(trace, more, |offers|, lo, hi, false);
  }

  /** `all` is `offers` and then some, each at `at`. */
  predicate Extends(all: seq<Offer>, offers: seq<Offer>, at: nat) {
    |offers| <= |all| && all[..|offers|] == offers && forall i | |offers| <= i < |all| :: all[i].now == at
  }

  lemma ExtendsMore(all: seq<Offer>, offers: seq<Offer>, o: Offer)
    requires Extends(all, offers, o.now)
    ensures Extends(all + [o], offers, o.now)
  {
    assert (all + [o])[..|offers|] == all[..|offers|];
  }

  /** A run with a burst added that its last window has room for. */
  lemma {:induction false} AddBurst(c: Config, start: nat, offers: seq<Offer>, opcode: byte, at: nat, n: nat, lo: nat, hi: nat)
    returns (all: seq<Offer>)
    requires NonNegative(c) && Bursts(c, opcode) && n <= c.Own(opcode).messages
    requires Roll(After(c, Fresh(c, start), offers, |offers|), PeriodOf(c.resetSeconds, at)).charges == Nothing
    ensures Extends(all, offers, at) && |all| == |offers| + n
    ensures var left := After(c, Fresh(c, start), all, |all|);
            && Roll(left, PeriodOf(c.resetSeconds, at)).charges == Empties(opcode, n)
            && (n > 0 ==> left.period == PeriodOf(c.resetSeconds, at))
    ensures Count(AdmittedBetween(c, start, all, lo, hi), {opcode}) ==
            Count(AdmittedBetween(c, start, offers, lo, hi), {opcode}) + if lo <= at < hi then n else 0
  {
    all := offers;
    if n > 0 {
      all := AddBurst(c, start, offers, opcode, at, n - 1, lo, hi);
      OneMoreEmpty(c, start, all, opcode, at, n - 1, lo, hi);
      ExtendsMore(all, offers, Offer(at, EmptyOn(opcode)));
      all := all + [Offer(at, EmptyOn(opcode))];
    }
  }

  lemma OneMoreEmpty(c: Config, start: nat, all: seq<Offer>, opcode: byte, at: nat, n: nat, lo: nat, hi: nat)
    requires NonNegative(c) && Bursts(c, opcode) && n < c.Own(opcode).messages
    requires Roll(After(c, Fresh(c, start), all, |all|), PeriodOf(c.resetSeconds, at)).charges == Empties(opcode, n)
    ensures After(c, Fresh(c, start), all + [Offer(at, EmptyOn(opcode))], |all| + 1)
         == Window(PeriodOf(c.resetSeconds, at), Empties(opcode, n + 1))
    ensures Count(AdmittedBetween(c, start, all + [Offer(at, EmptyOn(opcode))], lo, hi), {opcode}) ==
            Count(AdmittedBetween(c, start, all, lo, hi), {opcode}) + if lo <= at < hi then 1 else 0
  {
    OneMoreOffer(c, start, all, Offer(at, EmptyOn(opcode)), lo, hi);
    EmptyAdmitted(c, After(c, Fresh(c, start), all, |all|), PeriodOf(c.resetSeconds, at), opcode, n);
  }

  /** A burst made no earlier than anything before it. */
  lemma AddTimelyBurst(c: Config, start: nat, offers: seq<Offer>, opcode: byte, at: nat, n: nat, lo: nat, hi: nat)
    returns (all: seq<Offer>)
    requires NonNegative(c) && Bursts(c, opcode) && 0 < n <= c.Own(opcode).messages && lo <= at < hi
    requires Timely(start, offers) && MadeBy(start, offers, |offers|, at)
    requires Roll(After(c, Fresh(c, start), offers, |offers|), PeriodOf(c.resetSeconds, at)).charges == Nothing
    ensures Timely(start, all) && MadeBy(start, all, |all|, at)
    ensures After(c, Fresh(c, start), all, |all|).period == PeriodOf(c.resetSeconds, at)
    ensures Count(AdmittedBetween(c, start, all, lo, hi), {opcode}) ==
            Count(AdmittedBetween(c, start, offers, lo, hi), {opcode}) + n
  {
    all := AddBurst(c, start, offers, opcode, at, n, lo, hi);
    StillTimely(start, offers, all, at);
  }

  lemma StillTimely(start: nat, offers: seq<Offer>, all: seq<Offer>, at: nat)
    requires Timely(start, offers) && MadeBy(start, offers, |offers|, at) && Extends(all, offers, at)
    ensures Timely(start, all) && MadeBy(start, all, |all|, at)
  {
    forall i | 0 <= i < |offers|
      ensures all[i] == offers[i]
    {
      assert all[i] == all[..|offers|][i];
    }
  }
}
