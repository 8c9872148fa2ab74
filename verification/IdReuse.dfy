/** How far apart two issues of one id are (src/request_map.rs). */
module IdReuse {
  import opened Wire
  import opened RequestMaps
  import opened MapRuns

  // ---------------------------------------------------------------------------------------------
  // Reuse distance
  // ---------------------------------------------------------------------------------------------

  ghost function IdsOf(tickets: seq<nat>): (ids: set<u16>)
    ensures |ids| <= |tickets|
  {
    if tickets == [] then {} else IdsOf(tickets[1..]) + {IdOf(tickets[0])}
  }

  /** What a run keeps true since position `v` was issued, leaving the ids `held` live. */
  ghost predicate SinceIssue(v: nat, held: set<u16>, t: Table, issued: seq<nat>) {
    && v < t.cursor
    && (forall id | id in t.items :: id in held || id in IdsOf(issued))
    && (forall w | v < w < t.cursor && w < v + ID_SPACE :: IdOf(w) in held || IdOf(w) in IdsOf(issued))
  }

  lemma IdsOfAppend(tickets: seq<nat>, ticket: nat)
    ensures IdsOf(tickets + [ticket]) == IdsOf(tickets) + {IdOf(ticket)}
  {
    if tickets == [] {
      assert tickets + [ticket] == [ticket];
    } else {
      assert (tickets + [ticket])[1..] == tickets[1..] + [ticket];
      IdsOfAppend(tickets[1..], ticket);
    }
  }

  /** Within a lap, positions passed over were held all along; the next issue keeps that true. */
  lemma SinceIssueInsert(v: nat, held: set<u16>, t: Table, issued: seq<nat>, op: Op)
    requires op.Insert? && Proceeds(t, op) && SinceIssue(v, held, t, issued)
    ensures SinceIssue(v, held, Apply(t, op), issued + [NextTicket(t, op.closed)])
  {
    var ticket := NextTicket(t, op.closed);
    IdsOfAppend(issued, ticket);
    var live := Unabandoned(t.items, op.closed);
    forall w | v < w < ticket + 1 && w < v + ID_SPACE
      ensures IdOf(w) in held || IdOf(w) in IdsOf(issued + [ticket])
    {
      if t.cursor <= w < ticket {
        assert IdOf(w) in live;
      }
    }
  }

  lemma {:induction false} SinceIssueRun(v: nat, t: Table, ops: seq<Op>)
    requires v < t.cursor == v + 1
    ensures SinceIssue(v, t.items.Keys, Replay(t, ops), IssuedBy(t, ops))
  {
    if ops != [] {
      var n := |ops| - 1;
      SinceIssueRun(v, t, ops[..n]);
      var before := Replay(t, ops[..n]);
      if ops[n].Insert? && Proceeds(before, ops[n]) {
        SinceIssueInsert(v, t.items.Keys, before, IssuedBy(t, ops[..n]), ops[n]);
      }
    }
  }

  lemma PositionOf(v: nat, id: u16) returns (w: nat)
    requires id != IdOf(v)
    ensures v < w < v + ID_SPACE && IdOf(w) == id
  {
    var here := IdOf(v);
    w := v + if here < id then id - here else id + ID_SPACE - here;
  }

  /**
   * Whatever runs between two issues of one id, they are a positive number of laps apart on the cursor, and
   * at least 65 535 - L other requests are issued in between, L being the other requests live at the first.
   */
  lemma {:induction false} ReuseDistance(t: Table, first: Op, v: nat, ops: seq<Op>, again: Op, u: nat)
    requires Issues(t, first, v) && Issues(Replay(Apply(t, first), ops), again, u)
    requires IdOf(v) == IdOf(u)
    ensures v + 65_536 <= u && (u - v) % 65_536 == 0
    ensures |IssuedBy(Apply(t, first), ops)| >= 65_535 - (|Apply(t, first).items| - 1)
  {
    var t1 := Apply(t, first);
    assert t1.cursor == v + 1 && IdOf(v) in t1.items;
    SinceIssueRun(v, t1, ops);
    WholeLaps(v, u);
    ManyIssuedInALap(v, t1, ops, again, u);
  }

  lemma {:induction false} ManyIssuedInALap(v: nat, t: Table, ops: seq<Op>, again: Op, u: nat)
    requires t.cursor == v + 1 && IdOf(v) in t.items
    requires Issues(Replay(t, ops), again, u) && v + ID_SPACE <= u && IdOf(u) == IdOf(v)
    ensures |IssuedBy(t, ops)| >= CAPACITY - (|t.items| - 1)
  {
    var before, issued, held := Replay(t, ops), IssuedBy(t, ops), t.items.Keys;
    SinceIssueRun(v, t, ops);
    SinceIssueInsert(v, held, before, issued, again);
    LapIsCovered(v, held, Apply(before, again), issued + [u]);
    IdsOfAppend(issued, u);
    assert held + IdsOf(issued + [u]) == held + IdsOf(issued);
    UnionNotLarger(held, IdsOf(issued));
  }

  lemma UnionNotLarger<T>(a: set<T>, b: set<T>)
    ensures |a + b| <= |a| + |b|
  {
    assert a + b == a + (b - a);
    SubsetNotLarger(b - a, b);
  }

  /** Once the cursor has gone a lap past `v`, every id was either held at `v` or issued since. */
  lemma LapIsCovered(v: nat, held: set<u16>, t: Table, issued: seq<nat>)
    requires SinceIssue(v, held, t, issued) && v + ID_SPACE <= t.cursor && IdOf(v) in held
    ensures |held + IdsOf(issued)| >= ID_SPACE
  {
    var all := IdsBelow(ID_SPACE);
    forall id | id in all
      ensures id in held + IdsOf(issued)
    {
      if id != IdOf(v) {
        var w := PositionOf(v, id);
      }
    }
    SubsetNotLarger(all, held + IdsOf(issued));
  }

  // ---------------------------------------------------------------------------------------------
  // The distance is reached, and when it is the whole id space
  // ---------------------------------------------------------------------------------------------

  /** A run with one more operation. */
  lemma Extended(t: Table, ops: seq<Op>, op: Op)
    ensures Replay(t, ops + [op]) == Apply(Replay(t, ops), op)
    ensures |IssuedBy(t, ops + [op])| == |IssuedBy(t, ops)| + if op.Insert? && Proceeds(Replay(t, ops), op) then 1 else 0
  {
    assert (ops + [op])[..|ops + [op]| - 1] == ops;
  }

  /** A request that is made and given up at once, pruning nothing. */
  lemma MadeAndCancelled(t: Table, ops: seq<Op>, now: Table) returns (all: seq<Op>)
    requires Replay(t, ops) == now && |now.items| < CAPACITY
    ensures Replay(t, all) == Table(now.items, NextTicket(now, {}) + 1)
    ensures |IssuedBy(t, all)| == |IssuedBy(t, ops)| + 1
  {
    var id := IdOf(NextTicket(now, {}));
    var once := ops + [Insert(0, [], {})];
    Extended(t, ops, Insert(0, [], {}));
    Extended(t, once, Cancel(id));
    all := once + [Cancel(id)];
    assert Unabandoned(now.items, {}) == now.items;
    assert now.items[id := Request(0, [], None)] - {id} == now.items;
  }

  /** Some run from `t` ends in `now` and issues `n` ids. */
  ghost predicate Reaches(t: Table, now: Table, n: int) {
    exists ops :: Replay(t, ops) == now && |IssuedBy(t, ops)| == n
  }

  lemma ReachesOneMore(t: Table, now: Table, n: int)
    requires |now.items| < CAPACITY && Reaches(t, now, n)
    ensures Reaches(t, Table(now.items, NextTicket(now, {}) + 1), n + 1)
  {
    var ops :| Replay(t, ops) == now && |IssuedBy(t, ops)| == n;
    var all := MadeAndCancelled(t, ops, now);
  }

  /** How many positions `lo <= w < hi` are free. */
  function FreeCount(free: nat -> bool, lo: nat, hi: nat): nat
    decreases hi - lo
  {
    if lo >= hi then 0 else FreeCount(free, lo + 1, hi) + if free(lo) then 1 else 0
  }

  lemma {:induction false} NoneFree(free: nat -> bool, lo: nat, at: nat, hi: nat)
    requires lo <= at <= hi && forall w: nat | lo <= w < at :: !free(w)
    ensures FreeCount(free, lo, hi) == FreeCount(free, at, hi)
    decreases at - lo
  {
    if lo < at {
      NoneFree(free, lo + 1, at, hi);
    }
  }

  /** What survives each step from one free position past the next holds, a step for each of them later, where `hi` comes up. */
  lemma {:induction false} WalkTo(free: nat -> bool, next: nat -> nat, holds: (nat, int) -> bool, at: nat, n: int, hi: nat)
    returns (end: nat)
    requires at <= hi && free(hi) && holds(at, n)
    requires forall c: nat {:trigger next(c)} :: c <= next(c) && free(next(c)) && forall w: nat | c <= w < next(c) :: !free(w)
    requires forall c: nat, j: int {:trigger next(c), holds(c, j)} :: holds(c, j) ==> holds(next(c) + 1, j + 1)
    ensures next(end) == hi && holds(end, n + FreeCount(free, at, hi))
    decreases hi - at
  {
    NoneFree(free, at, next(at), hi);
    end := at;
    if next(at) < hi {
      end := WalkTo(free, next, holds, next(at) + 1, n + 1, hi);
    }
  }

  /** The positions whose ids are not live. */
  ghost function FreeAmong(items: map<u16, Request>): nat -> bool {
    (w: nat) => IdOf(w) !in items
  }

  /** The position issued next from each. */
  ghost function NextAmong(items: map<u16, Request>): nat -> nat
    requires |items| < CAPACITY
  {
    (c: nat) => NextTicket(Table(items, c), {})
  }

  lemma NextIsFirstFree(items: map<u16, Request>, c: nat)
    requires |items| < CAPACITY
    ensures var next := NextAmong(items)(c);
            c <= next && FreeAmong(items)(next) && forall w: nat | c <= w < next :: !FreeAmong(items)(w)
  {
    assert Unabandoned(items, {}) == items;
    assert FirstFree(items.Keys, c, NextTicket(Table(items, c), {}));
  }

  /** With `items` live throughout, requests made and given up at once bring any free position up. */
  lemma WalkThere(t: Table, items: map<u16, Request>, at: nat, hi: nat) returns (last: nat)
    requires |items| < CAPACITY && at <= hi && FreeAmong(items)(hi) && Reaches(t, Table(items, at), 0)
    ensures NextAmong(items)(last) == hi
    ensures Reaches(t, Table(items, last), FreeCount(FreeAmong(items), at, hi))
  {
    var free, next := FreeAmong(items), NextAmong(items);
    var holds := (c: nat, j: int) => Reaches(t, Table(items, c), j);
    forall c: nat
      ensures c <= next(c) && free(next(c)) && forall w: nat | c <= w < next(c) :: !free(w)
    {
      NextIsFirstFree(items, c);
    }
    forall c: nat, j: int | holds(c, j)
      ensures holds(next(c) + 1, j + 1)
    {
      ReachesOneMore(t, Table(items, c), j);
    }
    last := WalkTo(free, next, holds, at, 0, hi);
  }

  /** Within a lap, free positions are different free ids. */
  lemma {:induction false} FreeIds(items: map<u16, Request>, lo: nat, hi: nat) returns (ids: set<u16>)
    requires hi <= lo + ID_SPACE
    ensures |ids| == FreeCount(FreeAmong(items), lo, hi)
    ensures forall id | id in ids :: id !in items && exists w :: lo <= w < hi && IdOf(w) == id
    decreases hi - lo
  {
    if lo >= hi {
      ids := {};
    } else {
      ids := FreeIds(items, lo + 1, hi);
      if IdOf(lo) !in items {
        if IdOf(lo) in ids {
          var w :| lo + 1 <= w < hi && IdOf(w) == IdOf(lo);
          WholeLaps(lo, w);
        }
        ids := ids + {IdOf(lo)};
      }
    }
  }

  /** Of the positions within a lap after `v`, at most those of ids neither live nor its own are free. */
  lemma FreeWithinALap(items: map<u16, Request>, v: nat, u: nat)
    requires IdOf(v) !in items && v < u <= v + ID_SPACE
    ensures FreeCount(FreeAmong(items), v + 1, u) <= CAPACITY - |items|
  {
    var ids := FreeIds(items, v + 1, u);
    if IdOf(v) in ids {
      var w :| v + 1 <= w < u && IdOf(w) == IdOf(v);
      WholeLaps(v, w);
    }
    assert |items.Keys + {IdOf(v)}| == |items| + 1;
    DisjointIds(ids, items.Keys + {IdOf(v)});
  }

  /** A lap after `v` its id comes round. */
  lemma NextLap(v: nat) returns (u: nat)
    ensures v < u <= v + ID_SPACE && IdOf(u) == IdOf(v)
  {
    u := v + ID_SPACE;
  }

  lemma DisjointIds(a: set<u16>, b: set<u16>)
    requires a !! b
    ensures |a| + |b| <= ID_SPACE
  {
    SubsetNotLarger(a + b, IdsBelow(ID_SPACE));
  }

  /** The run of `ReuseDistanceReached` begins by giving the request itself up. */
  lemma GivenUp(t: Table, first: Op, v: nat)
    requires Issues(t, first, v)
    ensures var t1, others := Apply(t, first), Apply(t, first).items - {IdOf(v)};
            Reaches(t1, Table(others, v + 1), 0) && |t1.items| == |others| + 1 <= CAPACITY
  {
    var t1 := Apply(t, first);
    Extended(t1, [], Cancel(IdOf(v)));
    assert [] + [Cancel(IdOf(v))] == [Cancel(IdOf(v))];
    assert Replay(t1, [Cancel(IdOf(v))]) == Table(t1.items - {IdOf(v)}, v + 1);
    RemoveOne(t1.items, IdOf(v));
    InsertedFits(t, first);
  }

  /** The id of `v` can come up again with no more issued in between than there were other free ids. */
  lemma ReachesAgain(t1: Table, others: map<u16, Request>, v: nat) returns (end: Table, k: nat, u: nat)
    requires |others| < CAPACITY && IdOf(v) !in others && Reaches(t1, Table(others, v + 1), 0)
    ensures k <= CAPACITY - |others| && Reaches(t1, end, k)
    ensures Issues(end, Insert(0, [], {}), u) && IdOf(u) == IdOf(v) && u <= v + ID_SPACE
  {
    u := NextLap(v);
    FreeWithinALap(others, v, u);
    var last := WalkThere(t1, others, v + 1, u);
    end, k := Table(others, last), FreeCount(FreeAmong(others), v + 1, u);
    IssuedThere(others, last, u);
  }

  lemma IssuedThere(items: map<u16, Request>, c: nat, u: nat)
    requires |items| < CAPACITY && NextAmong(items)(c) == u
    ensures Issues(Table(items, c), Insert(0, [], {}), u)
  {
  }

  /** `ReuseDistance` is sharp: after any issue, some run reissues the id after exactly 65 535 - L others. */
  lemma ReuseDistanceReached(t: Table, first: Op, v: nat) returns (ops: seq<Op>, again: Op, u: nat)
    requires Issues(t, first, v)
    ensures Issues(Replay(Apply(t, first), ops), again, u) && IdOf(u) == IdOf(v)
    ensures |IssuedBy(Apply(t, first), ops)| == CAPACITY - (|Apply(t, first).items| - 1)
  {
    var end, k;
    GivenUp(t, first, v);
    end, k, u := ReachesAgain(Apply(t, first), Apply(t, first).items - {IdOf(v)}, v);
    ops := SomeRun(Apply(t, first), end, k);
    again := Insert(0, [], {});
    ReuseDistanceBetween(t, first, v, ops, again, u);
  }

  lemma ReuseDistanceBetween(t: Table, first: Op, v: nat, ops: seq<Op>, again: Op, u: nat)
    requires Issues(t, first, v) && Issues(Replay(Apply(t, first), ops), again, u) && IdOf(v) == IdOf(u)
    ensures |IssuedBy(Apply(t, first), ops)| >= CAPACITY - (|Apply(t, first).items| - 1)
  {
    ReuseDistance(t, first, v, ops, again, u);
  }

  lemma SomeRun(t: Table, now: Table, n: int) returns (ops: seq<Op>)
    requires Reaches(t, now, n)
    ensures Replay(t, ops) == now && |IssuedBy(t, ops)| == n
  {
    ops :| Replay(t, ops) == now && |IssuedBy(t, ops)| == n;
  }

  lemma InsertedFits(t: Table, op: Op)
    requires op.Insert? && Proceeds(t, op)
    ensures |Apply(t, op).items| <= CAPACITY
  {
    UnabandonedNotLarger(t.items, op.closed);
    AddOne(Unabandoned(t.items, op.closed), IdOf(NextTicket(t, op.closed)), Request(op.sender, op.expected, None));
  }

  /** Every run from `t` that reissues the id of `v` issues at least 65 535 others before. */
  ghost predicate FullDistance(t: Table, v: nat) {
    forall ops, again, u :: Issues(Replay(t, ops), again, u) && IdOf(u) == IdOf(v) ==> |IssuedBy(t, ops)| >= 65_535
  }

  /** An id is sure not to be reissued until 65 535 others have been if and only if no other request is live when it is issued. */
  lemma FullDistanceExactly(t: Table, first: Op, v: nat)
    requires Issues(t, first, v)
    ensures FullDistance(Apply(t, first), v) <==> |Apply(t, first).items| == 1
  {
    var t1 := Apply(t, first);
    assert IdOf(v) in t1.items;
    SubsetNotLarger({IdOf(v)}, t1.items.Keys);
    if |t1.items| == 1 {
      forall ops, again, u | Issues(Replay(t1, ops), again, u) && IdOf(u) == IdOf(v)
        ensures |IssuedBy(t1, ops)| >= CAPACITY
      {
        ReuseDistance(t, first, v, ops, again, u);
      }
    } else {
      var ops, again, u := ReuseDistanceReached(t, first, v);
      assert !FullDistance(t1, v);
    }
  }
}
