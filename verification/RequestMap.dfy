/**
 * Correlation-id bookkeeping for outstanding requests (src/request_map.rs).
 *
 * `Table` is the abstract map: live requests by wire id, and an allocation cursor that is never wrapped, so
 * that a request can be told from a later one under the same id by the cursor position it was issued at.
 * `RequestMap` is the source's object: the wrapped cursor, the hash map, and the semaphore as a counter.
 */
module RequestMaps {
  import opened Wire

  /** How many correlation ids there are, and how many requests may be live at once. */
  const ID_SPACE: nat := 0x1_0000
  const CAPACITY: nat := 0xFFFF

  /** One waiter: `sender` names its reply channel. */
  datatype Request = Request(sender: nat, expected: seq<byte>, undeclared: Option<byte>) {
    /** What the request reports once its deadline has passed. */
    function IntoDiagnosis(): Option<(seq<byte>, byte)> {
      if undeclared.Some? then Some((expected, undeclared.value)) else None
    }
  }

  /** How a request ends for its caller; `R` is what stands for a reply. */
  datatype Outcome<+R> =
    | Replied(reply: R)
    | SendFailed
    | ChannelClosed
    | InvalidResponse(expected: seq<byte>, found: byte)
    | RequestTimeout(opcode: byte)

  /** What a request that ran out of time reports, from whatever its cancel removed. */
  function Report<R>(removed: Option<Request>, opcode: byte): Outcome<R> {
    if removed.Some? && removed.value.IntoDiagnosis().Some? then
      var (expected, found) := removed.value.IntoDiagnosis().value;
      InvalidResponse(expected, found)
    else RequestTimeout(opcode)
  }

  datatype Correlation = Unknown | Answer(request: Request) | Undeclared

  datatype Table = Table(items: map<u16, Request>, cursor: nat)

  function IdOf(ticket: nat): u16 {
    ticket % ID_SPACE
  }

  /** The requests whose caller still holds its receiver. */
  function Unabandoned(items: map<u16, Request>, closed: set<nat>): map<u16, Request> {
    map id | id in items && items[id].sender !in closed :: items[id]
  }

  // ---------------------------------------------------------------------------------------------
  // A free id always exists
  // ---------------------------------------------------------------------------------------------

  ghost function IdsBelow(n: nat): (ids: set<u16>)
    requires n <= ID_SPACE
    ensures |ids| == n && forall id: u16 :: id in ids <==> id < n
  {
    if n == 0 then {} else var last: u16 := n - 1; IdsBelow(n - 1) + {last}
  }

  lemma SubsetNotLarger<T>(a: set<T>, b: set<T>)
    requires a <= b
    ensures |a| <= |b|
  {
    assert b == a + (b - a);
  }

  /** Fewer live ids than ids leave one free. */
  lemma SomeIdFree(live: set<u16>) returns (id: u16)
    requires |live| < ID_SPACE
    ensures id !in live
  {
    var all := IdsBelow(ID_SPACE);
    if all <= live {
      SubsetNotLarger(all, live);
    }
    id :| id in all && id !in live;
  }

  /** The first position from `from` on whose id is free; the wrapping search ends within one lap. */
  lemma SearchEnds(live: set<u16>, from: nat) returns (ticket: nat)
    requires |live| < ID_SPACE
    ensures from <= ticket < from + ID_SPACE && IdOf(ticket) !in live
  {
    var id := SomeIdFree(live);
    var here := IdOf(from);
    ticket := from + if here <= id then id - here else id + ID_SPACE - here;
    assert ticket % ID_SPACE == id;
  }

  ghost predicate FirstFree(live: set<u16>, from: nat, ticket: nat) {
    from <= ticket && IdOf(ticket) !in live && forall t | from <= t < ticket :: IdOf(t) in live
  }

  /** Where the search stops, within a lap of where it started. */
  ghost function Allocate(live: set<u16>, from: nat): (ticket: nat)
    requires |live| < ID_SPACE
    ensures FirstFree(live, from, ticket) && ticket < from + ID_SPACE
  {
    SomeTicketFree(live, from);
    var ticket: nat :| FirstFree(live, from, ticket) && ticket < from + ID_SPACE;
    ticket
  }

  lemma {:induction false} FirstFreeUpTo(live: set<u16>, from: nat, at: nat, bound: nat)
    requires from <= at <= bound < from + ID_SPACE && IdOf(bound) !in live
    requires forall t | from <= t < at :: IdOf(t) in live
    ensures exists ticket: nat :: FirstFree(live, from, ticket) && ticket < from + ID_SPACE
    decreases bound - at
  {
    if IdOf(at) !in live {
      assert FirstFree(live, from, at);
    } else {
      FirstFreeUpTo(live, from, at + 1, bound);
    }
  }

  lemma SomeTicketFree(live: set<u16>, from: nat)
    requires |live| < ID_SPACE
    ensures exists ticket: nat :: FirstFree(live, from, ticket) && ticket < from + ID_SPACE
  {
    var bound := SearchEnds(live, from);
    FirstFreeUpTo(live, from, from, bound);
  }

  // ---------------------------------------------------------------------------------------------
  // The operations on the abstract map
  // ---------------------------------------------------------------------------------------------

  lemma UnabandonedNotLarger(items: map<u16, Request>, closed: set<nat>)
    ensures |Unabandoned(items, closed)| <= |items|
  {
    SubsetNotLarger(Unabandoned(items, closed).Keys, items.Keys);
  }

  /** The cursor position a new request is issued at. */
  ghost function NextTicket(t: Table, closed: set<nat>): (ticket: nat)
    requires |t.items| < ID_SPACE
    ensures FirstFree(Unabandoned(t.items, closed).Keys, t.cursor, ticket) && ticket < t.cursor + ID_SPACE
  {
    UnabandonedNotLarger(t.items, closed);
    Allocate(Unabandoned(t.items, closed).Keys, t.cursor)
  }

  ghost function Inserted(t: Table, sender: nat, expected: seq<byte>, closed: set<nat>): Table
    requires |t.items| < ID_SPACE
  {
    var ticket := NextTicket(t, closed);
    Table(Unabandoned(t.items, closed)[IdOf(ticket) := Request(sender, expected, None)], ticket + 1)
  }

  function Classify(t: Table, id: u16, opcode: byte): Correlation {
    if id !in t.items then Unknown
    else if opcode !in t.items[id].expected then Undeclared
    else Answer(t.items[id])
  }

  function Taken(t: Table, id: u16, opcode: byte): Table {
    match Classify(t, id, opcode)
    case Unknown => t
    case Undeclared => t.(items := t.items[id := t.items[id].(undeclared := Some(opcode))])
    case Answer(_) => t.(items := t.items - {id})
  }

  /** The request under `id`, if there is one. */
  function Under(t: Table, id: u16): Option<Request> {
    if id in t.items then Some(t.items[id]) else None
  }

  function Cancelled(t: Table, id: u16): Table {
    t.(items := t.items - {id})
  }

  // ---------------------------------------------------------------------------------------------
  // The object
  // ---------------------------------------------------------------------------------------------

  class RequestMap {
    var items: map<u16, Request>
    /** Permits left in the semaphore. */
    var free: nat
    var nextId: u16

    /** Where `nextId` would be had it never wrapped. */
    ghost var cursor: nat
    /** Permits out of the semaphore and not in the map: with a caller about to insert, or with a removed request. */
    ghost var outstanding: nat

    /** Every permit is in exactly one place. */
    ghost predicate Valid()
      reads this
    {
      nextId == IdOf(cursor) && free + |items| + outstanding == CAPACITY
    }

    ghost function Contents(): Table
      reads this
    {
      Table(items, cursor)
    }

    constructor ()
      ensures Valid() && Contents() == Table(map[], 0) && outstanding == 0
    {
      items := map[];
      free := CAPACITY;
      nextId := 0;
      cursor, outstanding := 0, 0;
    }

    /** One attempt at a permit; the source waits for as long as there is none. */
    method Acquire() returns (ok: bool)
      requires Valid()
      modifies `free, `outstanding
      ensures Valid() && Contents() == old(Contents())
      ensures ok == (old(free) > 0)
      ensures outstanding == old(outstanding) + if ok then 1 else 0
    {
      ok := free > 0;
      if ok {
        free, outstanding := free - 1, outstanding + 1;
      }
    }

    /** Dropping a permit, alone or with the request that holds it. */
    method Release()
      requires Valid() && outstanding > 0
      modifies `free, `outstanding
      ensures Valid() && Contents() == old(Contents()) && outstanding == old(outstanding) - 1
    {
      free, outstanding := free + 1, outstanding - 1;
    }

    /** Store a request under an unused id; the caller's permit goes into the map with it. */
    method Insert(sender: nat, expected: seq<byte>, closed: set<nat>) returns (id: u16)
      requires Valid() && outstanding > 0
      modifies this
      ensures Valid() && outstanding == old(outstanding) - 1
      ensures Contents() == Inserted(old(Contents()), sender, expected, closed)
      ensures id == IdOf(NextTicket(old(Contents()), closed))
    {
      var live := Unabandoned(items, closed);
      UnabandonedNotLarger(items, closed);
      ghost var ticket := NextTicket(Contents(), closed);
      free := free + (|items| - |live|);

      id := nextId;
      ghost var at := cursor;
      while id in live
        modifies {}
        invariant cursor <= at <= ticket && id == IdOf(at)
        decreases ticket - at
      {
        IdStep(at);
        id := (id + 1) % ID_SPACE;
        at := at + 1;
      }
      IdStep(at);
      AddOne(live, id, Request(sender, expected, None));
      nextId := (id + 1) % ID_SPACE;
      cursor := at + 1;
      items := live[id := Request(sender, expected, None)];
      outstanding := outstanding - 1;
    }

    /** Classify a frame; an answered request leaves the map with its permit. */
    method Take(id: u16, opcode: byte) returns (c: Correlation)
      requires Valid()
      modifies `items, `outstanding
      ensures Valid() && Contents() == Taken(old(Contents()), id, opcode)
      ensures c == Classify(old(Contents()), id, opcode)
      ensures outstanding == old(outstanding) + if c.Answer? then 1 else 0
    {
      if id !in items {
        return Unknown;
      }
      var request := items[id];
      if opcode !in request.expected {
        items := items[id := request.(undeclared := Some(opcode))];
        return Undeclared;
      }
      RemoveOne(items, id);
      items := items - {id};
      outstanding := outstanding + 1;
      c := Answer(request);
    }

    /** Remove whatever request holds `id`; it leaves the map with its permit. */
    method Cancel(id: u16) returns (r: Option<Request>)
      requires Valid()
      modifies `items, `outstanding
      ensures Valid() && Contents() == Cancelled(old(Contents()), id)
      ensures r == Under(old(Contents()), id)
      ensures outstanding == old(outstanding) + if r.Some? then 1 else 0
    {
      if id in items {
        r := Some(items[id]);
        RemoveOne(items, id);
        outstanding := outstanding + 1;
      } else {
        r := None;
      }
      items := items - {id};
    }
  }

  /** Two positions of one id are a whole number of laps apart. */
  lemma WholeLaps(v: nat, u: nat)
    requires IdOf(v) == IdOf(u) && v < u
    ensures v + ID_SPACE <= u && (u - v) % ID_SPACE == 0
  {
  }

  lemma IdStep(ticket: nat)
    ensures (IdOf(ticket) + 1) % ID_SPACE == IdOf(ticket + 1)
  {
  }

  lemma AddOne<V>(m: map<u16, V>, id: u16, v: V)
    requires id !in m
    ensures |m[id := v]| == |m| + 1
  {
    assert m[id := v].Keys == m.Keys + {id};
  }

  lemma RemoveOne<V>(m: map<u16, V>, id: u16)
    requires id in m
    ensures |m - {id}| == |m| - 1
  {
    assert (m - {id}).Keys == m.Keys - {id};
  }
}
