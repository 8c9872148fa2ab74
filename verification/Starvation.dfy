/**
 * When a waiting caller can still get a permit although the peer stays silent (src/request_map.rs).
 *
 * `insert` prunes abandoned requests only once it has a permit, so permits can all be stuck with them.
 */
module Starvation {
  import opened Wire
  import opened RequestMaps
  import opened LinkMachine
  import opened LinkTheorems

  /** A caller that will cancel its id, if nothing else happens to it. */
  predicate WillCancel(c: Call) {
    c.issue.Some? && (c.phase.Sending? || c.phase.Unsent? || c.phase.Parked? || c.phase.Expired?)
  }

  /** Every permit is in the map, and none of the entries is under an id somebody will cancel. */
  ghost predicate Starved(l: Link) {
    && l.free == 0 && !l.reader.Answering?
    && forall t: nat | t < |l.calls| ::
         !l.calls[t].phase.Permitted? && (WillCancel(l.calls[t]) ==> IdOfCall(l, t) !in l.items)
  }

  /** Steps of this end alone: nothing arrives. */
  ghost predicate Silent(l: Link, events: seq<Event>)
    decreases |events|
  {
    events == [] || (Enabled(l, events[0]) && !events[0].Frame? && Silent(Step(l, events[0]), events[1..]))
  }

  ghost function EndOf(l: Link, events: seq<Event>): Link
    requires Silent(l, events)
    decreases |events|
  {
    if events == [] then l else EndOf(Step(l, events[0]), events[1..])
  }

  lemma StarvedStep(l: Link, e: Event)
    requires Starved(l) && Enabled(l, e) && !e.Frame?
    ensures Starved(Step(l, e))
  {
  }

  lemma {:induction false} StarvedStays(l: Link, events: seq<Event>)
    requires Starved(l) && Silent(l, events)
    ensures Starved(EndOf(l, events))
    decreases |events|
  {
    if events != [] {
      StarvedStep(l, events[0]);
      StarvedStays(Step(l, events[0]), events[1..]);
    }
  }

  lemma SilentCons(l: Link, e: Event, events: seq<Event>)
    requires Enabled(l, e) && !e.Frame? && Silent(Step(l, e), events)
    ensures Silent(l, [e] + events) && EndOf(l, [e] + events) == EndOf(Step(l, e), events)
  {
    assert ([e] + events)[0] == e && ([e] + events)[1..] == events;
  }

  /** A caller that will cancel an id under which there is an entry frees a permit within two steps. */
  lemma CancelFrees(l: Link, t: nat) returns (events: seq<Event>)
    requires t < |l.calls| && WillCancel(l.calls[t]) && IdOfCall(l, t) in l.items
    ensures Silent(l, events) && EndOf(l, events).free > 0
  {
    if l.calls[t].phase.Sending? || l.calls[t].phase.Unsent? {
      events := CancelsUnsent(l, t);
    } else if l.calls[t].phase.Parked? {
      SilentCons(Step(l, Expire(t)), CancelExpired(t), []);
      SilentCons(l, Expire(t), [CancelExpired(t)]);
      events := [Expire(t)] + [CancelExpired(t)];
    } else {
      SilentCons(l, CancelExpired(t), []);
      events := [CancelExpired(t)] + [];
    }
  }

  lemma CancelsUnsent(l: Link, t: nat) returns (events: seq<Event>)
    requires t < |l.calls| && l.calls[t].issue.Some? && (l.calls[t].phase.Sending? || l.calls[t].phase.Unsent?)
    requires IdOfCall(l, t) in l.items
    ensures Silent(l, events) && EndOf(l, events).free > 0
  {
    if l.calls[t].phase.Sending? {
      SilentCons(Step(l, SendErr(t, false)), CancelUnsent(t), []);
      SilentCons(l, SendErr(t, false), [CancelUnsent(t)]);
      events := [SendErr(t, false)] + [CancelUnsent(t)];
    } else {
      SilentCons(l, CancelUnsent(t), []);
      events := [CancelUnsent(t)] + [];
    }
  }

  /** A caller with a permit inserts; its own send may then fail. */
  lemma InsertFrees(l: Link, t: nat) returns (events: seq<Event>)
    requires Inv(l) && t < |l.calls| && l.calls[t].phase.Permitted?
    ensures Silent(l, events) && EndOf(l, events).free > 0
  {
    SubsetNotLarger({t}, Holders(l.calls));
    events := CancelsUnsent(Step(l, Insert(t)), t);
    SilentCons(l, Insert(t), events);
    events := [Insert(t)] + events;
  }

  lemma SomeoneFrees(l: Link) returns (events: seq<Event>)
    requires Inv(l) && !Starved(l)
    ensures Silent(l, events) && EndOf(l, events).free > 0
  {
    if l.free > 0 {
      events := [];
    } else if l.reader.Answering? {
      SilentCons(l, Deliver, []);
      events := [Deliver] + [];
    } else {
      var t: nat :| t < |l.calls| &&
        (l.calls[t].phase.Permitted? || (WillCancel(l.calls[t]) && IdOfCall(l, t) in l.items));
      if l.calls[t].phase.Permitted? {
        events := InsertFrees(l, t);
      } else {
        events := CancelFrees(l, t);
      }
    }
  }

  /** In a reachable state a permit can still come free without the peer exactly if the link is not starved. */
  lemma PermitStillComesExactly(links: seq<Link>, events: seq<Event>, i: nat)
    requires IsRun(links, events) && i < |links|
    ensures (exists more :: Silent(links[i], more) && EndOf(links[i], more).free > 0) <==> !Starved(links[i])
  {
    RunKeepsInv(links, events, i);
    if Starved(links[i]) {
      forall more | Silent(links[i], more)
        ensures EndOf(links[i], more).free == 0
      {
        StarvedStays(links[i], more);
      }
    } else {
      var more := SomeoneFrees(links[i]);
    }
  }

  // ---------------------------------------------------------------------------------------------
  // It happens
  // ---------------------------------------------------------------------------------------------

  /** `n` calls hold the first `n` ids; the first `given` of them have been abandoned. */
  ghost predicate Filled(l: Link, n: nat, given: nat) {
    && n <= CAPACITY && |l.calls| == n && l.cursor == n && l.free == CAPACITY - n && l.reader.Idle?
    && |l.items| == n
    && (forall id | id in l.items :: id < n && l.items[id].sender < n)
    && (forall t: nat | t < n :: l.calls[t].phase == if t < given then Abandoned else Sending)
  }

  /** The next call has its permit. */
  ghost predicate Ready(l: Link, n: nat) {
    && n < CAPACITY && |l.calls| == n + 1 && l.cursor == n && l.free == CAPACITY - n - 1 && l.reader.Idle?
    && |l.items| == n
    && (forall id | id in l.items :: id < n && l.items[id].sender < n)
    && (forall t: nat | t < n :: l.calls[t].phase.Sending?)
    && l.calls[n].phase.Permitted?
  }

  lemma GetReady(l: Link, n: nat)
    requires Filled(l, n, 0) && n < CAPACITY
    ensures var l1 := Step(l, Start(0, [], []));
            Enabled(l1, Acquire(n)) && Ready(Step(l1, Acquire(n)), n)
  {
  }

  lemma NextInLine(l: Link, n: nat)
    requires Ready(l, n)
    ensures Closed(l.calls) == {} && Unabandoned(l.items, {}) == l.items && IdOf(n) == n
    ensures NextTicket(TableOf(l), {}) == n && n !in l.items
  {
    assert Unabandoned(l.items, {}) == l.items;
    assert IdOf(n) == n && n !in l.items.Keys;
  }

  lemma FillOneMore(l: Link, n: nat)
    requires Ready(l, n)
    ensures Enabled(l, Insert(n)) && Filled(Step(l, Insert(n)), n + 1, 0)
  {
    NextInLine(l, n);
    AddOne(l.items, n, Request(n, l.calls[n].expected, None));
  }

  lemma Extend(links: seq<Link>, events: seq<Event>, e: Event) returns (links': seq<Link>, events': seq<Event>)
    requires IsRun(links, events) && Enabled(links[|events|], e)
    ensures IsRun(links', events') && links'[|events'|] == Step(links[|events|], e)
  {
    links', events' := links + [Step(links[|events|], e)], events + [e];
  }

  lemma {:induction false} FillUp(n: nat) returns (links: seq<Link>, events: seq<Event>)
    requires n <= CAPACITY
    ensures IsRun(links, events) && Filled(links[|events|], n, 0)
  {
    if n == 0 {
      links, events := [INITIAL], [];
    } else {
      links, events := FillUp(n - 1);
      GetReady(links[|events|], n - 1);
      links, events := Extend(links, events, Start(0, [], []));
      links, events := Extend(links, events, Acquire(n - 1));
      FillOneMore(links[|events|], n - 1);
      links, events := Extend(links, events, Insert(n - 1));
    }
  }

  lemma {:induction false} GiveUp(n: nat, given: nat) returns (links: seq<Link>, events: seq<Event>)
    requires given <= n <= CAPACITY
    ensures IsRun(links, events) && Filled(links[|events|], n, given)
    decreases given
  {
    if given == 0 {
      links, events := FillUp(n);
    } else {
      links, events := GiveUp(n, given - 1);
      links, events := Extend(links, events, Abandon(given - 1));
    }
  }

  /** If every caller gives up with all permits out, no later one is ever served while the peer stays silent. */
  lemma StarvationReachable()
    ensures exists links, events :: IsRun(links, events) && Starved(links[|events|])
  {
    var links, events := GiveUp(CAPACITY, CAPACITY);
    assert IsRun(links, events) && Starved(links[|events|]);
  }
}
