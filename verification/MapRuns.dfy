/** Runs of map operations (src/request_map.rs). */
module MapRuns {
  import opened Wire
  import opened RequestMaps

  /** One caller's or the reader's use of the map; `closed` are the senders whose receivers are gone by then. */
  datatype Op =
    | Insert(sender: nat, expected: seq<byte>, closed: set<nat>)
    | Take(id: u16, opcode: byte)
    | Cancel(id: u16)

  /** An insert at capacity waits for a permit, so for now nothing happens, not even pruning. */
  predicate Proceeds(t: Table, op: Op) {
    op.Insert? ==> |t.items| < CAPACITY
  }

  ghost function Apply(t: Table, op: Op): Table {
    if !Proceeds(t, op) then t else
    match op
    case Insert(sender, expected, closed) => Inserted(t, sender, expected, closed)
    case Take(id, opcode) => Taken(t, id, opcode)
    case Cancel(id) => Cancelled(t, id)
  }

  ghost function Replay(t: Table, ops: seq<Op>): Table {
    if ops == [] then t else Apply(Replay(t, ops[..|ops| - 1]), ops[|ops| - 1])
  }

  /** In `t`, `op` issues the id at cursor position `ticket`. */
  ghost predicate Issues(t: Table, op: Op, ticket: nat) {
    op.Insert? && Proceeds(t, op) && ticket == NextTicket(t, op.closed)
  }

  /** The cursor positions issued by a run, oldest first. */
  ghost function IssuedBy(t: Table, ops: seq<Op>): seq<nat> {
    if ops == [] then [] else
    var before, op := Replay(t, ops[..|ops| - 1]), ops[|ops| - 1];
    var issued := IssuedBy(t, ops[..|ops| - 1]);
    if op.Insert? && Proceeds(before, op) then issued + [NextTicket(before, op.closed)] else issued
  }

  /** One operation on the object, by a caller that keeps no permit afterwards. */
  method Perform(requests: RequestMap, op: Op)
    requires requests.Valid() && requests.outstanding == 0
    modifies requests
    ensures requests.Valid() && requests.outstanding == 0
    ensures requests.Contents() == Apply(old(requests.Contents()), op)
  {
    match op {
      case Insert(sender, expected, closed) =>
        var ok := requests.Acquire();
        if ok {
          var _ := requests.Insert(sender, expected, closed);
        }
      case Take(id, opcode) =>
        var c := requests.Take(id, opcode);
        if c.Answer? {
          requests.Release();
        }
      case Cancel(id) =>
        var r := requests.Cancel(id);
        if r.Some? {
          requests.Release();
        }
    }
  }

  method PerformAll(requests: RequestMap, ops: seq<Op>)
    requires requests.Valid() && requests.outstanding == 0
    modifies requests
    ensures requests.Valid() && requests.outstanding == 0
    ensures requests.Contents() == Replay(old(requests.Contents()), ops)
  {
    for i := 0 to |ops|
      invariant requests.Valid() && requests.outstanding == 0
      invariant requests.Contents() == Replay(old(requests.Contents()), ops[..i])
    {
      assert ops[..i + 1][..i] == ops[..i];
      Perform(requests, ops[i]);
    }
    assert ops[..|ops|] == ops;
  }
}
