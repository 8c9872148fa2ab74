/**
 * The length-prefixed payload container and its cursor codec (src/bytes.rs).
 *
 * `StreamAll` is the concatenation of many payloads; `ParseAt` reads one of them at a cursor position.
 */
module Payloads {
  import opened Wire

  datatype Error = SequenceTooLarge | EndOfBuffer
  datatype Result<+T> = Ok(value: T) | Err(error: Error)

  ghost predicate Streamable(payload: seq<byte>) {
    |payload| <= U32_MAX
  }

  function Prefixed(payload: seq<byte>): seq<byte>
    requires Streamable(payload)
  {
    Be32(|payload|) + payload
  }

  /** The wire form of a list of payloads, in order. */
  ghost function StreamAll(payloads: seq<seq<byte>>): seq<byte>
    requires forall i | 0 <= i < |payloads| :: Streamable(payloads[i])
  {
    if payloads == [] then [] else Prefixed(payloads[0]) + StreamAll(payloads[1..])
  }

  /** The payload whose prefix starts at `pos`, and where the next one starts. */
  function ParseAt(buf: seq<byte>, pos: nat): Result<(seq<byte>, nat)> {
    if |buf| < pos + 4 then Err(EndOfBuffer) else
    var len := FromBe32(buf[pos..pos + 4]);
    if |buf| < pos + 4 + len then Err(EndOfBuffer) else Ok((buf[pos + 4..pos + 4 + len], pos + 4 + len))
  }

  /** Reading `count` payloads one after the other. */
  ghost function ParseMany(buf: seq<byte>, pos: nat, count: nat): Result<(seq<seq<byte>>, nat)>
    decreases count
  {
    if count == 0 then Ok(([], pos)) else
    match ParseAt(buf, pos)
    case Err(e) => Err(e)
    case Ok((payload, next)) =>
      match ParseMany(buf, next, count - 1)
      case Err(e) => Err(e)
      case Ok((payloads, end)) => Ok(([payload] + payloads, end))
  }

  /** The output buffer a payload is streamed into. */
  class Sink {
    var out: seq<byte>

    constructor ()
      ensures out == []
    {
      out := [];
    }

    method Stream(payload: seq<byte>) returns (r: Result<()>)
      modifies this
      ensures r == if Streamable(payload) then Ok(()) else Err(SequenceTooLarge)
      ensures out == old(out) + if Streamable(payload) then Prefixed(payload) else []
    {
      if |payload| > U32_MAX {
        return Err(SequenceTooLarge);
      }
      out := out + Be32(|payload|);
      out := out + payload;
      r := Ok(());
    }
  }

  /** A buffer read from the front; a failed length read leaves the cursor, a short payload leaves it behind the prefix. */
  class Cursor {
    const buf: seq<byte>
    var position: nat

    constructor (buf: seq<byte>)
      ensures this.buf == buf && position == 0
    {
      this.buf := buf;
      position := 0;
    }

    method ParseU32() returns (r: Result<u32>)
      modifies this
      ensures r == if |buf| < old(position) + 4 then Err(EndOfBuffer)
                   else Ok(FromBe32(buf[old(position)..old(position) + 4]))
      ensures position == old(position) + if r.Ok? then 4 else 0
    {
      if |buf| < position + 4 {
        return Err(EndOfBuffer);
      }
      r := Ok(FromBe32(buf[position..position + 4]));
      position := position + 4;
    }

    method Parse() returns (r: Result<seq<byte>>)
      modifies this
      ensures match ParseAt(buf, old(position))
              case Ok((payload, next)) => r == Ok(payload) && position == next
              case Err(_) => r == Err(EndOfBuffer) && position == old(position) + if |buf| < old(position) + 4 then 0 else 4
    {
      var lenOrError := ParseU32();
      if lenOrError.Err? {
        return Err(lenOrError.error);
      }
      var start := position;
      var end := start + lenOrError.value;
      if |buf| < end {
        return Err(EndOfBuffer);
      }
      position := end;
      r := Ok(buf[start..end]);
    }
  }

  /** Parsing at a position succeeds exactly where a prefixed payload lies. */
  lemma ParseAtExact(buf: seq<byte>, pos: nat, payload: seq<byte>, next: nat)
    ensures ParseAt(buf, pos) == Ok((payload, next)) <==>
            pos <= next <= |buf| && Streamable(payload) && buf[pos..next] == Prefixed(payload)
  {
    if ParseAt(buf, pos) == Ok((payload, next)) {
      Be32Bijective(0, buf[pos..pos + 4]);
      assert buf[pos..next] == buf[pos..pos + 4] + buf[pos + 4..next];
    }
    if pos <= next <= |buf| && Streamable(payload) && buf[pos..next] == Prefixed(payload) {
      assert buf[pos..pos + 4] == buf[pos..next][..4] == Be32(|payload|);
      Be32Bijective(|payload|, buf[pos..pos + 4]);
      assert buf[pos + 4..next] == buf[pos..next][4..] == payload;
    }
  }

  /** A parse fails exactly if the four length bytes are not there, or announce more than is. */
  lemma ParseFailsExactly(buf: seq<byte>, pos: nat)
    ensures ParseAt(buf, pos).Err? <==>
            |buf| < pos + 4 ||
            |buf| < pos + 4 + (buf[pos] as int) * 16_777_216 + (buf[pos + 1] as int) * 65_536 + (buf[pos + 2] as int) * 256 + buf[pos + 3]
    ensures ParseAt(buf, pos).Err? ==> ParseAt(buf, pos).error == EndOfBuffer
  {
    if |buf| >= pos + 4 {
      FromBe32Weighs(buf[pos..pos + 4]);
    }
  }

  /** What is where in a streamed payload: its length, the heaviest byte first, then its bytes. */
  lemma StreamedLayout(payload: seq<byte>)
    requires |payload| <= 4_294_967_295
    ensures var s := Prefixed(payload);
            && |s| == 4 + |payload| && s[4..] == payload
            && (s[0] as int) * 16_777_216 + (s[1] as int) * 65_536 + (s[2] as int) * 256 + s[3] == |payload|
  {
    Be32Weighs(|payload|);
  }

  lemma SliceSplits(buf: seq<byte>, pos: nat, end: nat, first: seq<byte>, rest: seq<byte>)
    requires pos <= end <= |buf|
    ensures buf[pos..end] == first + rest <==>
            pos + |first| <= end && buf[pos..pos + |first|] == first && buf[pos + |first|..end] == rest
  {
    var next := pos + |first|;
    if buf[pos..end] == first + rest {
      assert |buf[pos..end]| == end - pos;
      assert buf[pos..next] == buf[pos..end][..|first|] == first;
      assert buf[next..end] == buf[pos..end][|first|..] == rest;
    } else if next <= end {
      assert buf[pos..end] == buf[pos..next] + buf[next..end];
    }
  }

  /** A list of payloads parses back, in order and with the cursor at its end, exactly where it was streamed. */
  lemma {:induction false} StreamedParsesBack(buf: seq<byte>, pos: nat, payloads: seq<seq<byte>>, end: nat)
    requires forall i | 0 <= i < |payloads| :: Streamable(payloads[i])
    ensures ParseMany(buf, pos, |payloads|) == Ok((payloads, end)) && end <= |buf| <==>
            pos <= end <= |buf| && buf[pos..end] == StreamAll(payloads)
    decreases payloads
  {
    if payloads != [] && end <= |buf| {
      var first, rest := Prefixed(payloads[0]), payloads[1..];
      var next := pos + |first|;
      ParseAtExact(buf, pos, payloads[0], next);
      StreamedParsesBack(buf, next, rest, end);
      assert payloads == [payloads[0]] + rest;
      if pos <= end {
        SliceSplits(buf, pos, end, first, StreamAll(rest));
      }
      if ParseMany(buf, pos, |payloads|) == Ok((payloads, end)) {
        ParsedHeadIsFirst(buf, pos, payloads, end);
      }
    }
  }

  lemma ParsedHeadIsFirst(buf: seq<byte>, pos: nat, payloads: seq<seq<byte>>, end: nat)
    requires payloads != [] && Streamable(payloads[0])
    requires ParseMany(buf, pos, |payloads|) == Ok((payloads, end))
    ensures var next := pos + |Prefixed(payloads[0])|;
            ParseAt(buf, pos) == Ok((payloads[0], next)) &&
            ParseMany(buf, next, |payloads| - 1) == Ok((payloads[1..], end))
  {
    var (payload, next) := ParseAt(buf, pos).value;
    var (others, end') := ParseMany(buf, next, |payloads| - 1).value;
    assert ([payload] + others)[0] == payload && ([payload] + others)[1..] == others;
    ParseAtExact(buf, pos, payload, next);
  }
}
