/**
 * The DIG peer envelope and its wire codec (src/dig_message.rs).
 *
 * `Frame` says which byte strings are a frame of a message; `Decode` is the parser. Everything the codec
 * promises follows from `DecodeExact`, which ties the two together in both directions.
 */
module DigMessages {
  import opened Wire

  const MAX_MESSAGE_SIZE: nat := 16 * 1024 * 1024

  datatype DigMessage = DigMessage(msgType: byte, id: Option<u16>, data: seq<byte>)

  /** The bytes of `m` under the length field `len` and presence flag `flag`. */
  function Header(m: DigMessage, flag: byte, len: u32): seq<byte> {
    [m.msgType, flag] + (if m.id.Some? then Be16(m.id.value) else []) + Be32(len)
  }

  /** The bytes of `m` with its true length, its presence flag being any byte that says what `m.id` says. */
  ghost predicate Frame(m: DigMessage, flag: byte, bytes: seq<byte>) {
    && (flag != 0 <==> m.id.Some?)
    && |m.data| <= MAX_MESSAGE_SIZE
    && bytes == Header(m, flag, |m.data|) + m.data
  }

  /** What the encoder writes; the length field keeps only the low 32 bits of the length. */
  function Encode(m: DigMessage): seq<byte> {
    Header(m, if m.id.Some? then 1 else 0, |m.data| % 0x1_0000_0000) + m.data
  }

  function FrameLength(m: DigMessage): nat {
    (if m.id.Some? then 8 else 6) + |m.data|
  }

  /** The parser, as a function of the whole buffer. */
  function Decode(bytes: seq<byte>): Option<DigMessage> {
    if |bytes| < 2 then None else
    var body := if bytes[1] != 0 then 4 else 2;
    if |bytes| < body + 4 then None else
    var id := if bytes[1] != 0 then Some(FromBe16(bytes[2..4])) else None;
    var len := FromBe32(bytes[body..body + 4]);
    if len > MAX_MESSAGE_SIZE || |bytes| < body + 4 + len then None else
    Some(DigMessage(bytes[0], id, bytes[body + 4..body + 4 + len]))
  }

  /** Overflow-checked addition on a target whose `usize` goes up to `usizeMax`. */
  function CheckedAdd(a: nat, b: nat, usizeMax: nat): Option<nat> {
    if a + b <= usizeMax then Some(a + b) else None
  }

  /** Push by push, as the source builds the buffer. */
  method ToBytes(m: DigMessage) returns (buf: seq<byte>)
    ensures buf == Encode(m)
  {
    buf := [];
    buf := buf + [m.msgType];
    match m.id {
      case Some(id) =>
        buf := buf + [1];
        buf := buf + Be16(id);
      case None =>
        buf := buf + [0];
    }
    buf := buf + Be32(|m.data| % 0x1_0000_0000);
    buf := buf + m.data;
  }

  /**
   * The borrowing parser. Its result does not mention `usizeMax`: on every target with at least a 32-bit
   * `usize` the checked additions never fire.
   */
  method FromBytes(bytes: seq<byte>, usizeMax: nat) returns (r: Option<DigMessage>)
    requires U32_MAX <= usizeMax && |bytes| <= usizeMax
    ensures r == Decode(bytes)
  {
    if |bytes| < 2 { return None; }
    var msgType, hasId := bytes[0], bytes[1];
    var offset := 2;
    var id: Option<u16> := None;
    if hasId != 0 {
      var afterId := CheckedAdd(offset, 2, usizeMax);
      if afterId.None? || |bytes| < afterId.value { return None; }
      id := Some(FromBe16(bytes[offset..offset + 2]));
      offset := afterId.value;
    }
    var afterLen := CheckedAdd(offset, 4, usizeMax);
    if afterLen.None? || |bytes| < afterLen.value { return None; }
    var dataLen := FromBe32(bytes[offset..offset + 4]);
    offset := afterLen.value;
    if dataLen > MAX_MESSAGE_SIZE { return None; }
    var end := CheckedAdd(offset, dataLen, usizeMax);
    if end.None? || |bytes| < end.value { return None; }
    r := Some(DigMessage(msgType, id, bytes[offset..end.value]));
  }

  /** The owning parser: the payload is drained out of the buffer, which keeps only what was around it. */
  method FromBytesOwned(bytes: seq<byte>, usizeMax: nat) returns (r: Option<DigMessage>, rest: seq<byte>)
    requires U32_MAX <= usizeMax && |bytes| <= usizeMax
    ensures r == Decode(bytes)
    ensures r.None? ==> rest == bytes
    ensures r.Some? ==> var header := FrameLength(r.value) - |r.value.data|;
            header <= |rest| && bytes == rest[..header] + r.value.data + rest[header..]
  {
    rest := bytes;
    if |rest| < 2 { return None, rest; }
    var msgType, hasId := rest[0], rest[1];
    var offset := 2;
    var id: Option<u16> := None;
    if hasId != 0 {
      var afterId := CheckedAdd(offset, 2, usizeMax);
      if afterId.None? || |rest| < afterId.value { return None, rest; }
      id := Some(FromBe16(rest[offset..offset + 2]));
      offset := afterId.value;
    }
    var afterLen := CheckedAdd(offset, 4, usizeMax);
    if afterLen.None? || |rest| < afterLen.value { return None, rest; }
    var dataLen := FromBe32(rest[offset..offset + 4]);
    offset := afterLen.value;
    if dataLen > MAX_MESSAGE_SIZE { return None, rest; }
    var end := CheckedAdd(offset, dataLen, usizeMax);
    if end.None? || |rest| < end.value { return None, rest; }
    var data := rest[offset..end.value];
    rest := rest[..offset] + rest[end.value..];
    r := Some(DigMessage(msgType, id, data));
  }

  /** A frame's leading bytes determine everything the parser reads. */
  lemma DecodeOfHeader(m: DigMessage, flag: byte, len: u32, tail: seq<byte>)
    requires flag != 0 <==> m.id.Some?
    ensures Decode(Header(m, flag, len) + tail) ==
            if len > MAX_MESSAGE_SIZE || |tail| < len then None
            else Some(DigMessage(m.msgType, m.id, tail[..len]))
  {
    var h := Header(m, flag, len);
    var b := h + tail;
    var body := |h| - 4;
    assert b[0] == m.msgType && b[1] == flag;
    assert b[body..body + 4] == Be32(len);
    Be32Bijective(len, Be32(len));
    if m.id.Some? {
      assert b[2..4] == Be16(m.id.value);
      Be16Bijective(m.id.value, Be16(m.id.value));
    }
    if |tail| >= len {
      assert b[body + 4..body + 4 + len] == tail[..len];
    }
  }

  /** An accepted buffer is a frame of the decoded message followed by whatever else there was. */
  lemma DecodedIsFramed(bytes: seq<byte>)
    requires Decode(bytes).Some?
    ensures var m := Decode(bytes).value;
            FrameLength(m) <= |bytes| && Frame(m, bytes[1], bytes[..FrameLength(m)])
  {
    var m := Decode(bytes).value;
    var body := if bytes[1] != 0 then 4 else 2;
    var lenBytes := bytes[body..body + 4];
    Be32Bijective(0, lenBytes);
    assert Be32(|m.data|) == lenBytes;
    if m.id.Some? {
      Be16Bijective(0, bytes[2..4]);
    }
    assert bytes[..FrameLength(m)] == Header(m, bytes[1], |m.data|) + m.data;
  }

  /** The parser accepts `bytes` as `m` exactly when `bytes` starts with a frame of `m`. */
  lemma DecodeExact(bytes: seq<byte>, m: DigMessage)
    ensures Decode(bytes) == Some(m) <==> exists flag, n | 0 <= n <= |bytes| :: Frame(m, flag, bytes[..n])
  {
    if Decode(bytes) == Some(m) {
      DecodedIsFramed(bytes);
    }
    forall flag, n | 0 <= n <= |bytes| && Frame(m, flag, bytes[..n])
      ensures Decode(bytes) == Some(m)
    {
      assert bytes == Header(m, flag, |m.data|) + (m.data + bytes[n..]);
      DecodeOfHeader(m, flag, |m.data|, m.data + bytes[n..]);
      assert (m.data + bytes[n..])[..|m.data|] == m.data;
    }
  }

  /** What a receiver makes of an encoded message, whatever its size; over 4 GiB the payload is cut. */
  lemma DecodeOfEncode(m: DigMessage)
    ensures var len := |m.data| % 0x1_0000_0000;
            Decode(Encode(m)) == if len > MAX_MESSAGE_SIZE then None else Some(m.(data := m.data[..len]))
  {
    DecodeOfHeader(m, if m.id.Some? then 1 else 0, |m.data| % 0x1_0000_0000, m.data);
  }

  /** The round trip holds exactly up to 16 MiB of payload. */
  lemma RoundTripExactly(m: DigMessage)
    ensures Decode(Encode(m)) == Some(m) <==> |m.data| <= 16_777_216
  {
    DecodeOfEncode(m);
    if |m.data| <= MAX_MESSAGE_SIZE {
      assert m.data[..|m.data|] == m.data;
    }
  }

  /** One byte over the ceiling and an encoded message no longer decodes at all. */
  lemma RoundTripFailsOverTheCeiling()
    ensures exists m: DigMessage :: Decode(Encode(m)).None?
  {
    var payload: seq<byte> := seq(MAX_MESSAGE_SIZE + 1, _ => 0);
    DecodeOfEncode(DigMessage(200, None, payload));
  }

  /** Re-encoding an accepted buffer gives its framed prefix back, the presence flag normalised to 0 or 1. */
  lemma ReencodeNormalises(bytes: seq<byte>)
    requires Decode(bytes).Some?
    ensures var m := Decode(bytes).value;
            FrameLength(m) <= |bytes| &&
            Encode(m) == bytes[..FrameLength(m)][1 := if bytes[1] == 0 then 0 else 1]
  {
    DecodedIsFramed(bytes);
  }

  /** A receiver never changes its mind about an accepted buffer because more bytes follow it. */
  lemma TrailingBytesIgnored(bytes: seq<byte>, more: seq<byte>)
    requires Decode(bytes).Some?
    ensures Decode(bytes + more) == Decode(bytes)
  {
    var m := Decode(bytes).value;
    DecodedIsFramed(bytes);
    var n := FrameLength(m);
    assert (bytes + more)[..n] == bytes[..n];
    DecodeExact(bytes + more, m);
  }

  // ---------------------------------------------------------------------------------------------
  // The layout, byte by byte
  // ---------------------------------------------------------------------------------------------

  /** What is where in an encoded message: opcode, presence flag, id and length with the heavier byte first, payload. */
  lemma EncodedLayout(m: DigMessage)
    ensures var e, body := Encode(m), if m.id.Some? then 4 else 2;
            && |e| == body + 4 + |m.data|
            && e[0] == m.msgType && e[1] == (if m.id.Some? then 1 else 0)
            && (m.id.Some? ==> (e[2] as int) * 256 + e[3] == m.id.value)
            && (e[body] as int) * 16_777_216 + (e[body + 1] as int) * 65_536 + (e[body + 2] as int) * 256 + e[body + 3] == |m.data| % 4_294_967_296
            && e[body + 4..] == m.data
  {
    var e, body := Encode(m), if m.id.Some? then 4 else 2;
    var len: u32 := |m.data| % 0x1_0000_0000;
    Be32Weighs(len);
    assert e[body..body + 4] == Be32(len);
    assert e[body] == Be32(len)[0] && e[body + 1] == Be32(len)[1] && e[body + 2] == Be32(len)[2] && e[body + 3] == Be32(len)[3];
    if m.id.Some? {
      assert e[2..4] == Be16(m.id.value);
      assert e[2] == e[2..4][0] && e[3] == e[2..4][1];
    }
  }

  /** The same layout of a buffer that may go on after the payload; any non-zero flag announces an id. */
  predicate LaidOut(bytes: seq<byte>, m: DigMessage) {
    var body := if m.id.Some? then 4 else 2;
    && |bytes| >= body + 4 + |m.data|
    && bytes[0] == m.msgType && (bytes[1] != 0 <==> m.id.Some?)
    && (m.id.Some? ==> (bytes[2] as int) * 256 + bytes[3] == m.id.value)
    && (bytes[body] as int) * 16_777_216 + (bytes[body + 1] as int) * 65_536 + (bytes[body + 2] as int) * 256 + bytes[body + 3] == |m.data|
    && bytes[body + 4..body + 4 + |m.data|] == m.data
  }

  /** A buffer is accepted as `m` exactly when it is laid out so and the payload is at most 16 MiB. */
  lemma AcceptedExactly(bytes: seq<byte>, m: DigMessage)
    ensures Decode(bytes) == Some(m) <==> LaidOut(bytes, m) && |m.data| <= 16_777_216
  {
    if |bytes| >= 2 {
      var body := if bytes[1] != 0 then 4 else 2;
      if |bytes| >= body + 4 {
        FromBe32Weighs(bytes[body..body + 4]);
      }
    }
  }
}
