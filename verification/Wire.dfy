/** Machine integers and their big-endian encodings, shared by the whole model. */
module Wire {
  datatype Option<+T> = None | Some(value: T)

  type byte = x: int | 0 <= x < 0x100
  type u16 = x: int | 0 <= x < 0x1_0000
  type u32 = x: int | 0 <= x < 0x1_0000_0000

  const U32_MAX: nat := 0xFFFF_FFFF

  function Be16(n: u16): (s: seq<byte>)
    ensures |s| == 2
  {
    [n / 0x100, n % 0x100]
  }

  function FromBe16(s: seq<byte>): u16
    requires |s| == 2
  {
    var hi: int, lo: int := s[0], s[1];
    hi * 0x100 + lo
  }

  /** The high half first, then the low half. */
  function Be32(n: u32): (s: seq<byte>)
    ensures |s| == 4
  {
    Be16(n / 0x1_0000) + Be16(n % 0x1_0000)
  }

  function FromBe32(s: seq<byte>): u32
    requires |s| == 4
  {
    var hi: int, lo: int := FromBe16(s[..2]), FromBe16(s[2..]);
    hi * 0x1_0000 + lo
  }

  /** Both encodings are bijections: each byte string of the right length is the encoding of what it decodes to. */
  lemma Be16Bijective(n: u16, s: seq<byte>)
    requires |s| == 2
    ensures FromBe16(Be16(n)) == n
    ensures Be16(FromBe16(s)) == s
  {
    assert s == [s[0], s[1]];
  }

  lemma Be32Bijective(n: u32, s: seq<byte>)
    requires |s| == 4
    ensures FromBe32(Be32(n)) == n
    ensures Be32(FromBe32(s)) == s
  {
    Be16Bijective(n / 0x1_0000, s[..2]);
    Be16Bijective(n % 0x1_0000, s[2..]);
    assert Be32(n)[..2] == Be16(n / 0x1_0000) && Be32(n)[2..] == Be16(n % 0x1_0000);
    assert s == s[..2] + s[2..];
  }

  /** At the first byte where two byte strings differ, the first has the smaller. */
  ghost predicate Precedes(s: seq<byte>, t: seq<byte>) {
    |s| == |t| && exists i | 0 <= i < |s| :: s[..i] == t[..i] && s[i] < t[i]
  }

  /** Big-endian: the encodings are in the order of the numbers. */
  lemma Be16Ordered(n: u16, k: u16)
    requires n < k
    ensures Precedes(Be16(n), Be16(k))
  {
    var i := if Be16(n)[0] < Be16(k)[0] then 0 else 1;
    assert Be16(n)[..i] == Be16(k)[..i] && Be16(n)[i] < Be16(k)[i];
  }

  lemma Be32Ordered(n: u32, k: u32)
    requires n < k
    ensures Precedes(Be32(n), Be32(k))
  {
    var hn: u16, hk: u16 := n / 0x1_0000, k / 0x1_0000;
    if hn < hk {
      Be16Ordered(hn, hk);
      var i :| 0 <= i < 2 && Be16(hn)[..i] == Be16(hk)[..i] && Be16(hn)[i] < Be16(hk)[i];
      assert Be32(n)[..i] == Be16(hn)[..i] && Be32(k)[..i] == Be16(hk)[..i];
    } else {
      var ln: u16, lk: u16 := n % 0x1_0000, k % 0x1_0000;
      Be16Ordered(ln, lk);
      var i :| 0 <= i < 2 && Be16(ln)[..i] == Be16(lk)[..i] && Be16(ln)[i] < Be16(lk)[i];
      assert Be32(n)[..i + 2] == Be16(hn) + Be16(ln)[..i] && Be32(k)[..i + 2] == Be16(hk) + Be16(lk)[..i];
      assert Be32(n)[i + 2] < Be32(k)[i + 2];
    }
  }

  /** The number four bytes stand for, the first weighing most. */
  function Weighed(a: byte, b: byte, c: byte, d: byte): nat {
    a * 0x100_0000 + b * 0x1_0000 + c * 0x100 + d
  }

  lemma Be32Weighs(n: u32)
    ensures var s := Be32(n); Weighed(s[0], s[1], s[2], s[3]) == n
  {
    assert n == (n / 0x1_0000) * 0x1_0000 + n % 0x1_0000;
  }

  lemma FromBe32Weighs(s: seq<byte>)
    requires |s| == 4
    ensures FromBe32(s) == Weighed(s[0], s[1], s[2], s[3])
  {
  }
}
