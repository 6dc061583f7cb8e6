/** Bytes, optional values and the big-endian integers MQTT packets are made of. */
module Bytes {

  type Byte = b: int | 0 <= b < 256

  datatype Option<+T> = None | Some(value: T)

  /** The two bytes a 16-bit field is written as; larger values are truncated, as the C stores do. */
  function Be16(n: nat): (s: seq<Byte>)
    ensures |s| == 2
  {
    [n / 256 % 256, n % 256]
  }

  function FromBe16(hi: Byte, lo: Byte): (n: nat)
    ensures n < 65536
  {
    hi * 256 + lo
  }

  function Be32(n: nat): (s: seq<Byte>)
    ensures |s| == 4
  {
    [n / 0x100_0000 % 256, n / 0x1_0000 % 256, n / 256 % 256, n % 256]
  }

  function FromBe32(a: Byte, b: Byte, c: Byte, d: Byte): (n: nat)
    ensures n < 0x1_0000_0000
  {
    a * 0x100_0000 + b * 0x1_0000 + c * 256 + d
  }

  lemma Be16RoundTrip(n: nat)
    requires n < 65536
    ensures FromBe16(Be16(n)[0], Be16(n)[1]) == n
  {
  }

  lemma Be16Inverse(hi: Byte, lo: Byte)
    ensures Be16(FromBe16(hi, lo)) == [hi, lo]
  {
  }

  lemma Be32RoundTrip(n: nat)
    requires n < 0x1_0000_0000
    ensures FromBe32(Be32(n)[0], Be32(n)[1], Be32(n)[2], Be32(n)[3]) == n
  {
    assert n / 0x100_0000 % 256 == n / 0x100_0000;
    assert n / 0x1_0000 == (n / 0x100_0000) * 256 + n / 0x1_0000 % 256;
    assert n / 256 == (n / 0x1_0000) * 256 + n / 256 % 256;
  }

  lemma SliceOfTail(p: seq<Byte>, start: nat, k: nat, n: nat)
    requires start + k + n <= |p|
    ensures p[start + k..start + k + n] == p[start..][k..k + n] && p[start + k + n..] == p[start..][k + n..]
  {
  }

  lemma SliceOfFront(p: seq<Byte>, end: nat, from: nat, to: nat)
    requires from <= to <= end <= |p|
    ensures p[..end][from..to] == p[from..to]
  {
  }
}
