/** The variable-length integer of MQTT: seven bits a byte, least significant group first,
    top bit set on every byte but the last (section 2.2.3 of MQTT 3.1.1, section 1.5.5 of MQTT 5.0). */
module Varint {
  import opened Bytes

  const MAX_VALUE := 268435455

  function Encode(n: nat): (s: seq<Byte>)
    ensures |s| >= 1
  {
    if n < 128 then [n] else [n % 128 + 128] + Encode(n / 128)
  }

  /** How many bytes of `s` a reader consumes; a field that never ends takes all of `s`. */
  function Count(s: seq<Byte>): (c: nat)
    ensures c <= |s|
  {
    if s == [] then 0 else if s[0] < 128 then 1 else 1 + Count(s[1..])
  }

  /** The number those bytes stand for. */
  function Value(s: seq<Byte>): nat
  {
    if s == [] then 0 else if s[0] < 128 then s[0] else s[0] - 128 + 128 * Value(s[1..])
  }

  /** `s` holds a whole field: some byte has its top bit clear. */
  predicate Terminated(s: seq<Byte>)
  {
    s != [] && (s[0] < 128 || Terminated(s[1..]))
  }

  lemma {:induction false} RoundTrip(n: nat, rest: seq<Byte>)
    ensures Terminated(Encode(n) + rest)
    ensures Count(Encode(n) + rest) == |Encode(n)|
    ensures Value(Encode(n) + rest) == n
  {
    if n >= 128 {
      RoundTrip(n / 128, rest);
      assert (Encode(n) + rest)[1..] == Encode(n / 128) + rest;
    }
  }

  /** Four bytes are enough exactly for the values MQTT allows. */
  lemma EncodedLength(n: nat)
    ensures |Encode(n)| <= 1 <==> n < 128
    ensures |Encode(n)| <= 2 <==> n < 16384
    ensures |Encode(n)| <= 3 <==> n < 2097152
    ensures |Encode(n)| <= 4 <==> n <= MAX_VALUE
  {
  }

  /** More input after a whole field does not change how it reads. */
  lemma {:induction false} ReadStable(s: seq<Byte>, rest: seq<Byte>)
    requires Terminated(s)
    ensures Terminated(s + rest) && Count(s + rest) == Count(s) && Value(s + rest) == Value(s)
  {
    if s[0] >= 128 {
      assert (s + rest)[1..] == s[1..] + rest;
      ReadStable(s[1..], rest);
    }
  }

  /** The bytes before the last one of a field all have the top bit set, the last one has it clear. */
  lemma {:induction false} FieldShape(s: seq<Byte>)
    requires Terminated(s)
    ensures 1 <= Count(s) <= |s| && s[Count(s) - 1] < 128
    ensures forall i :: 0 <= i < Count(s) - 1 ==> s[i] >= 128
  {
    if s[0] >= 128 {
      FieldShape(s[1..]);
      forall i | 0 <= i < Count(s) - 1
        ensures s[i] >= 128
      {
        if i > 0 { assert s[i] == s[1..][i - 1]; }
      }
    }
  }

  /** A run of top-bit bytes followed by a clear one is a whole field. */
  lemma {:induction false} FieldFromShape(s: seq<Byte>, c: nat)
    requires 1 <= c <= |s| && s[c - 1] < 128
    requires forall i :: 0 <= i < c - 1 ==> s[i] >= 128
    ensures Terminated(s) && Count(s) == c
  {
    if c > 1 {
      assert s[0] >= 128;
      assert s[1..][c - 2] == s[c - 1];
      FieldFromShape(s[1..], c - 1);
    }
  }

  /** generate_variable_len, and the same loop inside fini_message. */
  method Generate(len: nat) returns (encoded: seq<Byte>)
    ensures encoded == Encode(len)
  {
    encoded := [];
    var n, more := len, true;
    while more
      invariant more ==> encoded + Encode(n) == Encode(len)
      invariant !more ==> encoded == Encode(len)
      decreases if more then n + 1 else 0
    {
      var i := n % 128;
      var n' := n / 128;
      if n' > 0 {
        i := i + 128;
        assert Encode(n) == [i] + Encode(n');
      }
      encoded := encoded + [i];
      n, more := n', n' > 0;
    }
  }

  function Pow128(k: nat): (p: nat)
    ensures p >= 1
  {
    if k == 0 then 1 else 128 * Pow128(k - 1)
  }

  lemma PowStep(k: nat, b: Byte, tail: nat)
    requires b >= 128
    ensures Pow128(k) * (b - 128 + 128 * tail) == b % 128 * Pow128(k) + Pow128(k + 1) * tail
  {
    var p := Pow128(k);
    assert b % 128 == b - 128;
    assert p * (b - 128 + 128 * tail) == p * (b - 128) + p * (128 * tail);
    assert p * (128 * tail) == 128 * p * tail;
  }

  /** get_variable_len: the loop adds each group at its place instead of recursing. */
  method Read(buffer: seq<Byte>, offset: nat, bufferLength: nat) returns (len: nat, lenBytes: nat)
    requires offset <= bufferLength <= |buffer|
    ensures len == Value(buffer[offset..bufferLength])
    ensures lenBytes == Count(buffer[offset..bufferLength])
  {
    ghost var field := buffer[offset..bufferLength];
    len := 0;
    var i := offset;
    ghost var tail := field;
    while i < bufferLength
      invariant offset <= i <= bufferLength
      invariant tail == buffer[i..bufferLength]
      invariant len + Pow128(i - offset) * Value(tail) == Value(field)
      invariant i - offset + Count(tail) == Count(field)
    {
      var group := buffer[i] % 128 * Pow128(i - offset);
      if buffer[i] < 128 {
        return len + group, i + 1 - offset;
      }
      PowStep(i - offset, buffer[i], Value(tail[1..]));
      len := len + group;
      tail := tail[1..];
      i := i + 1;
    }
    lenBytes := i - offset;
  }
}
