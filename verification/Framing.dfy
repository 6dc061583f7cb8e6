/** How packets lie in the incoming stream, for the receiver. */
module Framing {
  import opened Bytes
  import opened MqttMsg
  import opened MqttParse
  import Varint

  /** `q` starts with the fixed header of the packet `p`. */
  predicate SharesHeader(p: seq<Byte>, q: seq<Byte>) {
    WellFormed(p) && HeaderLength(p) <= |q| && q[..HeaderLength(p)] == p[..HeaderLength(p)]
  }

  lemma {:induction false} TruncatedField(s: seq<Byte>)
    requires Varint.Terminated(s)
    ensures var f := s[..Varint.Count(s)];
            Varint.Terminated(f) && Varint.Count(f) == |f| && Varint.Value(f) == Varint.Value(s)
  {
    if s[0] >= 128 {
      TruncatedField(s[1..]);
      assert s[..Varint.Count(s)][1..] == s[1..][..Varint.Count(s[1..])];
    }
  }

  /** Whoever has the fixed header knows the length of the whole packet. */
  lemma HeaderDecides(p: seq<Byte>, q: seq<Byte>)
    requires SharesHeader(p, q)
    ensures q != [] && HeaderLength(q) == HeaderLength(p) && TotalLength(q) == |p| && q[0] == p[0]
    ensures Varint.Terminated(q[1..])
  {
    var f := p[1..][..Varint.Count(p[1..])];
    TruncatedField(p[1..]);
    assert f == p[..HeaderLength(p)][1..] == q[..HeaderLength(p)][1..];
    assert q[1..] == f + q[HeaderLength(p)..];
    Varint.ReadStable(f, q[HeaderLength(p)..]);
  }

  /** Length bytes before the last have the top bit set; the last has it clear. */
  lemma HeaderBytes(p: seq<Byte>)
    requires WellFormed(p)
    ensures 2 <= HeaderLength(p) <= |p| && HeaderLength(p) <= 5 && p[HeaderLength(p) - 1] < 128
    ensures forall i :: 1 <= i < HeaderLength(p) - 1 ==> p[i] >= 128
  {
    Varint.FieldShape(p[1..]);
    forall i | 1 <= i < HeaderLength(p) - 1
      ensures p[i] >= 128
    {
      assert p[i] == p[1..][i - 1];
    }
  }

  // ---------- PUBLISH packets ----------

  /** Where the payload of a PUBLISH begins. */
  function PayloadStart(p: seq<Byte>): nat
    requires p != [] && HeaderLength(p) + 2 <= |p|
  {
    var h := HeaderLength(p);
    h + 2 + FromBe16(p[h], p[h + 1]) + if GetQos(p[0]) > 0 then 2 else 0
  }

  /** A PUBLISH with a non-empty topic, and an id if its QoS asks for one. */
  predicate ValidPublish(p: seq<Byte>) {
    && WellFormed(p) && GetType(p[0]) == PUBLISH
    && HeaderLength(p) + 2 <= |p|
    && FromBe16(p[HeaderLength(p)], p[HeaderLength(p) + 1]) > 0
    && PayloadStart(p) <= |p|
  }

  // ---------- resuming in the middle of a packet ----------

  /** With `k` bytes of `p` buffered the receiver goes on correctly. It takes the last buffered byte for an
      unfinished length field when fewer than six bytes are there and its top bit is set. */
  predicate ResumeSafe(p: seq<Byte>, k: nat)
    requires WellFormed(p) && k < |p|
  {
    k <= HeaderLength(p) || |p| >= 6 || exists m :: k - 1 <= m < |p| && p[m] < 128
  }

  /** No point of interruption harms this packet. */
  predicate Immune(p: seq<Byte>) {
    |p| >= 6 || p == [] || p[|p| - 1] < 128 || |p| < 3 || p[|p| - 2] < 128
  }

  /** A packet is read correctly however it is interrupted exactly if it has six bytes or more, or one of its
      last two bytes has the top bit clear. */
  lemma ImmuneExactly(p: seq<Byte>)
    requires WellFormed(p)
    ensures Immune(p) <==> forall k :: 0 <= k < |p| ==> ResumeSafe(p, k)
  {
    HeaderBytes(p);
    if Immune(p) {
      forall k | 0 <= k < |p|
        ensures ResumeSafe(p, k)
      {
        if k > HeaderLength(p) && |p| < 6 {
          var m := if p[|p| - 1] < 128 then |p| - 1 else |p| - 2;
          assert p[m] < 128;
        }
      }
    } else {
      assert !ResumeSafe(p, |p| - 1);
    }
  }

  /** A PUBACK whose id has the top bit set in both bytes, such as 0x8080, is such a packet: interrupted before
      its last byte it is misread. */
  lemma AckCanBeMisread(id: nat)
    requires id < 65536
    ensures var p := Packet(AckFirstByte(Puback), Be16(id));
            WellFormed(p) && |p| == 4 && (!ResumeSafe(p, 3) <==> Be16(id)[0] >= 128 && Be16(id)[1] >= 128)
  {
    AckFlags(Puback);
    ShortPacket(AckFirstByte(Puback), id);
  }

  lemma ShortPacket(first: Byte, id: nat)
    requires ValidFirstByte(first) && id < 65536
    ensures var p := Packet(first, Be16(id));
            WellFormed(p) && |p| == 4 && (!ResumeSafe(p, 3) <==> Be16(id)[0] >= 128 && Be16(id)[1] >= 128)
  {
    AckBytes(first, id);
    PacketWellFormed(first, Be16(id));
    ShortResume(Packet(first, Be16(id)));
  }

  lemma ShortResume(p: seq<Byte>)
    requires WellFormed(p) && |p| == 4 && p[1] == 2
    ensures ResumeSafe(p, 3) <==> p[2] < 128 || p[3] < 128
  {
  }
}
