/** The packets byte by byte, in plain numbers (MQTT 3.1.1, sections 2 and 3; MQTT 5.0, sections 2.2.2 and 3.3.2.3). */
module WireFormat {
  import opened Bytes
  import opened MqttMsg
  import Parse = MqttParse
  import Framing
  import opened Arithmetic
  import Varint
  import Five = Mqtt5Properties
  import Five5 = Mqtt5Msg
  import Receiver

  // ---------- numbers ----------

  /** Sixteen and thirty-two bits go out with the high byte first. Of more than sixteen the low ones go out. */
  lemma BigEndian(n: nat)
    ensures Be16(n) == [n / 0x100 % 0x100, n % 0x100]
    ensures n < 0x1_0000 ==> Be16(n) == [n / 0x100, n % 0x100]
    ensures n < 0x1_0000_0000 ==> Be32(n) == [n / 0x100_0000, n / 0x1_0000 % 0x100, n / 0x100 % 0x100, n % 0x100]
  {
  }

  function Word(high: nat, low: nat): nat { 0x100 * high + low }

  lemma FromBigEndian(a: Byte, b: Byte, c: Byte, d: Byte)
    ensures FromBe16(a, b) == Word(a, b) && FromBe32(a, b, c, d) == 0x1_0000 * Word(a, b) + Word(c, d)
  {
  }

  /** A length goes out in groups of seven bits, the lowest first, all but the last with 128 added. */
  lemma LengthBytes(n: nat)
    requires n <= 268_435_455
    ensures Varint.Encode(n) ==
            if n < 128 then [n]
            else if n < 16_384 then [n % 128 + 128, n / 128]
            else if n < 2_097_152 then [n % 128 + 128, n / 128 % 128 + 128, n / 16_384]
            else [n % 128 + 128, n / 128 % 128 + 128, n / 16_384 % 128 + 128, n / 2_097_152]
  {
    DivTwice(n, 128, 128);
    DivTwice(n, 16_384, 128);
    LengthGroups(n, n / 128, n / 16_384, n / 2_097_152);
  }

  lemma LengthGroups(n: nat, a: nat, b: nat, c: nat)
    requires a == n / 128 && b == a / 128 && c == b / 128 && c < 128
    ensures Varint.Encode(n) ==
            if n < 128 then [n]
            else if a < 128 then [n % 128 + 128, a]
            else if b < 128 then [n % 128 + 128, a % 128 + 128, b]
            else [n % 128 + 128, a % 128 + 128, b % 128 + 128, c]
  {
    LengthStep(n);
    LengthStep(a);
    LengthStep(b);
    LengthStep(c);
  }

  lemma LengthStep(n: nat)
    ensures Varint.Encode(n) == if n < 128 then [n] else [n % 128 + 128] + Varint.Encode(n / 128)
  {
  }

  /** The id counter goes up by one and skips zero. */
  lemma NextIdExactly(last: Counter)
    ensures NextId(last) == if last == 65_535 then 1 else last + 1
  {
  }

  // ---------- first bytes ----------

  /** The first byte of each kind of packet the client sends. */
  lemma FirstBytes(qos: nat, retain: nat)
    requires qos < 4 && retain < 2
    ensures FirstByte(CONNECT, 0, 0, 0) == 0x10 && FirstByte(PINGREQ, 0, 0, 0) == 0xC0 && FirstByte(DISCONNECT, 0, 0, 0) == 0xE0
    ensures FirstByte(PUBLISH, 0, qos, retain) == 0x30 + 2 * qos + retain
    ensures FirstByte(SUBSCRIBE, 0, 1, 0) == 0x82 && FirstByte(UNSUBSCRIBE, 0, 1, 0) == 0xA2
    ensures AckFirstByte(Puback) == 0x40 && AckFirstByte(Pubrec) == 0x50 && AckFirstByte(Pubrel) == 0x62 && AckFirstByte(Pubcomp) == 0x70
  {
    FirstByteSum(PUBLISH, 0, qos, retain);
    FirstByteSum(CONNECT, 0, 0, 0);
    FirstByteSum(PINGREQ, 0, 0, 0);
    FirstByteSum(DISCONNECT, 0, 0, 0);
    FirstByteSum(SUBSCRIBE, 0, 1, 0);
    FirstByteSum(UNSUBSCRIBE, 0, 1, 0);
    FirstByteSum(PUBACK, 0, 0, 0);
    FirstByteSum(PUBREC, 0, 0, 0);
    FirstByteSum(PUBREL, 0, 1, 0);
    FirstByteSum(PUBCOMP, 0, 0, 0);
  }

  /** The types of the packets it looks for. */
  lemma PacketTypes(b: Byte)
    ensures GetType(b) == PUBLISH <==> 0x30 <= b < 0x40
    ensures GetType(b) == PUBACK <==> 0x40 <= b < 0x50
    ensures GetType(b) == PUBREC <==> 0x50 <= b < 0x60
    ensures GetType(b) == PUBREL <==> 0x60 <= b < 0x70
    ensures GetType(b) == PUBCOMP <==> 0x70 <= b < 0x80
    ensures GetType(b) == SUBACK <==> 0x90 <= b < 0xA0
    ensures GetType(b) == UNSUBACK <==> 0xB0 <= b < 0xC0
    ensures GetType(b) == PINGRESP <==> 0xD0 <= b < 0xE0
  {
  }

  /** The flags of a PUBLISH. */
  lemma PublishFlags(b: Byte, dup: nat, qos: nat, retain: nat)
    requires dup < 2 && qos < 4 && retain < 2 && b == 0x30 + 8 * dup + 2 * qos + retain
    ensures GetDup(b) == dup && GetQos(b) == qos && GetRetain(b) == retain && SetDup(b) == 0x38 + 2 * qos + retain
  {
    HighFields(b, 3, dup, 2 * qos + retain);
    LowFields(b, 6 + dup, qos, retain);
  }

  /** Which first bytes the client accepts. */
  lemma ValidFirstBytes(b: Byte)
    ensures ValidFirstByte(b) <==>
            || b in {0x10, 0x20, 0x40, 0x50, 0x62, 0x70, 0x82, 0x90, 0xA2, 0xB0, 0xC0, 0xD0, 0xE0}
            || b in {0x30, 0x31, 0x32, 0x33, 0x34, 0x35, 0x3A, 0x3B, 0x3C, 0x3D}
  {
  }

  // ---------- packets ----------

  /** A packet: its first byte, the length of its body, and the body. */
  lemma PacketBytes(first: Byte, body: seq<Byte>)
    ensures Packet(first, body) == [first] + Varint.Encode(|body|) + body
  {
  }

  /** A PUBLISH: topic with its length, an id for QoS > 0, payload. */
  lemma PublishBytes(topic: seq<Byte>, payload: seq<Byte>, qos: nat, retain: int, id: nat)
    requires qos < 4 && retain in {0, 1} && |topic| < 65_536 && id < 65_536
    ensures var name := [|topic| / 256, |topic| % 256] + topic;
            var body := if qos == 0 then name + payload else name + [id / 256, id % 256] + payload;
            PublishPacket(topic, payload, qos, retain, id) == [0x30 + 2 * qos + retain] + Varint.Encode(|body|) + body
  {
    FirstBytes(qos, retain);
    BigEndian(|topic|);
    BigEndian(id);
    var name := [|topic| / 256, |topic| % 256] + topic;
    var body := if qos == 0 then name + payload else name + [id / 256, id % 256] + payload;
    assert PublishHeader(topic, qos, id) + payload == body;
  }

  /** The body of an UNSUBSCRIBE: id, then the filter with its length. */
  lemma UnsubscribeBytes(topic: seq<Byte>, id: Counter)
    requires |topic| < 65_536
    ensures UnsubscribeBody(topic, id) == [id / 256, id % 256, |topic| / 256, |topic| % 256] + topic
  {
  }

  /** The body of a SUBSCRIBE: id, then for each filter its length, its text and the QoS asked for. */
  lemma SubscribeBytes(topics: seq<Filter>, t: Filter, id: Counter)
    requires |t.name| < 65_536 && t.qos < 256
    ensures SubscribeBody(topics + [t], id) ==
            SubscribeBody(topics, id) + ([|t.name| / 256, |t.name| % 256] + t.name) + [t.qos]
  {
    var more := topics + [t];
    assert more[..|topics|] == topics && more[..|topics| + 1] == more;
    SubscribeGrows(more, |topics|, id);
    BigEndian(|t.name|);
  }

  lemma SubscribeStart(topics: seq<Filter>, id: Counter)
    requires topics == []
    ensures SubscribeBody(topics, id) == [id / 256, id % 256]
  {
    BigEndian(id);
  }

  // ---------- what fits ----------

  /** A publish can be built if it has a topic, the buffer holds five bytes and the variable header, four bytes hold the
      length, and a null payload has no length. */
  lemma PublishFitsExactly(capacity: nat, topic: seq<Byte>, data: Option<seq<Byte>>, n: int, qos: nat)
    requires data.Some? ==> 0 <= n <= |data.value|
    ensures var header := |topic| + if qos == 0 then 2 else 4;
            PublishFits(capacity, topic, data, n, qos) <==>
            && topic != [] && header + 5 <= capacity && (data.None? ==> n <= 0)
            && header + |Payload(data, n)| < 0x1000_0000
    ensures Payload(data, n) == if data.Some? then data.value[..n] else []
  {
  }

  /** It draws an id for QoS > 0 as soon as the topic is in the buffer, whether or not the id then fits. */
  lemma IdDrawnExactly(capacity: nat, topic: seq<Byte>, data: Option<seq<Byte>>, n: int, qos: nat)
    ensures DrawsId(capacity, topic, data, n, qos) <==>
            qos >= 1 && topic != [] && |topic| + 7 <= capacity && (data.None? ==> n <= 0)
  {
  }

  // ---------- the fragment fields ----------

  /** Printing a body moves the offset by the bytes of its length field less four, modulo 2^32; with a total pending, the
      length announced is the total less five. What four bytes cannot hold is not printed. */
  lemma PrintingExactly(f: Fragment, first: Byte, body: seq<Byte>)
    ensures var length := if f.total < 5 then |body| else f.total - 5;
            if length <= 268_435_455 then
              && Printed(f, first, body) == [first] + Varint.Encode(length) + body
              && AfterPrinting(f, |body|) == Fragment((f.offset + |Varint.Encode(length)| - 4) % 0x1_0000_0000, f.total)
            else Printed(f, first, body) == [] && AfterPrinting(f, |body|) == f
  {
  }

  /** A payload behind `header` bytes that does not fit the buffer sets both fields; one that fits clears the total. */
  lemma AppendingExactly(f: Fragment, capacity: nat, header: nat, payload: nat)
    ensures AfterAppending(f, capacity, header, payload) ==
            if 5 + header + payload > capacity then Fragment(5 + header, 5 + header + payload) else Fragment(f.offset, 0)
  {
  }

  /** What the send loop takes for the payload bytes of its first write: in a packet that is cut, those in the buffer; in
      any other, all of it less the old offset, as a 32-bit difference. */
  lemma FirstSentExactly(f: Fragment, capacity: nat, header: nat, payload: nat)
    ensures var d := (5 + header + payload - f.offset) % 0x1_0000_0000;
            FirstSent(f, capacity, header, payload) ==
            if 5 + header + payload > capacity then capacity - (5 + header)
            else if d < 0x8000_0000 then d else d - 0x1_0000_0000
    ensures 5 + header + payload > capacity ==> Surplus(f, capacity, header, payload) == 0
    ensures 5 + header + payload <= capacity ==>
              var sent := FirstSent(f, capacity, header, payload);
              Surplus(f, capacity, header, payload) == if sent < payload then payload - sent else 0
  {
  }

  // ---------- what the readers find ----------

  /** Where the parts of a PUBLISH lie behind its fixed header of `h` bytes. */
  lemma PublishParts(p: seq<Byte>, h: nat)
    requires p != [] && h == 1 + Varint.Count(p[1..])
    ensures Parse.TopicOf(p) ==
            if h + 2 >= |p| || h + 2 + Word(p[h], p[h + 1]) > |p| then None
            else Some(Parse.Slice(h + 2, Word(p[h], p[h + 1])))
    ensures h + 2 <= |p| ==>
              Framing.PayloadStart(p) == h + 2 + Word(p[h], p[h + 1]) + if p[0] / 2 % 4 == 0 then 0 else 2
  {
  }

  /** The payload is what is left behind topic and id: as much as the length field says, as far as the buffer goes. */
  lemma PayloadPart(p: seq<Byte>, h: nat, total: nat)
    requires p != [] && h == 1 + Varint.Count(p[1..]) && h + 2 < |p| && total == h + Varint.Value(p[1..])
    ensures var start := h + 2 + Word(p[h], p[h + 1]) + if p[0] / 2 % 4 == 0 then 0 else 2;
            Parse.DataOf(p) == if start >= |p| || total < start then None
                               else Some(Parse.Slice(start, (if total < |p| then total else |p|) - start))
  {
  }

  /** An acknowledgement carries its id in bytes two and three. */
  lemma AckId(p: seq<Byte>)
    requires |p| >= 4 && 0x40 <= p[0] < 0xC0 && p[1] < 128
    ensures Parse.IdOf(p, |p|) == Word(p[2], p[3])
  {
  }

  /** A PUBLISH carries it behind the topic, if its QoS is above zero. */
  lemma PublishIdPart(p: seq<Byte>, h: nat)
    requires p != [] && 0x30 <= p[0] < 0x40 && h == 1 + Varint.Count(p[1..]) && h + 2 < |p|
    ensures var at := h + 2 + Word(p[h], p[h + 1]);
            Parse.IdOf(p, |p|) == if p[0] / 2 % 4 == 0 || at + 2 > |p| then 0 else Word(p[at], p[at + 1])
  {
    assert p[..|p|] == p;
  }

  /** What the events of a PUBLISH say of its topic and its id. */
  lemma EventFields(p: seq<Byte>, h: nat)
    requires Framing.ValidPublish(p) && h == 1 + Varint.Count(p[1..])
    ensures var at := h + 2 + Word(p[h], p[h + 1]);
            && Receiver.TopicBytes(p) == p[h + 2..at]
            && Receiver.PublishId(p) == if p[0] / 2 % 4 == 0 then 0 else Word(p[at], p[at + 1])
  {
  }

  // ---------- properties ----------

  /** A PUBLISH of MQTT 5.0: topic with its length, an id for QoS > 0, the length of the properties, the properties, the
      payload. */
  lemma Publish5Bytes(topic: seq<Byte>, c: Five.Config, payload: seq<Byte>, qos: nat, retain: int, id: nat)
    requires qos < 4 && retain in {0, 1} && |topic| < 65_536 && id < 65_536
    ensures var name, properties := [|topic| / 256, |topic| % 256] + topic, Five.PropertyBytes(c);
            var header := if qos == 0 then name else name + [id / 256, id % 256];
            var body := header + (Varint.Encode(|properties|) + properties) + payload;
            Five5.Publish5Packet(topic, c, payload, qos, retain, id) == [0x30 + 2 * qos + retain] + Varint.Encode(|body|) + body
  {
    FirstBytes(qos, retain);
    BigEndian(|topic|);
    BigEndian(id);
    var name := [|topic| / 256, |topic| % 256] + topic;
    assert PublishHeader(topic, qos, id) == if qos == 0 then name else name + [id / 256, id % 256];
  }

  /** Where its reader finds the three, and when there is nothing behind topic and id. */
  lemma SectionPart(p: seq<Byte>, h: nat)
    requires p != [] && h == 1 + Varint.Count(p[1..]) && h + 2 <= |p|
    ensures Five5.TopicSlice(p) == Parse.Slice(h + 2, Word(p[h], p[h + 1]))
    ensures var start := h + 2 + Word(p[h], p[h + 1]) + if p[0] / 2 % 4 == 0 then 0 else 2;
            && Five5.SectionStart(p) == (if start >= |p| then None else Some(start))
            && (start < |p| && Five5.SectionOf(p).Some? ==>
                  Five5.SectionOf(p).value == Parse.Slice(start + Varint.Count(p[start..]), Varint.Value(p[start..]) % 65_536))
    ensures var total := h + Varint.Value(p[1..]); Five5.PayloadEnd(p) == if total < |p| then total else |p|
  {
  }

  /** The property section: each property that is set, in this order, its identifier in front of its value. */
  lemma PropertiesBytes(c: Five.Config)
    ensures Five.PropertyBytes(c) ==
            (if c.payloadFormat then [0x01, 1] else []) + ((if c.expiry == 0 then [] else [0x02] + Be32(c.expiry))
            + ((if c.alias == 0 then [] else [0x23] + Be16(c.alias)) + (TextProperty(0x08, c.responseTopic)
            + (TextProperty(0x09, if c.correlation == [] then None else Some(c.correlation)) + (Five.UserBytes(c.user)
            + TextProperty(0x03, c.contentType))))))
  {
    assert Five.FormatBytes(c) == if c.payloadFormat then [0x01, 1] else [];
    assert Five.ExpiryBytes(c) == if c.expiry == 0 then [] else [0x02] + Be32(c.expiry);
    assert Five.AliasBytes(c) == if c.alias == 0 then [] else [0x23] + Be16(c.alias);
    assert Five.ResponseBytes(c) == TextProperty(0x08, c.responseTopic);
    assert Five.CorrelationBytes(c) == TextProperty(0x09, if c.correlation == [] then None else Some(c.correlation));
    assert Five.ContentBytes(c) == TextProperty(0x03, c.contentType);
  }

  function TextProperty(id: Byte, text: Option<seq<Byte>>): seq<Byte> {
    if text.Some? then [id] + (Be16(|text.value|) + text.value) else []
  }

  /** User properties are pairs of texts. */
  lemma UserPropertyBytes(u: Five.UserProperty, rest: seq<Five.UserProperty>)
    ensures Five.UserBytes([]) == []
    ensures Five.UserBytes([u] + rest) ==
            [0x26] + Be16(|u.key|) + u.key + Be16(|u.value|) + u.value + Five.UserBytes(rest)
  {
  }

  /** What the reader makes of the properties that are never written: it keeps the last subscription identifier, skips
      reason strings, and refuses all others. */
  lemma OtherProperties(s: seq<Byte>, acc: Five.Decoded)
    requires s != [] && s[0] !in {0x01, 0x02, 0x03, 0x08, 0x09, 0x23, 0x26}
    ensures var rest := s[1..];
            Five.Decode(s, acc) ==
            if s[0] == 0x0B then
              if !Varint.Terminated(rest) then Five.Overrun
              else Five.Decode(rest[Varint.Count(rest)..], acc.(subscribeId := Varint.Value(rest)))
            else if s[0] == 0x1F then
              if |rest| < 2 || |rest| < 2 + Word(rest[0], rest[1]) then Five.Overrun
              else Five.Decode(rest[2 + Word(rest[0], rest[1])..], acc)
            else Five.Unknown
  {
  }

  /** A property that is cut off by the end of its section is not taken for a whole one. */
  lemma CutOffProperty(s: seq<Byte>, acc: Five.Decoded)
    requires s != []
    requires var rest := s[1..];
             || (s[0] == 0x01 && |rest| < 1) || (s[0] == 0x02 && |rest| < 4) || (s[0] == 0x23 && |rest| < 2)
             || (s[0] in {0x03, 0x08, 0x09, 0x26} && (|rest| < 2 || |rest| < 2 + Word(rest[0], rest[1])))
    ensures Five.Decode(s, acc) == Five.Overrun
  {
  }
}
