/** The MQTT 3.1.1 packet readers of lib/mqtt_msg.c, and that they undo the printer.
    A reader's buffer argument is the stretch of memory it is handed with its length. */
module MqttParse {
  import opened Bytes
  import opened MqttMsg
  import Varint

  /** A pointer into the buffer and a length. */
  datatype Slice = Slice(start: nat, len: nat)

  function At(p: seq<Byte>, s: Slice): seq<Byte>
    requires s.start + s.len <= |p|
  {
    p[s.start..s.start + s.len]
  }

  // ---------- what each reader finds ----------

  function TotalLength(p: seq<Byte>): nat
    requires p != []
  {
    HeaderLength(p) + Varint.Value(p[1..])
  }

  function TopicOf(p: seq<Byte>): (r: Option<Slice>)
    requires p != []
    ensures r.Some? ==> r.value.start + r.value.len <= |p|
  {
    var i := HeaderLength(p);
    if i + 2 >= |p| then None
    else
      var topicLen := FromBe16(p[i], p[i + 1]);
      if i + 2 + topicLen > |p| then None else Some(Slice(i + 2, topicLen))
  }

  /** The payload, or None for the null pointer the C returns (its length is then zero). */
  function DataOf(p: seq<Byte>): (r: Option<Slice>)
    requires p != []
    ensures r.Some? ==> r.value.start + r.value.len <= |p|
  {
    var i := HeaderLength(p);
    if i + 2 >= |p| then None
    else
      var afterTopic := i + 2 + FromBe16(p[i], p[i + 1]);
      if afterTopic >= |p| then None
      else if GetQos(p[0]) > 0 && afterTopic + 2 >= |p| then None
      else
        var start := if GetQos(p[0]) > 0 then afterTopic + 2 else afterTopic;
        if TotalLength(p) < start then None
        else Some(Slice(start, (if TotalLength(p) <= |p| then TotalLength(p) else |p|) - start))
  }

  /** The packet id; zero when there is none. `p` may be the start of a longer packet of `length` bytes. */
  function IdOf(p: seq<Byte>, length: nat): nat
    requires IdReadable(p, length)
  {
    if length < 1 then 0
    else if GetType(p[0]) == PUBLISH then
      var i := IdIndex(p, length);
      if i.None? then 0 else FromBe16(p[i.value], p[i.value + 1])
    else if PUBACK <= GetType(p[0]) <= UNSUBACK then
      if length >= 4 && p[1] < 128 then FromBe16(p[2], p[3]) else 0
    else 0
  }

  /** Where a PUBLISH keeps its id. */
  function IdIndex(p: seq<Byte>, length: nat): (r: Option<nat>)
    requires p != [] && 1 <= length
    requires length <= |p| || HeaderLength(p) + 2 <= |p|
    ensures r.Some? ==> r.value + 2 <= length
  {
    var i := HeaderLength(if length <= |p| then p[..length] else p);
    if i + 2 >= length then None
    else
      var afterTopic := i + 2 + FromBe16(p[i], p[i + 1]);
      if afterTopic > length || GetQos(p[0]) == 0 || afterTopic + 2 > length then None else Some(afterTopic)
  }

  /** The reads of mqtt_get_id stay inside `p`, also when `length` is that of a longer packet. */
  predicate IdReadable(p: seq<Byte>, length: nat) {
    length <= |p| ||
    (&& p != [] && GetType(p[0]) == PUBLISH && Varint.Terminated(p[1..])
     && HeaderLength(p) + 2 <= |p|
     && (IdIndex(p, length).Some? ==> IdIndex(p, length).value + 2 <= |p|))
  }

  // ---------- the readers ----------

  /** mqtt_get_total_length. The loop that skips the length bytes opens every reader below as well. */
  method GetTotalLength(buffer: seq<Byte>, length: nat) returns (total: nat, fixedLen: nat)
    requires 1 <= length <= |buffer|
    ensures total == TotalLength(buffer[..length]) && fixedLen == HeaderLength(buffer[..length])
  {
    var value, lenBytes := Varint.Read(buffer, 1, length);
    assert buffer[..length][1..] == buffer[1..length];
    fixedLen := 1 + lenBytes;
    total := value + fixedLen;
  }

  /** mqtt_get_publish_topic. */
  method GetPublishTopic(buffer: seq<Byte>) returns (topic: Option<Slice>)
    requires buffer != []
    ensures topic == TopicOf(buffer)
  {
    var _, i := GetTotalLength(buffer, |buffer|);
    assert buffer[..|buffer|] == buffer;
    if i + 2 >= |buffer| {
      return None;
    }
    var topicLen := FromBe16(buffer[i], buffer[i + 1]);
    i := i + 2;
    if i + topicLen > |buffer| {
      return None;
    }
    return Some(Slice(i, topicLen));
  }

  /** mqtt_get_publish_data. */
  method GetPublishData(buffer: seq<Byte>) returns (data: Option<Slice>)
    requires buffer != []
    ensures data == DataOf(buffer)
  {
    var total, i := GetTotalLength(buffer, |buffer|);
    assert buffer[..|buffer|] == buffer;
    if i + 2 >= |buffer| {
      return None;
    }
    var topicLen := FromBe16(buffer[i], buffer[i + 1]);
    i := i + 2;
    if i + topicLen >= |buffer| {
      return None;
    }
    i := i + topicLen;
    if GetQos(buffer[0]) > 0 {
      if i + 2 >= |buffer| {
        return None;
      }
      i := i + 2;
    }
    if total < i {
      return None;
    }
    return Some(Slice(i, if total <= |buffer| then total - i else |buffer| - i));
  }

  /** mqtt_get_id. */
  method GetId(buffer: seq<Byte>, length: nat) returns (id: nat)
    requires IdReadable(buffer, length)
    ensures id == IdOf(buffer, length)
  {
    if length < 1 {
      return 0;
    }
    var typ := GetType(buffer[0]);
    if typ == PUBLISH {
      var _, i := GetTotalLength(buffer, if length <= |buffer| then length else |buffer|);
      assert length > |buffer| ==> buffer[..|buffer|] == buffer;
      if i + 2 >= length {
        return 0;
      }
      var topicLen := FromBe16(buffer[i], buffer[i + 1]);
      i := i + 2;
      if i + topicLen > length {
        return 0;
      }
      i := i + topicLen;
      if GetQos(buffer[0]) > 0 {
        if i + 2 > length {
          return 0;
        }
      } else {
        return 0;
      }
      return FromBe16(buffer[i], buffer[i + 1]);
    } else if PUBACK <= typ <= UNSUBACK {
      if length >= 4 && buffer[1] < 128 {
        return FromBe16(buffer[2], buffer[3]);
      } else {
        return 0;
      }
    }
    id := 0;
  }

  // ---------- printing and reading undo each other ----------

  lemma PacketLayout(first: Byte, body: seq<Byte>, rest: seq<Byte>)
    ensures var p := Packet(first, body) + rest;
            && HeaderLength(p) == 1 + |Varint.Encode(|body|)|
            && TotalLength(p) == |Packet(first, body)|
            && p[0] == first && p[HeaderLength(p)..] == body + rest
  {
    var p, field := Packet(first, body) + rest, Varint.Encode(|body|);
    Varint.RoundTrip(|body|, body + rest);
    assert p == [first] + (field + (body + rest));
    assert p[1..] == field + (body + rest);
    assert p[1 + |field|..] == body + rest;
  }

  /** `p` has a fixed header, `body` after it, and nothing else. */
  predicate Laid(p: seq<Byte>, body: seq<Byte>) {
    p != [] && TotalLength(p) == |p| && HeaderLength(p) <= |p| && p[HeaderLength(p)..] == body
  }

  lemma PacketLaid(first: Byte, body: seq<Byte>)
    ensures Laid(Packet(first, body), body) && Packet(first, body)[0] == first
  {
    PacketLayout(first, body, []);
    assert Packet(first, body) + [] == Packet(first, body) && body + [] == body;
  }

  lemma TopicReads(p: seq<Byte>, topic: seq<Byte>, rest: seq<Byte>)
    requires Laid(p, Be16(|topic|) + topic + rest) && 1 <= |topic| <= MAX_TOPIC
    ensures TopicOf(p) == Some(Slice(HeaderLength(p) + 2, |topic|)) && At(p, TopicOf(p).value) == topic
    ensures FromBe16(p[HeaderLength(p)], p[HeaderLength(p) + 1]) == |topic|
    ensures p[HeaderLength(p) + 2 + |topic|..] == rest
  {
    var i := HeaderLength(p);
    var body := Be16(|topic|) + topic + rest;
    Be16RoundTrip(|topic|);
    assert p[i] == body[0] && p[i + 1] == body[1];
    assert p[i + 2..i + 2 + |topic|] == body[2..2 + |topic|] == topic;
    assert p[i + 2 + |topic|..] == body[2 + |topic|..];
  }

  lemma DataReads(p: seq<Byte>, topic: seq<Byte>, idBytes: seq<Byte>, payload: seq<Byte>)
    requires Laid(p, Be16(|topic|) + topic + (idBytes + payload)) && 1 <= |topic| <= MAX_TOPIC
    requires |idBytes| == if GetQos(p[0]) > 0 then 2 else 0
    ensures payload == [] ==> DataOf(p) == None
    ensures payload != [] ==> DataOf(p).Some? && At(p, DataOf(p).value) == payload
  {
    TopicReads(p, topic, idBytes + payload);
    var start := HeaderLength(p) + 2 + |topic| + |idBytes|;
    assert p[start..] == p[HeaderLength(p) + 2 + |topic|..][|idBytes|..] == payload;
  }

  lemma IdReads(p: seq<Byte>, topic: seq<Byte>, idBytes: seq<Byte>, payload: seq<Byte>)
    requires Laid(p, Be16(|topic|) + topic + (idBytes + payload)) && 1 <= |topic| <= MAX_TOPIC
    requires GetType(p[0]) == PUBLISH && |idBytes| == if GetQos(p[0]) > 0 then 2 else 0
    ensures IdOf(p, |p|) == if GetQos(p[0]) > 0 then FromBe16(idBytes[0], idBytes[1]) else 0
  {
    TopicReads(p, topic, idBytes + payload);
    assert p[..|p|] == p;
    var at := HeaderLength(p) + 2 + |topic|;
    if GetQos(p[0]) > 0 {
      assert p[at] == p[at..][0] == idBytes[0] && p[at + 1] == p[at..][1] == idBytes[1];
      assert IdIndex(p, |p|) == Some(at);
    }
  }

  /** The readers, applied to `p`, return these values. */
  predicate ReadsAs(p: seq<Byte>, topic: seq<Byte>, payload: seq<Byte>, qos: nat, retain: nat, id: nat) {
    && p != [] && TotalLength(p) == |p|
    && GetType(p[0]) == PUBLISH && GetDup(p[0]) == 0 && GetQos(p[0]) == qos && GetRetain(p[0]) == retain
    && TopicOf(p).Some? && At(p, TopicOf(p).value) == topic
    && IdOf(p, |p|) == (if qos > 0 then id else 0)
    && if payload == [] then DataOf(p) == None else DataOf(p).Some? && At(p, DataOf(p).value) == payload
  }

  lemma LaidReadsAs(p: seq<Byte>, topic: seq<Byte>, idBytes: seq<Byte>, payload: seq<Byte>)
    requires Laid(p, Be16(|topic|) + topic + (idBytes + payload)) && 1 <= |topic| <= MAX_TOPIC
    requires GetType(p[0]) == PUBLISH && GetDup(p[0]) == 0
    requires |idBytes| == if GetQos(p[0]) > 0 then 2 else 0
    ensures ReadsAs(p, topic, payload, GetQos(p[0]), GetRetain(p[0]),
                    if idBytes != [] then FromBe16(idBytes[0], idBytes[1]) else 0)
  {
    TopicReads(p, topic, idBytes + payload);
    DataReads(p, topic, idBytes, payload);
    IdReads(p, topic, idBytes, payload);
  }

  lemma PublishLaid(topic: seq<Byte>, payload: seq<Byte>, qos: nat, retain: int, id: nat)
    ensures var idBytes := if qos > 0 then Be16(id) else [];
            Laid(PublishPacket(topic, payload, qos, retain, id), Be16(|topic|) + topic + (idBytes + payload))
    ensures PublishPacket(topic, payload, qos, retain, id)[0] == FirstByte(PUBLISH, 0, qos, retain)
  {
    var idBytes := if qos > 0 then Be16(id) else [];
    assert PublishHeader(topic, qos, id) + payload == Be16(|topic|) + topic + (idBytes + payload);
    PacketLaid(FirstByte(PUBLISH, 0, qos, retain), PublishHeader(topic, qos, id) + payload);
  }

  /** Every PUBLISH the printer can build is well formed and reads back as what went in. */
  lemma PublishRoundTrip(topic: seq<Byte>, payload: seq<Byte>, qos: nat, retain: nat, id: nat)
    requires 1 <= |topic| <= MAX_TOPIC && qos <= 2 && retain <= 1 && id < 65536
    requires |PublishHeader(topic, qos, id)| + |payload| <= Varint.MAX_VALUE
    ensures WellFormed(PublishPacket(topic, payload, qos, retain, id))
    ensures ReadsAs(PublishPacket(topic, payload, qos, retain, id), topic, payload, qos, retain, id)
  {
    var first := FirstByte(PUBLISH, 0, qos, retain);
    FirstByteRoundTrip(PUBLISH, 0, qos, retain);
    PacketWellFormed(first, PublishHeader(topic, qos, id) + payload);
    PublishLaid(topic, payload, qos, retain, id);
    LaidReadsAs(PublishPacket(topic, payload, qos, retain, id), topic, if qos > 0 then Be16(id) else [], payload);
    Be16RoundTrip(id);
  }

  /** The other way round: a PUBLISH with the shortest length encoding and DUP clear is what the printer
      builds from the values the readers return for it. */
  lemma ReadThenPrint(first: Byte, body: seq<Byte>, topic: seq<Byte>, payload: seq<Byte>, qos: nat, retain: nat, id: nat)
    requires ReadsAs(Packet(first, body), topic, payload, qos, retain, id)
    requires topic != []
    requires qos > 0 ==> IdIndex(Packet(first, body), |Packet(first, body)|).Some?
    ensures Packet(first, body) == PublishPacket(topic, payload, qos, retain, id)
  {
    PacketLaid(first, body);
    LaidPrints(Packet(first, body), body, topic, payload, qos, retain, id);
    FirstByteInverse(first);
  }

  lemma LaidPrints(p: seq<Byte>, body: seq<Byte>, topic: seq<Byte>, payload: seq<Byte>, qos: nat, retain: nat, id: nat)
    requires Laid(p, body) && ReadsAs(p, topic, payload, qos, retain, id)
    requires topic != [] && (qos > 0 ==> IdIndex(p, |p|).Some?)
    ensures body == PublishHeader(topic, qos, id) + payload
  {
    var idBytes, rest := SplitBody(p, body, topic);
    LaidReadsAs(p, topic, idBytes, rest);
    var id' := if idBytes != [] then FromBe16(idBytes[0], idBytes[1]) else 0;
    ReadsOneWay(p, topic, payload, qos, retain, id, topic, rest, GetQos(p[0]), GetRetain(p[0]), id');
    if qos > 0 {
      Be16Inverse(idBytes[0], idBytes[1]);
    }
  }

  lemma SplitBody(p: seq<Byte>, body: seq<Byte>, topic: seq<Byte>) returns (idBytes: seq<Byte>, rest: seq<Byte>)
    requires Laid(p, body) && TopicOf(p).Some? && At(p, TopicOf(p).value) == topic
    requires GetQos(p[0]) > 0 ==> IdIndex(p, |p|).Some?
    ensures body == Be16(|topic|) + topic + (idBytes + rest)
    ensures |idBytes| == if GetQos(p[0]) > 0 then 2 else 0
  {
    var afterTopic := SplitPoint(p, body);
    var k := if GetQos(p[0]) > 0 then 2 else 0;
    idBytes, rest := body[afterTopic..][..k], body[afterTopic..][k..];
    BodySplits(body, topic, idBytes, rest);
  }

  lemma ReadsOneWay(p: seq<Byte>, t: seq<Byte>, d: seq<Byte>, q: nat, r: nat, id: nat,
                    t': seq<Byte>, d': seq<Byte>, q': nat, r': nat, id': nat)
    requires ReadsAs(p, t, d, q, r, id) && ReadsAs(p, t', d', q', r', id')
    ensures t == t' && d == d' && q == q' && r == r' && (q > 0 ==> id == id')
  {
  }

  lemma SplitPoint(p: seq<Byte>, body: seq<Byte>) returns (afterTopic: nat)
    requires Laid(p, body) && TopicOf(p).Some?
    ensures |body| >= 2 && afterTopic == 2 + FromBe16(body[0], body[1]) <= |body|
    ensures At(p, TopicOf(p).value) == body[2..afterTopic]
    ensures GetQos(p[0]) > 0 && IdIndex(p, |p|).Some? ==> afterTopic + 2 <= |body|
  {
    var i := HeaderLength(p);
    assert p[..|p|] == p && p[i] == body[0] && p[i + 1] == body[1];
    afterTopic := 2 + FromBe16(body[0], body[1]);
    SliceOfTail(p, i, 2, afterTopic - 2);
  }

  lemma BodySplits(body: seq<Byte>, topic: seq<Byte>, idBytes: seq<Byte>, payload: seq<Byte>)
    requires |body| >= 2 && |topic| == FromBe16(body[0], body[1]) && 2 + |topic| <= |body|
    requires topic == body[2..2 + |topic|] && body[2 + |topic|..] == idBytes + payload
    ensures body == Be16(|topic|) + topic + (idBytes + payload)
  {
  }

  /** What the readers say about an acknowledgement. */
  predicate AckReadsAs(p: seq<Byte>, kind: AckKind, id: nat) {
    WellFormed(p) && |p| == 4 && GetType(p[0]) == AckType(kind) && IdOf(p, 4) == id
  }

  /** An acknowledgement is four bytes and carries its id back to mqtt_get_id. */
  lemma AckRoundTrip(kind: AckKind, id: nat)
    requires 1 <= id < 65536
    ensures AckReadsAs(Packet(AckFirstByte(kind), Be16(id)), kind, id)
  {
    AckFlags(kind);
    PacketWellFormed(AckFirstByte(kind), Be16(id));
    AckBytes(AckFirstByte(kind), id);
    Be16RoundTrip(id);
  }

  lemma AckFlags(kind: AckKind)
    ensures GetType(AckFirstByte(kind)) == AckType(kind) && ValidFirstByte(AckFirstByte(kind))
  {
    match kind
    case Puback => assert AckFirstByte(kind) == 64;
    case Pubrec => assert AckFirstByte(kind) == 80;
    case Pubrel => assert AckFirstByte(kind) == 98;
    case Pubcomp => assert AckFirstByte(kind) == 112;
  }
}
