/** The MQTT 5.0 PUBLISH printer and reader of lib/mqtt5_msg.c. Its fini_message and append_message_id are those of
    the 3.1.1 printer. */
module Mqtt5Msg {
  import opened Arithmetic
  import opened Bytes
  import opened MqttMsg
  import opened MqttParse
  import opened Mqtt5Properties
  import Varint

  // ---------- what a packet is ----------

  /** The property section with its length in front. */
  function Section(c: Config): seq<Byte> {
    Varint.Encode(|PropertyBytes(c)|) + PropertyBytes(c)
  }

  function Header5(topic: seq<Byte>, qos: nat, id: nat, c: Config): seq<Byte> {
    PublishHeader(topic, qos, id) + Section(c)
  }

  function Publish5Packet(topic: seq<Byte>, c: Config, payload: seq<Byte>, qos: nat, retain: int, id: nat): seq<Byte> {
    Packet(FirstByte(PUBLISH, 0, qos, retain), Header5(topic, qos, id, c) + payload)
  }

  /** When mqtt5_msg_publish can build the message. */
  predicate Publish5Fits(capacity: nat, topic: seq<Byte>, c: Config, data: Option<seq<Byte>>, dataLength: int, qos: nat) {
    var header := 2 + |topic| + (if qos > 0 then 2 else 0) + |Section(c)|;
    && topic != []
    && MAX_FIXED_HEADER_SIZE + header <= capacity
    && (data.None? ==> dataLength <= 0)
    && header + (if data.Some? then dataLength else 0) <= Varint.MAX_VALUE
  }

  // ---------- the printer ----------

  /** `data_len` written most significant byte first: the k-th byte from the end is the k-th group of eight bits. */
  function BeN(v: nat, n: nat): (s: seq<Byte>)
    ensures |s| == n
  {
    if n == 0 then [] else BeN(v / 256, n - 1) + [v % 256]
  }

  function Pow256(k: nat): (p: nat)
    ensures p > 0
  {
    if k == 0 then 1 else 256 * Pow256(k - 1)
  }

  lemma {:induction false} BeNByte(v: nat, n: nat, i: nat)
    requires i < n
    ensures BeN(v, n)[i] == v / Pow256(n - 1 - i) % 256
  {
    if i < n - 1 {
      BeNByte(v / 256, n - 1, i);
      var p := Pow256(n - 2 - i);
      DivTwice(v, 256, p);
    }
  }

  lemma PowersOf256()
    ensures Pow256(0) == 1 && Pow256(1) == 256 && Pow256(2) == 0x1_0000 && Pow256(3) == 0x100_0000
  {
  }

  lemma BeN2(v: nat)
    ensures BeN(v, 1) == [v % 256] && BeN(v, 2) == Be16(v)
  {
  }

  lemma BeN4(v: nat)
    ensures BeN(v, 4) == Be32(v)
  {
    PowersOf256();
    BeNByte(v, 4, 0);
    BeNByte(v, 4, 1);
    BeNByte(v, 4, 2);
    BeNByte(v, 4, 3);
  }

  function PropertyField(typ: Byte, occupy: nat, data: Option<seq<Byte>>, value: nat): seq<Byte> {
    (if typ != 0 then [typ] else []) + BeN(value, occupy) + if data.Some? then data.value else []
  }

  /** The loop of append_property: `occupy` bytes, the most significant first. */
  method AppendNumber(conn: Connection, occupy: nat, value: nat)
    requires occupy > 0 && conn.length + occupy <= conn.buffer.Length
    modifies conn`length, conn.buffer
    ensures conn.length == old(conn.length) + occupy
    ensures conn.buffer[..conn.length] == old(conn.buffer[..conn.length]) + BeN(value, occupy)
  {
    ghost var front := conn.buffer[..conn.length];
    for i := 1 to occupy + 1
      invariant conn.length == |front| + i - 1
      invariant conn.buffer[..conn.length] == front + BeN(value, occupy)[..i - 1]
    {
      BeNByte(value, occupy, i - 1);
      conn.CopyIn([value / Pow256(occupy - i) % 256]);
    }
  }

  /** append_property with a fixed-width length or value (`len_occupy` above zero). */
  method AppendProperty(conn: Connection, typ: Byte, occupy: nat, data: Option<seq<Byte>>, value: nat) returns (ok: bool)
    requires occupy > 0 && (data.Some? ==> value == |data.value|)
    modifies conn`length, conn.buffer
    ensures ok <==> old(conn.length) + |PropertyField(typ, occupy, data, value)| <= conn.buffer.Length
    ensures !ok ==> conn.length == old(conn.length)
    ensures ok ==> && conn.length == old(conn.length) + |PropertyField(typ, occupy, data, value)|
                   && conn.buffer[..conn.length] == old(conn.buffer[..conn.length]) + PropertyField(typ, occupy, data, value)
  {
    if conn.length + occupy + (if data.Some? then value else 0) + (if typ != 0 then 1 else 0) > conn.buffer.Length {
      return false;
    }
    if typ != 0 {
      conn.CopyIn([typ]);
    }
    AppendNumber(conn, occupy, value);
    if data.Some? {
      conn.CopyIn(data.value);
    }
    ok := true;
  }

  /** While the property section is written: `front` before it, one byte left for its length, `props` after that.
      The one byte may already lie past the end of the buffer. */
  ghost predicate Open(conn: Connection, front: seq<Byte>, props: seq<Byte>)
    reads conn, conn.buffer
  {
    var at := MAX_FIXED_HEADER_SIZE + |front|;
    && conn.length == at + 1 + |props| <= conn.buffer.Length + 1
    && (conn.length <= conn.buffer.Length ==>
          conn.buffer[MAX_FIXED_HEADER_SIZE..at] == front && conn.buffer[at + 1..conn.length] == props)
  }

  /** One property, if it is set. */
  method AppendIf(conn: Connection, present: bool, typ: Byte, occupy: nat, data: Option<seq<Byte>>, value: nat,
                  ghost front: seq<Byte>, ghost props: seq<Byte>, ghost rest: seq<Byte>, ghost all: seq<Byte>)
    returns (ok: bool, ghost props': seq<Byte>)
    requires occupy > 0 && (present && data.Some? ==> value == |data.value|)
    requires Open(conn, front, props)
    requires props + ((if present then PropertyField(typ, occupy, data, value) else []) + rest) == all
    modifies conn`length, conn.buffer
    ensures ok ==> Open(conn, front, props') && props' + rest == all
    ensures !ok ==> MAX_FIXED_HEADER_SIZE + |front| + 1 + |all| > conn.buffer.Length
  {
    ok, props' := true, props;
    if present {
      ghost var field := PropertyField(typ, occupy, data, value);
      ghost var before, start := conn.buffer[..], conn.length;
      ok := AppendProperty(conn, typ, occupy, data, value);
      props' := props + field;
      assert |all| == |props| + |field| + |rest|;
      if ok {
        assert conn.buffer[..][..conn.length] == before[..start] + field;
        FieldAdds(before, conn.buffer[..], start, front, props, field);
        assert props' + rest == props + (field + rest);
      }
    }
  }

  lemma FieldAdds(before: seq<Byte>, after: seq<Byte>, start: nat, front: seq<Byte>, props: seq<Byte>, field: seq<Byte>)
    requires start == MAX_FIXED_HEADER_SIZE + |front| + 1 + |props| <= start + |field| <= |before| == |after|
    requires before[MAX_FIXED_HEADER_SIZE..MAX_FIXED_HEADER_SIZE + |front|] == front
    requires before[MAX_FIXED_HEADER_SIZE + |front| + 1..start] == props
    requires after[..start + |field|] == before[..start] + field
    ensures after[MAX_FIXED_HEADER_SIZE..MAX_FIXED_HEADER_SIZE + |front|] == front
    ensures after[MAX_FIXED_HEADER_SIZE + |front| + 1..start + |field|] == props + field
  {
    var at, end := MAX_FIXED_HEADER_SIZE + |front|, start + |field|;
    SliceOfFront(after, end, MAX_FIXED_HEADER_SIZE, at);
    SliceOfFront(after, end, at + 1, end);
    SliceOfFront(before, start, MAX_FIXED_HEADER_SIZE, at);
    SliceOfFront(before, start, at + 1, start);
  }

  /** The two strings of a user property. */
  method AppendUser(conn: Connection, u: UserProperty,
                    ghost front: seq<Byte>, ghost props: seq<Byte>, ghost rest: seq<Byte>, ghost all: seq<Byte>)
    returns (ok: bool, ghost props': seq<Byte>)
    requires Open(conn, front, props)
    requires props + ([USER_PROPERTY] + Text(u.key) + Text(u.value) + rest) == all
    modifies conn`length, conn.buffer
    ensures ok ==> Open(conn, front, props') && props' + rest == all
    ensures !ok ==> MAX_FIXED_HEADER_SIZE + |front| + 1 + |all| > conn.buffer.Length
  {
    BeN2(|u.key|);
    BeN2(|u.value|);
    assert PropertyField(USER_PROPERTY, 2, Some(u.key), |u.key|) == [USER_PROPERTY] + Text(u.key);
    assert PropertyField(0, 2, Some(u.value), |u.value|) == Text(u.value);
    ghost var p;
    ok, p := AppendIf(conn, true, USER_PROPERTY, 2, Some(u.key), |u.key|, front, props, Text(u.value) + rest, all);
    props' := p;
    if ok {
      ok, props' := AppendIf(conn, true, 0, 2, Some(u.value), |u.value|, front, p, rest, all);
    }
  }

  method AppendUsers(conn: Connection, user: seq<UserProperty>,
                     ghost front: seq<Byte>, ghost props: seq<Byte>, ghost rest: seq<Byte>, ghost all: seq<Byte>)
    returns (ok: bool, ghost props': seq<Byte>)
    requires Open(conn, front, props) && props + (UserBytes(user) + rest) == all
    modifies conn`length, conn.buffer
    ensures ok ==> Open(conn, front, props') && props' + rest == all
    ensures !ok ==> MAX_FIXED_HEADER_SIZE + |front| + 1 + |all| > conn.buffer.Length
  {
    ok, props' := true, props;
    assert user[0..] == user;
    for i := 0 to |user|
      invariant Open(conn, front, props') && props' + (UserBytes(user[i..]) + rest) == all
    {
      UserBytesFollow(user[i..], rest);
      assert user[i..][1..] == user[i + 1..];
      ok, props' := AppendUser(conn, user[i], front, props', UserBytes(user[i + 1..]) + rest, all);
      if !ok {
        return;
      }
    }
    assert UserBytes(user[|user|..]) + rest == rest;
    ok := true;
  }

  /** The properties up to the topic alias: numbers. */
  method AppendNumbers(conn: Connection, c: Config, ghost front: seq<Byte>) returns (ok: bool, ghost props: seq<Byte>)
    requires Open(conn, front, [])
    modifies conn`length, conn.buffer
    ensures ok ==> Open(conn, front, props) && props + AfterAlias(c) == PropertyBytes(c)
    ensures !ok ==> MAX_FIXED_HEADER_SIZE + |front| + 1 + |PropertyBytes(c)| > conn.buffer.Length
  {
    ghost var all := PropertyBytes(c);
    BeN2(1);
    BeN4(c.expiry);
    BeN2(c.alias);
    assert PropertyField(PAYLOAD_FORMAT_INDICATOR, 1, None, 1) == [PAYLOAD_FORMAT_INDICATOR, 1];
    assert PropertyField(MESSAGE_EXPIRY_INTERVAL, 4, None, c.expiry) == [MESSAGE_EXPIRY_INTERVAL] + Be32(c.expiry);
    assert PropertyField(TOPIC_ALIAS, 2, None, c.alias) == [TOPIC_ALIAS] + Be16(c.alias);
    ok, props := AppendIf(conn, c.payloadFormat, PAYLOAD_FORMAT_INDICATOR, 1, None, 1, front, [], AfterFormat(c), all);
    if !ok {
      return;
    }
    ok, props := AppendIf(conn, c.expiry != 0, MESSAGE_EXPIRY_INTERVAL, 4, None, c.expiry, front, props, AfterExpiry(c), all);
    if !ok {
      return;
    }
    ok, props := AppendIf(conn, c.alias != 0, TOPIC_ALIAS, 2, None, c.alias, front, props, AfterAlias(c), all);
  }

  /** The properties from the response topic on: strings. */
  method AppendTexts(conn: Connection, c: Config, ghost front: seq<Byte>, ghost before: seq<Byte>) returns (ok: bool)
    requires Open(conn, front, before) && before + AfterAlias(c) == PropertyBytes(c)
    modifies conn`length, conn.buffer
    ensures ok ==> Open(conn, front, PropertyBytes(c))
    ensures !ok ==> MAX_FIXED_HEADER_SIZE + |front| + 1 + |PropertyBytes(c)| > conn.buffer.Length
  {
    ghost var all, props := PropertyBytes(c), before;
    var response := if c.responseTopic.Some? then c.responseTopic.value else [];
    var content := if c.contentType.Some? then c.contentType.value else [];
    TextPropertyField(RESPONSE_TOPIC, response);
    TextPropertyField(CORRELATION_DATA, c.correlation);
    TextPropertyField(CONTENT_TYPE, content);
    ok, props := AppendIf(conn, c.responseTopic.Some?, RESPONSE_TOPIC, 2, Some(response), |response|,
                          front, props, AfterResponse(c), all);
    if !ok {
      return;
    }
    ok, props := AppendIf(conn, c.correlation != [], CORRELATION_DATA, 2, Some(c.correlation), |c.correlation|,
                          front, props, AfterCorrelation(c), all);
    if !ok {
      return;
    }
    ok, props := AppendUsers(conn, c.user, front, props, ContentBytes(c), all);
    if !ok {
      return;
    }
    assert ContentBytes(c) + [] == ContentBytes(c);
    ok, props := AppendIf(conn, c.contentType.Some?, CONTENT_TYPE, 2, Some(content), |content|, front, props, [], all);
    assert ok ==> props == all;
  }

  lemma TextPropertyField(typ: Byte, text: seq<Byte>)
    requires typ != 0
    ensures PropertyField(typ, 2, Some(text), |text|) == [typ] + Text(text)
  {
    BeN2(|text|);
  }

  /** The loop of update_property_len_value: `len` bytes behind `at` move right, last byte first. */
  method ShiftRight(buffer: array<Byte>, at: nat, len: nat, offset: nat)
    requires offset > 0 && at + len + offset < buffer.Length
    modifies buffer
    ensures buffer[..at] == old(buffer[..at])
    ensures buffer[at + 1 + offset..at + 1 + offset + len] == old(buffer[at + 1..at + 1 + len])
  {
    ghost var was := buffer[..];
    var messageOffset := at + len;
    for i := 0 to len
      invariant messageOffset == at + len - i
      invariant forall j :: 0 <= j <= messageOffset ==> buffer[j] == was[j]
      invariant forall j :: messageOffset + offset < j <= at + len + offset ==> buffer[j] == was[j - offset]
    {
      buffer[messageOffset + offset] := buffer[messageOffset];
      messageOffset := messageOffset - 1;
    }
    Moved(was, buffer[..], at + 1, len, offset);
  }

  lemma Moved(before: seq<Byte>, after: seq<Byte>, at: nat, len: nat, offset: nat)
    requires at + len + offset <= |before| == |after|
    requires forall j :: at <= j < at + len ==> after[j + offset] == before[j]
    ensures after[at + offset..at + offset + len] == before[at..at + len]
  {
  }

  /** update_property_len_value: the section moves right, last byte first, to make room for a length of more than one
      byte. Nothing is written past the end of the buffer. */
  method UpdatePropertyLength(conn: Connection, propertyLen: nat, propertyOffset: nat, ghost front: seq<Byte>, ghost props: seq<Byte>)
    returns (ok: bool)
    requires MAX_FIXED_HEADER_SIZE <= conn.buffer.Length < 0x4000_0000
    requires Open(conn, front, props) && propertyLen == |props| && propertyOffset == MAX_FIXED_HEADER_SIZE + |front|
    modifies conn`length, conn.buffer
    ensures ok <==> MAX_FIXED_HEADER_SIZE + |front| + |Varint.Encode(propertyLen)| + propertyLen <= conn.buffer.Length
    ensures ok ==> conn.Building(front + (Varint.Encode(propertyLen) + props))
  {
    var encoded := Varint.Generate(propertyLen);
    var offset := |encoded| - 1;
    conn.length := conn.length + offset;
    if conn.length > conn.buffer.Length {
      return false;
    }
    ghost var before := conn.buffer[..];
    assert before[propertyOffset + 1..propertyOffset + 1 + propertyLen] == props;
    if offset > 0 {
      ShiftRight(conn.buffer, propertyOffset, propertyLen, offset);
    }
    ghost var moved := conn.buffer[..];
    FrontStays(before, moved, propertyOffset, front);
    assert moved[propertyOffset + |encoded|..conn.length] == props;
    conn.Store(propertyOffset, encoded);
    SectionPlaced(moved, conn.buffer[..], propertyOffset, encoded, conn.length, front, props);
    assert conn.buffer[MAX_FIXED_HEADER_SIZE..conn.length] == conn.buffer[..][MAX_FIXED_HEADER_SIZE..conn.length];
    ok := true;
  }

  lemma FrontStays(before: seq<Byte>, after: seq<Byte>, end: nat, front: seq<Byte>)
    requires MAX_FIXED_HEADER_SIZE <= end <= |before| && end <= |after| && before[..end] == after[..end]
    requires before[MAX_FIXED_HEADER_SIZE..end] == front
    ensures after[MAX_FIXED_HEADER_SIZE..end] == front
  {
  }

  lemma SectionPlaced(moved: seq<Byte>, after: seq<Byte>, at: nat, encoded: seq<Byte>, end: nat, front: seq<Byte>, props: seq<Byte>)
    requires MAX_FIXED_HEADER_SIZE <= at <= at + |encoded| <= end <= |moved|
    requires after == moved[..at] + encoded + moved[at + |encoded|..]
    requires moved[MAX_FIXED_HEADER_SIZE..at] == front && moved[at + |encoded|..end] == props
    ensures after[MAX_FIXED_HEADER_SIZE..end] == front + (encoded + props)
  {
  }

  /** The property section of mqtt5_msg_publish. */
  method AppendSection(conn: Connection, c: Config, ghost front: seq<Byte>) returns (ok: bool)
    requires conn.Building(front)
    modifies conn`length, conn.buffer
    ensures ok <==> MAX_FIXED_HEADER_SIZE + |front| + |Section(c)| <= conn.buffer.Length
    ensures ok ==> conn.Building(front + Section(c))
  {
    var propertiesOffset := conn.length;
    conn.length := conn.length + 1;
    ghost var numbers;
    ok, numbers := AppendNumbers(conn, c, front);
    if ok {
      ok := AppendTexts(conn, c, front, numbers);
    }
    if ok {
      ok := UpdatePropertyLength(conn, conn.length - propertiesOffset - 1, propertiesOffset, front, PropertyBytes(c));
    }
  }

  /** mqtt5_msg_publish, without a response-information string. */
  method MsgPublish5(conn: Connection, topic: seq<Byte>, data: Option<seq<Byte>>, dataLength: int, qos: nat, retain: int, c: Config)
    returns (messageId: nat)
    requires conn.Valid() && (if data.Some? then 0 <= dataLength <= |data.value| else dataLength >= 0)
    modifies conn, conn.buffer
    ensures conn.Valid() && (messageId == 0 || messageId == conn.lastMessageId == NextId(old(conn.lastMessageId)))
    ensures if Publish5Fits(conn.buffer.Length, topic, c, data, dataLength, qos) then
              && (messageId != 0 <==> qos > 0)
              && conn.BuiltPublish(Header5(topic, qos, messageId, c), Payload(data, dataLength),
                                   Publish5Packet(topic, c, Payload(data, dataLength), qos, retain, messageId),
                                   old(conn.fragmentedOffset))
            else
              conn.length == 0
  {
    var ok;
    ok, messageId := conn.AppendVariableHeader(topic, data, dataLength, qos);
    if ok {
      ok := AppendSection(conn, c, PublishHeader(topic, qos, messageId));
    }
    if !ok {
      conn.FailMessage();
      return;
    }
    ghost var header := Header5(topic, qos, messageId, c);
    FinishPublish5(conn, data, dataLength, qos, retain, header);
  }

  /** The payload and the fixed header. Here the fragment total is cleared without data, too. */
  method FinishPublish5(conn: Connection, data: Option<seq<Byte>>, dataLength: int, qos: nat, retain: int, ghost header: seq<Byte>)
    requires conn.Building(header) && header != [] && conn.fragmentedOffset < SIZE_MOD
    requires if data.Some? then 0 <= dataLength <= |data.value| else dataLength == 0
    modifies conn`dataOffset, conn`length, conn`fragmentedOffset, conn`fragmentedTotal, conn.buffer
    ensures conn.Valid()
    ensures if |header| + dataLength <= Varint.MAX_VALUE then
              conn.BuiltPublish(header, Payload(data, dataLength),
                                Packet(FirstByte(PUBLISH, 0, qos, retain), header + Payload(data, dataLength)),
                                old(conn.fragmentedOffset))
            else
              conn.length == 0
  {
    var bytes := if data.Some? then data.value else [];
    ghost var offsetBefore := conn.fragmentedOffset;
    ghost var body := conn.AppendPayload(Some(bytes), dataLength, header);
    assert Payload(Some(bytes), dataLength) == Payload(data, dataLength);
    conn.FinishPublish(qos, retain, header, Payload(data, dataLength), body, true, offsetBefore);
  }

  // ---------- the reader ----------

  /** What mqtt5_get_publish_property_payload returns. */
  datatype Reading = Reading(topic: Slice, properties: Decoded, payload: Slice)

  /** Where the topic should be; it need not be inside the packet. */
  function TopicSlice(p: seq<Byte>): Slice
    requires p != [] && HeaderLength(p) + 2 <= |p|
  {
    var h := HeaderLength(p);
    Slice(h + 2, FromBe16(p[h], p[h + 1]))
  }

  /** Where the property section of a PUBLISH begins, by the checks of the reader; None where it gives up. */
  function SectionStart(p: seq<Byte>): (r: Option<nat>)
    requires p != [] && HeaderLength(p) + 2 <= |p|
    ensures r.Some? ==> TopicSlice(p).start + TopicSlice(p).len <= r.value < |p|
  {
    var afterTopic := TopicSlice(p).start + TopicSlice(p).len;
    if afterTopic >= |p| then None
    else if GetQos(p[0]) == 0 then Some(afterTopic)
    else if afterTopic + 2 >= |p| then None else Some(afterTopic + 2)
  }

  /** The property bytes, if the section lies within the packet. */
  function SectionOf(p: seq<Byte>): (r: Option<Slice>)
    requires p != [] && HeaderLength(p) + 2 <= |p|
    ensures r.Some? ==> r.value.start + r.value.len <= |p|
  {
    var s := SectionStart(p);
    if s.None? then None
    else
      var field := p[s.value..];
      var start, len := s.value + Varint.Count(field), Varint.Value(field) % 65536;
      if start + len > |p| then None else Some(Slice(start, len))
  }

  /** Where the payload in the buffer ends. */
  function PayloadEnd(p: seq<Byte>): (n: nat)
    requires p != []
    ensures n <= |p|
  {
    if TotalLength(p) <= |p| then TotalLength(p) else |p|
  }

  /** Every read of the reader stays inside the packet. */
  predicate Readable5(p: seq<Byte>) {
    && p != [] && HeaderLength(p) + 2 <= |p|
    && (SectionStart(p).Some? ==>
          && SectionOf(p).Some?
          && SectionOf(p).value.start + SectionOf(p).value.len <= PayloadEnd(p)
          && !Decode(At(p, SectionOf(p).value), NoProperties).Overrun?)
  }

  function Completed(outcome: Outcome): Option<Decoded> {
    if outcome.Done? then Some(outcome.decoded) else None
  }

  function ReadingOf(p: seq<Byte>): (r: Option<Reading>)
    requires Readable5(p)
  {
    if SectionStart(p).None? then None
    else
      var section := SectionOf(p).value;
      var properties := Completed(Decode(At(p, section), NoProperties));
      var start := section.start + section.len;
      if properties.None? then None
      else Some(Reading(TopicSlice(p), properties.value, Slice(start, PayloadEnd(p) - start)))
  }

  /** A string with its length in front. */
  method ReadText(section: seq<Byte>, at: nat) returns (text: seq<Byte>, next: nat)
    requires at <= |section| && TextEnd(section[at..]).Some?
    ensures var e := TextEnd(section[at..]).value;
            text == section[at..][2..e] && next == at + e && section[next..] == section[at..][e..]
  {
    var len := FromBe16(section[at], section[at + 1]);
    next := at + 2 + len;
    text := section[at + 2..next];
  }

  /** The property loop. None is the reader's null result for a property it does not know. */
  method ReadProperties(section: seq<Byte>) returns (r: Option<Decoded>)
    requires !Decode(section, NoProperties).Overrun?
    ensures r == Completed(Decode(section, NoProperties))
  {
    var acc, at := NoProperties, 0;
    assert section[0..] == section;
    while at < |section|
      invariant at <= |section|
      invariant Decode(section[at..], acc) == Decode(section, NoProperties)
    {
      var known;
      known, acc, at := ReadProperty(section, at, acc);
      if !known {
        return None;
      }
    }
    r := Some(acc);
  }

  /** One round of the property loop. */
  method ReadProperty(section: seq<Byte>, start: nat, before: Decoded) returns (known: bool, acc: Decoded, at: nat)
    requires start < |section| && !Decode(section[start..], before).Overrun?
    ensures !known ==> Decode(section[start..], before) == Unknown
    ensures known ==> start < at <= |section| && Decode(section[at..], acc) == Decode(section[start..], before)
  {
    acc, at, known := before, start + 1, true;
    var id := section[start];
    ghost var rest := section[start..][1..];
    assert section[at..] == rest;
    if id == PAYLOAD_FORMAT_INDICATOR {
      acc := acc.(payloadFormat := section[at]);
      at := at + 1;
      assert section[at..] == rest[1..];
    } else if id == MESSAGE_EXPIRY_INTERVAL {
      acc := acc.(expiry := FromBe32(section[at], section[at + 1], section[at + 2], section[at + 3]));
      at := at + 4;
      assert section[at..] == rest[4..];
    } else if id == TOPIC_ALIAS {
      acc := acc.(alias := FromBe16(section[at], section[at + 1]));
      at := at + 2;
      assert section[at..] == rest[2..];
    } else if id == SUBSCRIBE_IDENTIFIER {
      var value, lenBytes := Varint.Read(section, at, |section|);
      assert section[at..|section|] == rest;
      acc := acc.(subscribeId := value);
      at := at + lenBytes;
      assert section[at..] == rest[lenBytes..];
    } else if id in {RESPONSE_TOPIC, CORRELATION_DATA, CONTENT_TYPE, REASON_STRING} {
      var text;
      text, at := ReadText(section, at);
      acc := WithText(acc, id, text);
    } else if id == USER_PROPERTY {
      var key, value;
      key, at := ReadText(section, at);
      value, at := ReadText(section, at);
      acc := acc.(user := acc.user + [UserProperty(key, value)]);
    } else {
      known := false;
    }
  }

  /** The first half of mqtt5_get_publish_property_payload: the topic, with the total length. */
  method FindTopic(buffer: seq<Byte>) returns (topic: Slice, total: nat)
    requires buffer != [] && HeaderLength(buffer) + 2 <= |buffer|
    ensures total == TotalLength(buffer) && topic == TopicSlice(buffer)
  {
    var offset;
    total, offset := GetTotalLength(buffer, |buffer|);
    assert buffer[..|buffer|] == buffer;
    topic := Slice(offset + 2, FromBe16(buffer[offset], buffer[offset + 1]));
  }

  /** Its checks on the way past the topic and the id. */
  method FindSection(buffer: seq<Byte>, topic: Slice) returns (start: Option<nat>)
    requires buffer != [] && HeaderLength(buffer) + 2 <= |buffer| && topic == TopicSlice(buffer)
    ensures start == SectionStart(buffer)
  {
    var afterTopic := topic.start + topic.len;
    if afterTopic >= |buffer| {
      return None;
    }
    if GetQos(buffer[0]) == 0 {
      return Some(afterTopic);
    }
    if afterTopic + 2 >= |buffer| {
      return None;
    }
    return Some(afterTopic + 2);
  }

  /** The property section itself: its length field, cut to sixteen bits, and where it lies. */
  method MeasureSection(buffer: seq<Byte>, start: nat) returns (section: Slice)
    requires Readable5(buffer) && SectionStart(buffer) == Some(start)
    ensures SectionOf(buffer) == Some(section)
  {
    var len, fieldBytes := Varint.Read(buffer, start, |buffer|);
    assert buffer[start..|buffer|] == buffer[start..];
    section := Slice(start + fieldBytes, len % 65536);
  }

  /** mqtt5_get_publish_property_payload. */
  method GetPublishPropertyPayload(buffer: seq<Byte>) returns (r: Option<Reading>)
    requires Readable5(buffer)
    ensures r == ReadingOf(buffer)
  {
    var topic, total := FindTopic(buffer);
    var start := FindSection(buffer, topic);
    if start.None? {
      return None;
    }
    var section := MeasureSection(buffer, start.value);
    SectionReadable(buffer, section);
    var properties := ReadProperties(At(buffer, section));
    if properties.None? {
      return None;
    }
    var offset := section.start + section.len;
    var end := if total <= |buffer| then total else |buffer|;
    r := Some(Reading(topic, properties.value, Slice(offset, end - offset)));
  }

  lemma SectionReadable(p: seq<Byte>, section: Slice)
    requires Readable5(p) && SectionStart(p).Some? && SectionOf(p) == Some(section)
    ensures section.start + section.len <= PayloadEnd(p) && !Decode(At(p, section), NoProperties).Overrun?
    ensures var properties := Completed(Decode(At(p, section), NoProperties));
            var offset := section.start + section.len;
            ReadingOf(p) == if properties.None? then None
                            else Some(Reading(TopicSlice(p), properties.value, Slice(offset, PayloadEnd(p) - offset)))
  {
  }

  // ---------- reading what was printed ----------

  predicate ReadsAs5(p: seq<Byte>, topic: seq<Byte>, c: Config, payload: seq<Byte>) {
    && Readable5(p)
    && ReadingOf(p).Some?
    && var r := ReadingOf(p).value;
    && r.topic.start + r.topic.len <= |p| && At(p, r.topic) == topic
    && r.properties == Expected(c)
    && r.payload.start + r.payload.len <= |p| && At(p, r.payload) == payload
  }

  lemma SectionReads(c: Config, payload: seq<Byte>)
    requires |PropertyBytes(c)| < 65536
    ensures var s := Section(c) + payload; var n := |PropertyBytes(c)|; var k := Varint.Count(s);
            && Varint.Value(s) % 65536 == n && k + n == |Section(c)| && |s| > 0
            && s[k..k + n] == PropertyBytes(c) && s[k + n..] == payload
  {
    var n := |PropertyBytes(c)|;
    Varint.RoundTrip(n, PropertyBytes(c) + payload);
    assert Section(c) + payload == Varint.Encode(n) + (PropertyBytes(c) + payload);
  }

  lemma LaidStart(p: seq<Byte>, topic: seq<Byte>, idBytes: seq<Byte>, rest: seq<Byte>)
    requires Laid(p, Be16(|topic|) + topic + (idBytes + rest)) && rest != []
    requires 1 <= |topic| <= MAX_TOPIC && |idBytes| == (if GetQos(p[0]) > 0 then 2 else 0)
    ensures HeaderLength(p) + 2 <= |p| && SectionStart(p).Some? && p[SectionStart(p).value..] == rest
  {
    TopicReads(p, topic, idBytes + rest);
    var afterTopic := HeaderLength(p) + 2 + |topic|;
    assert p[afterTopic + |idBytes|..] == p[afterTopic..][|idBytes|..] == rest;
  }

  /** A packet whose section starts where the reader looks for it. */
  lemma SectionFound(p: seq<Byte>, start: nat, c: Config, payload: seq<Byte>)
    requires p != [] && HeaderLength(p) + 2 <= |p| && SectionStart(p) == Some(start)
    requires p[start..] == Section(c) + payload && |PropertyBytes(c)| < 65536
    ensures SectionOf(p).Some? && At(p, SectionOf(p).value) == PropertyBytes(c)
    ensures p[SectionOf(p).value.start + SectionOf(p).value.len..] == payload
  {
    SectionReads(c, payload);
    SliceOfTail(p, start, Varint.Count(p[start..]), |PropertyBytes(c)|);
  }

  lemma LaidReadsAs5(p: seq<Byte>, topic: seq<Byte>, idBytes: seq<Byte>, c: Config, payload: seq<Byte>)
    requires Laid(p, Be16(|topic|) + topic + (idBytes + (Section(c) + payload)))
    requires 1 <= |topic| <= MAX_TOPIC && |idBytes| == (if GetQos(p[0]) > 0 then 2 else 0)
    requires |PropertyBytes(c)| < 65536 && Representable(c)
    ensures ReadsAs5(p, topic, c, payload)
  {
    TopicReads(p, topic, idBytes + (Section(c) + payload));
    LaidStart(p, topic, idBytes, Section(c) + payload);
    SectionFound(p, SectionStart(p).value, c, payload);
    PropertiesRoundTrip(c);
    SectionDecides(p, topic, c, payload);
  }

  lemma SectionDecides(p: seq<Byte>, topic: seq<Byte>, c: Config, payload: seq<Byte>)
    requires p != [] && TotalLength(p) == |p| && HeaderLength(p) + 2 <= |p|
    requires TopicSlice(p).start + TopicSlice(p).len <= |p| && At(p, TopicSlice(p)) == topic
    requires SectionOf(p).Some? && At(p, SectionOf(p).value) == PropertyBytes(c)
    requires Decode(PropertyBytes(c), NoProperties) == Done(Expected(c))
    requires p[SectionOf(p).value.start + SectionOf(p).value.len..] == payload
    ensures ReadsAs5(p, topic, c, payload)
  {
  }

  /** Every unfragmented MQTT 5.0 PUBLISH reads back with its topic, properties, ordered user properties and payload. */
  lemma Publish5RoundTrip(topic: seq<Byte>, c: Config, payload: seq<Byte>, qos: nat, retain: nat, id: nat)
    requires 1 <= |topic| <= MAX_TOPIC && qos <= 2 && retain <= 1
    requires |PropertyBytes(c)| < 65536 && Representable(c)
    requires |Header5(topic, qos, id, c)| + |payload| <= Varint.MAX_VALUE
    ensures WellFormed(Publish5Packet(topic, c, payload, qos, retain, id))
    ensures ReadsAs5(Publish5Packet(topic, c, payload, qos, retain, id), topic, c, payload)
  {
    var first := FirstByte(PUBLISH, 0, qos, retain);
    FirstByteRoundTrip(PUBLISH, 0, qos, retain);
    var body := Header5(topic, qos, id, c) + payload;
    PacketWellFormed(first, body);
    PacketLaid(first, body);
    var idBytes := if qos > 0 then Be16(id) else [];
    Body5(topic, qos, id, c, payload, idBytes);
    LaidReadsAs5(Packet(first, body), topic, idBytes, c, payload);
  }

  lemma Body5(topic: seq<Byte>, qos: nat, id: nat, c: Config, payload: seq<Byte>, idBytes: seq<Byte>)
    requires idBytes == if qos > 0 then Be16(id) else []
    ensures Header5(topic, qos, id, c) + payload == Be16(|topic|) + topic + (idBytes + (Section(c) + payload))
  {
    assert PublishHeader(topic, qos, id) == Be16(|topic|) + topic + idBytes;
  }
}
