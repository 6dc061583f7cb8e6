/** The property section of an MQTT 5.0 PUBLISH (sections 2.2.2 and 3.3.2.3): its bytes, and how they read back. */
module Mqtt5Properties {
  import opened Bytes
  import Varint

  const PAYLOAD_FORMAT_INDICATOR: Byte := 0x01
  const MESSAGE_EXPIRY_INTERVAL: Byte := 0x02
  const CONTENT_TYPE: Byte := 0x03
  const RESPONSE_TOPIC: Byte := 0x08
  const CORRELATION_DATA: Byte := 0x09
  const SUBSCRIBE_IDENTIFIER: Byte := 0x0B
  const REASON_STRING: Byte := 0x1F
  const TOPIC_ALIAS: Byte := 0x23
  const USER_PROPERTY: Byte := 0x26

  datatype UserProperty = UserProperty(key: seq<Byte>, value: seq<Byte>)

  /** esp_mqtt5_publish_property_config_t; zero, false and [] stand for properties that are not set. */
  datatype Config = Config(payloadFormat: bool, expiry: nat, alias: nat, responseTopic: Option<seq<Byte>>,
                           correlation: seq<Byte>, user: seq<UserProperty>, contentType: Option<seq<Byte>>)

  /** What the reader fills in, all zero at first: esp_mqtt5_publish_resp_property_t and the user properties. */
  datatype Decoded = Decoded(payloadFormat: nat, expiry: nat, alias: nat, responseTopic: Option<seq<Byte>>,
                             correlation: Option<seq<Byte>>, subscribeId: nat, user: seq<UserProperty>, contentType: Option<seq<Byte>>)

  const NoProperties := Decoded(0, 0, 0, None, None, 0, [], None)

  // ---------- writing ----------

  function Text(s: seq<Byte>): seq<Byte> { Be16(|s|) + s }

  function UserBytes(user: seq<UserProperty>): seq<Byte> {
    if user == [] then []
    else [USER_PROPERTY] + Text(user[0].key) + Text(user[0].value) + UserBytes(user[1..])
  }

  function FormatBytes(c: Config): seq<Byte> { if c.payloadFormat then [PAYLOAD_FORMAT_INDICATOR, 1] else [] }

  function ExpiryBytes(c: Config): seq<Byte> { if c.expiry != 0 then [MESSAGE_EXPIRY_INTERVAL] + Be32(c.expiry) else [] }

  function AliasBytes(c: Config): seq<Byte> { if c.alias != 0 then [TOPIC_ALIAS] + Be16(c.alias) else [] }

  function ResponseBytes(c: Config): seq<Byte> { if c.responseTopic.Some? then [RESPONSE_TOPIC] + Text(c.responseTopic.value) else [] }

  function CorrelationBytes(c: Config): seq<Byte> { if c.correlation != [] then [CORRELATION_DATA] + Text(c.correlation) else [] }

  function ContentBytes(c: Config): seq<Byte> { if c.contentType.Some? then [CONTENT_TYPE] + Text(c.contentType.value) else [] }

  /** The properties in the order the printer writes them. */
  function PropertyBytes(c: Config): seq<Byte> {
    FormatBytes(c) + AfterFormat(c)
  }

  function AfterFormat(c: Config): seq<Byte> { ExpiryBytes(c) + AfterExpiry(c) }

  function AfterExpiry(c: Config): seq<Byte> { AliasBytes(c) + AfterAlias(c) }

  function AfterAlias(c: Config): seq<Byte> { ResponseBytes(c) + AfterResponse(c) }

  function AfterResponse(c: Config): seq<Byte> { CorrelationBytes(c) + AfterCorrelation(c) }

  function AfterCorrelation(c: Config): seq<Byte> { UserBytes(c.user) + ContentBytes(c) }

  // ---------- reading ----------

  datatype Outcome = Done(decoded: Decoded) | Unknown | Overrun

  /** The length of the text at the start of `s`, with its two length bytes, if `s` holds all of it. */
  function TextEnd(s: seq<Byte>): (r: Option<nat>)
    ensures r.Some? ==> 2 <= r.value <= |s|
  {
    if |s| < 2 || |s| < 2 + FromBe16(s[0], s[1]) then None else Some(2 + FromBe16(s[0], s[1]))
  }

  /** The property loop of the reader. Overrun means that it would read on after the end of the section. */
  function Decode(s: seq<Byte>, acc: Decoded): Outcome
    decreases |s|
  {
    if s == [] then Done(acc)
    else
      var id, rest := s[0], s[1..];
      if id == PAYLOAD_FORMAT_INDICATOR then
        if |rest| < 1 then Overrun else Decode(rest[1..], acc.(payloadFormat := rest[0]))
      else if id == MESSAGE_EXPIRY_INTERVAL then
        if |rest| < 4 then Overrun else Decode(rest[4..], acc.(expiry := FromBe32(rest[0], rest[1], rest[2], rest[3])))
      else if id == TOPIC_ALIAS then
        if |rest| < 2 then Overrun else Decode(rest[2..], acc.(alias := FromBe16(rest[0], rest[1])))
      else if id == SUBSCRIBE_IDENTIFIER then
        if !Varint.Terminated(rest) then Overrun
        else Decode(rest[Varint.Count(rest)..], acc.(subscribeId := Varint.Value(rest)))
      else if id in {RESPONSE_TOPIC, CORRELATION_DATA, CONTENT_TYPE, REASON_STRING} then
        var e := TextEnd(rest);
        if e.None? then Overrun else Decode(rest[e.value..], WithText(acc, id, rest[2..e.value]))
      else if id == USER_PROPERTY then
        var e := TextEnd(rest);
        if e.None? then Overrun
        else
          var e2 := TextEnd(rest[e.value..]);
          if e2.None? then Overrun
          else Decode(rest[e.value..][e2.value..],
                      acc.(user := acc.user + [UserProperty(rest[2..e.value], rest[e.value..][2..e2.value])]))
      else Unknown
  }

  function WithText(acc: Decoded, id: Byte, text: seq<Byte>): Decoded {
    if id == RESPONSE_TOPIC then acc.(responseTopic := Some(text))
    else if id == CORRELATION_DATA then acc.(correlation := Some(text))
    else if id == CONTENT_TYPE then acc.(contentType := Some(text))
    else acc
  }

  // ---------- reading what was written ----------

  /** Every value fits its field, every string its two length bytes. */
  predicate Representable(c: Config) {
    && c.expiry < 0x1_0000_0000 && c.alias < 65536
    && (c.responseTopic.Some? ==> |c.responseTopic.value| < 65536)
    && |c.correlation| < 65536
    && (c.contentType.Some? ==> |c.contentType.value| < 65536)
    && forall u :: u in c.user ==> |u.key| < 65536 && |u.value| < 65536
  }

  function Expected(c: Config): Decoded {
    Decoded(if c.payloadFormat then 1 else 0, c.expiry, c.alias, c.responseTopic,
            if c.correlation != [] then Some(c.correlation) else None, 0, c.user, c.contentType)
  }

  lemma TextReads(t: seq<Byte>, rest: seq<Byte>)
    requires |t| < 65536
    ensures TextEnd(Text(t) + rest) == Some(2 + |t|)
    ensures (Text(t) + rest)[2..2 + |t|] == t && (Text(t) + rest)[2 + |t|..] == rest
  {
  }

  lemma TextField(id: Byte, t: seq<Byte>, rest: seq<Byte>, acc: Decoded)
    requires |t| < 65536 && id in {RESPONSE_TOPIC, CORRELATION_DATA, CONTENT_TYPE}
    ensures Decode([id] + Text(t) + rest, acc) == Decode(rest, WithText(acc, id, t))
  {
    var s := [id] + Text(t) + rest;
    assert s[1..] == Text(t) + rest;
    TextReads(t, rest);
  }

  lemma FormatField(c: Config, rest: seq<Byte>, acc: Decoded)
    requires acc.payloadFormat == 0
    ensures Decode(FormatBytes(c) + rest, acc) == Decode(rest, acc.(payloadFormat := if c.payloadFormat then 1 else 0))
  {
    var s := FormatBytes(c) + rest;
    if c.payloadFormat {
      assert s[1..][1..] == rest;
    } else {
      assert s == rest;
    }
  }

  lemma ExpiryReads(b: seq<Byte>, rest: seq<Byte>, acc: Decoded)
    requires |b| == 4
    ensures Decode([MESSAGE_EXPIRY_INTERVAL] + b + rest, acc) == Decode(rest, acc.(expiry := FromBe32(b[0], b[1], b[2], b[3])))
  {
    var s := [MESSAGE_EXPIRY_INTERVAL] + b + rest;
    assert s[1..] == b + rest && s[1..][4..] == rest;
  }

  lemma ExpiryField(c: Config, rest: seq<Byte>, acc: Decoded)
    requires acc.expiry == 0 && c.expiry < 0x1_0000_0000
    ensures Decode(ExpiryBytes(c) + rest, acc) == Decode(rest, acc.(expiry := c.expiry))
  {
    if c.expiry != 0 {
      Be32RoundTrip(c.expiry);
      ExpiryReads(Be32(c.expiry), rest, acc);
    } else {
      assert ExpiryBytes(c) + rest == rest;
    }
  }

  lemma AliasReads(b: seq<Byte>, rest: seq<Byte>, acc: Decoded)
    requires |b| == 2
    ensures Decode([TOPIC_ALIAS] + b + rest, acc) == Decode(rest, acc.(alias := FromBe16(b[0], b[1])))
  {
    var s := [TOPIC_ALIAS] + b + rest;
    assert s[1..] == b + rest && s[1..][2..] == rest;
  }

  lemma AliasField(c: Config, rest: seq<Byte>, acc: Decoded)
    requires acc.alias == 0 && c.alias < 65536
    ensures Decode(AliasBytes(c) + rest, acc) == Decode(rest, acc.(alias := c.alias))
  {
    if c.alias != 0 {
      Be16RoundTrip(c.alias);
      AliasReads(Be16(c.alias), rest, acc);
    } else {
      assert AliasBytes(c) + rest == rest;
    }
  }

  lemma ResponseField(c: Config, rest: seq<Byte>, acc: Decoded)
    requires acc.responseTopic == None && (c.responseTopic.Some? ==> |c.responseTopic.value| < 65536)
    ensures Decode(ResponseBytes(c) + rest, acc) == Decode(rest, acc.(responseTopic := c.responseTopic))
  {
    if c.responseTopic.Some? {
      TextField(RESPONSE_TOPIC, c.responseTopic.value, rest, acc);
    } else {
      assert ResponseBytes(c) + rest == rest;
    }
  }

  lemma CorrelationField(c: Config, rest: seq<Byte>, acc: Decoded)
    requires acc.correlation == None && |c.correlation| < 65536
    ensures Decode(CorrelationBytes(c) + rest, acc) ==
            Decode(rest, acc.(correlation := if c.correlation != [] then Some(c.correlation) else None))
  {
    if c.correlation != [] {
      TextField(CORRELATION_DATA, c.correlation, rest, acc);
    } else {
      assert CorrelationBytes(c) + rest == rest;
    }
  }

  lemma ContentField(c: Config, rest: seq<Byte>, acc: Decoded)
    requires acc.contentType == None && (c.contentType.Some? ==> |c.contentType.value| < 65536)
    ensures Decode(ContentBytes(c) + rest, acc) == Decode(rest, acc.(contentType := c.contentType))
  {
    if c.contentType.Some? {
      TextField(CONTENT_TYPE, c.contentType.value, rest, acc);
    } else {
      assert ContentBytes(c) + rest == rest;
    }
  }

  lemma DecodeUser(s: seq<Byte>, acc: Decoded, e: nat, e2: nat)
    requires s != [] && s[0] == USER_PROPERTY
    requires TextEnd(s[1..]) == Some(e) && TextEnd(s[1..][e..]) == Some(e2)
    ensures Decode(s, acc) ==
            Decode(s[1..][e..][e2..], acc.(user := acc.user + [UserProperty(s[1..][2..e], s[1..][e..][2..e2])]))
  {
  }

  lemma OneUser(s: seq<Byte>, u: UserProperty, rest: seq<Byte>, acc: Decoded)
    requires |u.key| < 65536 && |u.value| < 65536
    requires s == [USER_PROPERTY] + Text(u.key) + Text(u.value) + rest
    ensures Decode(s, acc) == Decode(rest, acc.(user := acc.user + [u]))
  {
    assert s[1..] == Text(u.key) + (Text(u.value) + rest);
    TextReads(u.key, Text(u.value) + rest);
    TextReads(u.value, rest);
    DecodeUser(s, acc, 2 + |u.key|, 2 + |u.value|);
  }

  lemma UserBytesFollow(user: seq<UserProperty>, rest: seq<Byte>)
    requires user != []
    ensures UserBytes(user) + rest == [USER_PROPERTY] + Text(user[0].key) + Text(user[0].value) + (UserBytes(user[1..]) + rest)
  {
  }

  lemma {:induction false} UserFields(user: seq<UserProperty>, rest: seq<Byte>, acc: Decoded)
    requires forall u :: u in user ==> |u.key| < 65536 && |u.value| < 65536
    ensures Decode(UserBytes(user) + rest, acc) == Decode(rest, acc.(user := acc.user + user))
    decreases |user|
  {
    if user == [] {
      assert UserBytes(user) + rest == rest && acc.user + user == acc.user;
    } else {
      FirstUser(user, rest, acc);
      Reassociate(acc.user, user);
      UserFields(user[1..], rest, acc.(user := acc.user + [user[0]]));
    }
  }

  lemma Reassociate(a: seq<UserProperty>, b: seq<UserProperty>)
    requires b != []
    ensures a + [b[0]] + b[1..] == a + b
  {
  }

  lemma FirstUser(user: seq<UserProperty>, rest: seq<Byte>, acc: Decoded)
    requires user != [] && |user[0].key| < 65536 && |user[0].value| < 65536
    ensures Decode(UserBytes(user) + rest, acc) == Decode(UserBytes(user[1..]) + rest, acc.(user := acc.user + [user[0]]))
  {
    UserBytesFollow(user, rest);
    OneUser(UserBytes(user) + rest, user[0], UserBytes(user[1..]) + rest, acc);
  }

  /** The section reads back as the properties that were set, user properties in order. */
  lemma PropertiesRoundTrip(c: Config)
    requires Representable(c)
    ensures Decode(PropertyBytes(c), NoProperties) == Done(Expected(c))
  {
    var a0 := NoProperties.(payloadFormat := if c.payloadFormat then 1 else 0);
    FormatField(c, AfterFormat(c), NoProperties);
    var a1 := a0.(expiry := c.expiry);
    ExpiryField(c, AfterExpiry(c), a0);
    var a2 := a1.(alias := c.alias);
    AliasField(c, AfterAlias(c), a1);
    var a3 := a2.(responseTopic := c.responseTopic);
    ResponseField(c, AfterResponse(c), a2);
    var a4 := a3.(correlation := if c.correlation != [] then Some(c.correlation) else None);
    CorrelationField(c, AfterCorrelation(c), a3);
    UserFields(c.user, ContentBytes(c), a4);
    assert a4.user + c.user == c.user;
    LastField(c, a4.(user := c.user));
  }

  lemma LastField(c: Config, acc: Decoded)
    requires acc.contentType == None && (c.contentType.Some? ==> |c.contentType.value| < 65536)
    ensures Decode(ContentBytes(c), acc) == Done(acc.(contentType := c.contentType))
  {
    ContentField(c, [], acc);
    assert ContentBytes(c) + [] == ContentBytes(c);
  }
}
