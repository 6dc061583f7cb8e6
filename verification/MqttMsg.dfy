/** The MQTT 3.1.1 packet printer and parsers of lib/mqtt_msg.c. */
module MqttMsg {
  import opened Arithmetic
  import opened Bytes
  import Varint

  const MAX_FIXED_HEADER_SIZE := 5
  const MAX_TOPIC := 65535

  /** size_t on the ESP32. */
  const SIZE_MOD := 0x1_0000_0000

  const CONNECT := 1
  const CONNACK := 2
  const PUBLISH := 3
  const PUBACK := 4
  const PUBREC := 5
  const PUBREL := 6
  const PUBCOMP := 7
  const SUBSCRIBE := 8
  const SUBACK := 9
  const UNSUBSCRIBE := 10
  const UNSUBACK := 11
  const PINGREQ := 12
  const PINGRESP := 13
  const DISCONNECT := 14

  // ---------- the first byte ----------

  function FirstByte(typ: int, dup: int, qos: int, retain: int): Byte {
    typ % 16 * 16 + dup % 2 * 8 + qos % 4 * 2 + retain % 2
  }

  function GetType(first: Byte): nat { first / 16 }

  function GetDup(first: Byte): nat { first / 8 % 2 }

  function GetQos(first: Byte): nat { first / 2 % 4 }

  function GetRetain(first: Byte): nat { first % 2 }

  /** mqtt_set_dup: OR with 0x08. */
  function SetDup(first: Byte): Byte {
    if GetDup(first) == 1 then first else first + 8
  }

  lemma FirstByteSum(typ: nat, dup: nat, qos: nat, retain: nat)
    requires typ < 16 && dup < 2 && qos < 4 && retain < 2
    ensures FirstByte(typ, dup, qos, retain) == typ * 16 + dup * 8 + qos * 2 + retain
  {
  }

  lemma HighFields(b: Byte, typ: nat, dup: nat, low: nat)
    requires dup < 2 && low < 8 && b == typ * 16 + dup * 8 + low
    ensures GetType(b) == typ && GetDup(b) == dup
  {
  }

  lemma LowFields(b: Byte, high: nat, qos: nat, retain: nat)
    requires qos < 4 && retain < 2 && b == high * 8 + qos * 2 + retain
    ensures GetQos(b) == qos && GetRetain(b) == retain
  {
  }

  lemma FirstByteRoundTrip(typ: nat, dup: nat, qos: nat, retain: nat)
    requires typ < 16 && dup < 2 && qos < 4 && retain < 2
    ensures var b := FirstByte(typ, dup, qos, retain);
            GetType(b) == typ && GetDup(b) == dup && GetQos(b) == qos && GetRetain(b) == retain
    ensures SetDup(FirstByte(typ, dup, qos, retain)) == FirstByte(typ, 1, qos, retain)
  {
    var b := FirstByte(typ, dup, qos, retain);
    FirstByteSum(typ, dup, qos, retain);
    FirstByteSum(typ, 1, qos, retain);
    HighFields(b, typ, dup, qos * 2 + retain);
    LowFields(b, typ * 2 + dup, qos, retain);
  }

  lemma FirstByteInverse(first: Byte)
    ensures first == FirstByte(GetType(first), GetDup(first), GetQos(first), GetRetain(first))
  {
    var a, b := first / 2, first / 8;
    DivTwice(first, 2, 4);
    DivTwice(first, 8, 2);
    FirstByteSum(GetType(first), GetDup(first), GetQos(first), GetRetain(first));
    assert first == 2 * a + GetRetain(first) && a == 4 * b + GetQos(first) && b == 2 * GetType(first) + GetDup(first);
  }

  /** mqtt_has_valid_msg_hdr: the flag bits the standard fixes for each packet type. */
  predicate ValidFirstByte(first: Byte) {
    var typ := GetType(first);
    if typ == PUBLISH then
      GetQos(first) < 3 && (GetQos(first) > 0 || GetDup(first) == 0)
    else if typ in {PUBREL, SUBSCRIBE, UNSUBSCRIBE} then
      first % 16 == 2
    else
      1 <= typ <= 14 && first % 16 == 0
  }

  // ---------- what a packet is ----------

  /** A fixed header announcing `remaining` bytes, followed by `body`. */
  function Framed(first: Byte, remaining: nat, body: seq<Byte>): seq<Byte> {
    [first] + Varint.Encode(remaining) + body
  }

  function Packet(first: Byte, body: seq<Byte>): seq<Byte> {
    Framed(first, |body|, body)
  }

  function PublishHeader(topic: seq<Byte>, qos: nat, id: nat): seq<Byte> {
    Be16(|topic|) + topic + if qos > 0 then Be16(id) else []
  }

  /** A whole PUBLISH as the standard lays it out, built in one piece. */
  function PublishPacket(topic: seq<Byte>, payload: seq<Byte>, qos: nat, retain: int, id: nat): seq<Byte> {
    Packet(FirstByte(PUBLISH, 0, qos, retain), PublishHeader(topic, qos, id) + payload)
  }

  /** A complete control packet: valid flags, a terminated length field of at most four bytes,
      and exactly as many bytes after it as it says (not necessarily the shortest encoding). */
  predicate WellFormed(p: seq<Byte>) {
    && |p| >= 2
    && ValidFirstByte(p[0])
    && Varint.Terminated(p[1..])
    && Varint.Count(p[1..]) <= 4
    && |p| == HeaderLength(p) + Varint.Value(p[1..])
  }

  /** Length of the fixed header at the start of `p`. */
  function HeaderLength(p: seq<Byte>): nat
    requires p != []
  {
    1 + Varint.Count(p[1..])
  }

  lemma PacketWellFormed(first: Byte, body: seq<Byte>)
    requires ValidFirstByte(first) && |body| <= Varint.MAX_VALUE
    ensures WellFormed(Packet(first, body))
    ensures HeaderLength(Packet(first, body)) == 1 + |Varint.Encode(|body|)|
  {
    assert Packet(first, body)[1..] == Varint.Encode(|body|) + body;
    Varint.RoundTrip(|body|, body);
    Varint.EncodedLength(|body|);
  }

  /** A header that announces another length than the body has is not a packet. */
  lemma WrongRemainingLength(first: Byte, remaining: nat, body: seq<Byte>)
    requires ValidFirstByte(first) && remaining <= Varint.MAX_VALUE
    ensures WellFormed(Framed(first, remaining, body)) <==> remaining == |body|
  {
    assert Framed(first, remaining, body)[1..] == Varint.Encode(remaining) + body;
    Varint.RoundTrip(remaining, body);
    Varint.EncodedLength(remaining);
  }

  // ---------- identifiers ----------

  /** What uint16_t last_message_id can hold. */
  type Counter = n: nat | n < 65536

  /** The id after `last` of the incremental allocator: sixteen bits, never zero. */
  function NextId(last: Counter): (id: Counter)
    ensures 1 <= id
  {
    if (last + 1) % 65536 == 0 then 1 else (last + 1) % 65536
  }

  /** The k-th id allocated from counter `last`, counting from zero. */
  function Allocated(last: Counter, k: nat): (id: Counter)
    ensures 1 <= id
  {
    if k == 0 then NextId(last) else NextId(Allocated(last, k - 1))
  }

  lemma {:induction false} AllocatedClosedForm(last: Counter, k: nat)
    ensures Allocated(last, k) == (Allocated(last, 0) - 1 + k) % 65535 + 1
  {
    if k > 0 {
      AllocatedClosedForm(last, k - 1);
      ModNext(Allocated(last, 0) - 1 + (k - 1), 65535);
    }
  }

  /** Any 65535 consecutive allocations are pairwise distinct, and the next one repeats the first. */
  lemma AllocationWindow(last: Counter, i: nat, j: nat)
    requires i <= j
    ensures j - i < 65535 ==> (Allocated(last, i) == Allocated(last, j) <==> i == j)
    ensures Allocated(last, i + 65535) == Allocated(last, i)
  {
    AllocatedClosedForm(last, i);
    AllocatedClosedForm(last, j);
    AllocatedClosedForm(last, i + 65535);
    var a := Allocated(last, 0) - 1;
    assert (a + i + 65535) % 65535 == (a + i) % 65535;
    var q := (a + j) / 65535 - (a + i) / 65535;
    assert j - i == 65535 * q + (a + j) % 65535 - (a + i) % 65535;
  }

  // ---------- the printer ----------

  function Payload(data: Option<seq<Byte>>, dataLength: int): seq<Byte>
    requires data.Some? ==> 0 <= dataLength <= |data.value|
  {
    if data.Some? then data.value[..dataLength] else []
  }

  function HeaderSize(topic: seq<Byte>, qos: nat): nat {
    2 + |topic| + if qos > 0 then 2 else 0
  }

  /** The topic is there and the buffer holds the variable header. */
  predicate HeaderFits(capacity: nat, topic: seq<Byte>, data: Option<seq<Byte>>, dataLength: int, qos: nat) {
    && topic != []
    && MAX_FIXED_HEADER_SIZE + HeaderSize(topic, qos) <= capacity
    && (data.None? ==> dataLength <= 0)
  }

  /** When a publish can be built at all: the remaining length can be encoded, too. The payload need not fit. */
  predicate PublishFits(capacity: nat, topic: seq<Byte>, data: Option<seq<Byte>>, dataLength: int, qos: nat) {
    && HeaderFits(capacity, topic, data, dataLength, qos)
    && HeaderSize(topic, qos) + (if data.Some? then dataLength else 0) <= Varint.MAX_VALUE
  }

  /** Building a publish draws an id, even if its two bytes then do not fit. */
  predicate DrawsId(capacity: nat, topic: seq<Byte>, data: Option<seq<Byte>>, dataLength: int, qos: nat) {
    && qos > 0 && topic != []
    && MAX_FIXED_HEADER_SIZE + 2 + |topic| <= capacity
    && (data.None? ==> dataLength <= 0)
  }

  // ---------- the fragment fields ----------

  /** fragmented_msg_data_offset and fragmented_msg_total_length. Both outlive the message they were set for. */
  datatype Fragment = Fragment(offset: nat, total: nat)

  /** The remaining length that fini_message announces for a body of `body` bytes. */
  function Announced(f: Fragment, body: nat): nat {
    if f.total >= MAX_FIXED_HEADER_SIZE then f.total - MAX_FIXED_HEADER_SIZE else body
  }

  /** What fini_message makes of a body; [] when the length cannot be encoded. */
  function Printed(f: Fragment, first: Byte, body: seq<Byte>): seq<Byte> {
    if Announced(f, |body|) <= Varint.MAX_VALUE then Framed(first, Announced(f, |body|), body) else []
  }

  function AfterPrinting(f: Fragment, body: nat): Fragment {
    if Announced(f, body) <= Varint.MAX_VALUE then
      f.(offset := (f.offset + |Varint.Encode(Announced(f, body))| - 4) % SIZE_MOD)
    else f
  }

  /** The payload goes out in fragments. */
  predicate IsCut(capacity: nat, header: nat, payload: nat) {
    MAX_FIXED_HEADER_SIZE + header + payload > capacity
  }

  function AfterAppending(f: Fragment, capacity: nat, header: nat, payload: nat): Fragment {
    if IsCut(capacity, header, payload) then
      Fragment(MAX_FIXED_HEADER_SIZE + header, MAX_FIXED_HEADER_SIZE + header + payload)
    else f.(total := 0)
  }

  /** The fragment fields after mqtt_msg_publish, whose header fits. `present` says that there is a payload, if only an
      empty one. */
  function AfterBuilding(f: Fragment, capacity: nat, present: bool, header: nat, payload: nat): Fragment {
    AfterPrinting(if present then AfterAppending(f, capacity, header, payload) else f, header + payload)
  }

  /** Assigning a size_t to an int. */
  function ToInt(x: int): int {
    var m := x % SIZE_MOD;
    if m < SIZE_MOD / 2 then m else m - SIZE_MOD
  }

  /** What the send loop takes for the part of the payload that its first write sent (`data_sent`). `f` is from before
      the message was built. */
  function FirstSent(f: Fragment, capacity: nat, header: nat, payload: nat): int {
    if IsCut(capacity, header, payload) then capacity - MAX_FIXED_HEADER_SIZE - header
    else ToInt(MAX_FIXED_HEADER_SIZE + header + payload - f.offset)
  }

  /** How many bytes the send loop still believes to owe when the whole packet is out. */
  function Surplus(f: Fragment, capacity: nat, header: nat, payload: nat): nat {
    var sent := FirstSent(f, capacity, header, payload);
    if !IsCut(capacity, header, payload) && payload > sent then payload - sent else 0
  }

  /** The send loop stops after the packet exactly if the packet goes out in fragments, or the old offset neither reaches
      beyond the header nor lies so far back that the difference no longer fits an int. Every buildable message is
      shorter than required here. */
  lemma SurplusExactly(f: Fragment, capacity: nat, header: nat, payload: nat)
    requires header + payload < 0x3000_0000
    ensures Surplus(f, capacity, header, payload) == 0 <==>
            || IsCut(capacity, header, payload)
            || MAX_FIXED_HEADER_SIZE + header + payload - SIZE_MOD / 2 < ToInt(f.offset) <= MAX_FIXED_HEADER_SIZE + header
    ensures !IsCut(capacity, header, payload) && ToInt(f.offset) > MAX_FIXED_HEADER_SIZE + header ==>
            Surplus(f, capacity, header, payload) == ToInt(f.offset) - MAX_FIXED_HEADER_SIZE - header
  {
  }

  /** With no total pending a printed message is a packet; with one pending it is none, unless the total is just that
      of the message. */
  lemma PrintedExactly(f: Fragment, first: Byte, body: seq<Byte>)
    requires ValidFirstByte(first) && |body| <= Varint.MAX_VALUE && (f.total == 0 || f.total >= MAX_FIXED_HEADER_SIZE)
    ensures WellFormed(Printed(f, first, body)) <==> f.total == 0 || f.total == MAX_FIXED_HEADER_SIZE + |body|
    ensures WellFormed(Printed(f, first, body)) ==> Printed(f, first, body) == Packet(first, body)
  {
    if Announced(f, |body|) <= Varint.MAX_VALUE {
      WrongRemainingLength(first, Announced(f, |body|), body);
    }
  }

  lemma SplicedWindow(before: seq<Byte>, at: nat, inserted: seq<Byte>, after: seq<Byte>, end: nat)
    requires at + |inserted| <= end <= |before|
    requires after == before[..at] + inserted + before[at + |inserted|..]
    ensures after[at..end] == inserted + before[at + |inserted|..end]
  {
  }

  /** esp_mqtt_topic_t. */
  datatype Filter = Filter(name: seq<Byte>, qos: nat)

  predicate BodyFits(capacity: nat, body: seq<Byte>) {
    MAX_FIXED_HEADER_SIZE + |body| <= capacity
  }

  predicate AllNamed(topics: seq<Filter>) {
    forall i :: 0 <= i < |topics| ==> topics[i].name != []
  }

  function SubscribeBody(topics: seq<Filter>, id: nat): seq<Byte> {
    if topics == [] then Be16(id)
    else
      var t := topics[|topics| - 1];
      SubscribeBody(topics[..|topics| - 1], id) + (Be16(|t.name|) + t.name) + [t.qos % 256]
  }

  function UnsubscribeBody(topic: seq<Byte>, id: nat): seq<Byte> {
    Be16(id) + (Be16(|topic|) + topic)
  }

  lemma SubscribeHasId(topics: seq<Filter>, id: nat)
    ensures |SubscribeBody(topics, id)| >= 2
  {
  }

  lemma SubscribeGrows(topics: seq<Filter>, i: nat, id: nat)
    requires i < |topics|
    ensures SubscribeBody(topics[..i + 1], id) ==
            SubscribeBody(topics[..i], id) + (Be16(|topics[i].name|) + topics[i].name) + [topics[i].qos % 256]
    ensures |SubscribeBody(topics, id)| >= |SubscribeBody(topics[..i], id)| + 3 + |topics[i].name|
    decreases |topics| - i
  {
    assert topics[..i + 1][..i] == topics[..i];
    if i + 1 < |topics| {
      SubscribeGrows(topics, i + 1, id);
    } else {
      assert topics[..i + 1] == topics;
    }
  }

  datatype AckKind = Puback | Pubrec | Pubrel | Pubcomp

  function AckType(kind: AckKind): nat {
    match kind
    case Puback => PUBACK
    case Pubrec => PUBREC
    case Pubrel => PUBREL
    case Pubcomp => PUBCOMP
  }

  function AckFirstByte(kind: AckKind): Byte {
    FirstByte(AckType(kind), 0, if kind == Pubrel then 1 else 0, 0)
  }

  lemma AckBytes(first: Byte, id: nat)
    ensures Packet(first, Be16(id)) == [first, 2, Be16(id)[0], Be16(id)[1]]
  {
  }

  /** mqtt_connection_t with the mqtt_message_t inside it. Packets are built right-aligned behind
      five reserved bytes; `dataOffset` is where the finished one starts. */
  class Connection {
    const buffer: array<Byte>
    var lastMessageId: Counter
    var dataOffset: nat
    var length: nat
    var fragmentedTotal: nat
    var fragmentedOffset: nat

    constructor (bufferSize: nat)
      requires MAX_FIXED_HEADER_SIZE <= bufferSize < 0x4000_0000
      ensures Valid() && fresh(buffer) && buffer.Length == bufferSize
      ensures length == 0 && Fragmented() == Fragment(0, 0) && lastMessageId == 0
    {
      buffer := new Byte[bufferSize];
      lastMessageId, dataOffset, length, fragmentedTotal, fragmentedOffset := 0, 0, 0, 0, 0;
    }

    ghost predicate Valid()
      reads this
    {
      && MAX_FIXED_HEADER_SIZE <= buffer.Length < 0x4000_0000
      && dataOffset + length <= buffer.Length
      && (fragmentedTotal == 0 || fragmentedTotal >= MAX_FIXED_HEADER_SIZE)
      && fragmentedOffset < SIZE_MOD
    }

    function Fragmented(): Fragment
      reads this
    {
      Fragment(fragmentedOffset, fragmentedTotal)
    }

    /** The finished message. */
    function Outbound(): seq<Byte>
      requires dataOffset + length <= buffer.Length
      reads this, buffer
    {
      buffer[dataOffset..dataOffset + length]
    }

    /** The bytes appended so far while a message is under construction. */
    ghost predicate Building(body: seq<Byte>)
      reads this, buffer
    {
      && MAX_FIXED_HEADER_SIZE <= buffer.Length < 0x4000_0000
      && MAX_FIXED_HEADER_SIZE <= length <= buffer.Length
      && body == buffer[MAX_FIXED_HEADER_SIZE..length]
    }

    /** Stores `bytes` from index `at` on, one after the other. */
    method Store(at: nat, bytes: seq<Byte>)
      requires at + |bytes| <= buffer.Length
      modifies buffer
      ensures buffer[..] == old(buffer[..at]) + bytes + old(buffer[at + |bytes|..])
    {
      for j := 0 to |bytes|
        invariant buffer[..] == old(buffer[..at]) + bytes[..j] + old(buffer[at + j..])
      {
        buffer[at + j] := bytes[j];
      }
    }

    method CopyIn(bytes: seq<Byte>)
      requires length + |bytes| <= buffer.Length
      modifies this`length, buffer
      ensures length == old(length) + |bytes|
      ensures buffer[..length] == old(buffer[..length]) + bytes
    {
      Store(length, bytes);
      length := length + |bytes|;
      assert buffer[..length] == buffer[..][..length];
    }

    method AppendString(text: seq<Byte>, ghost body: seq<Byte>) returns (r: int)
      requires Building(body)
      modifies this`length, buffer
      ensures r == -1 <==> old(length) + |text| + 2 > buffer.Length
      ensures r == -1 ==> length == old(length)
      ensures r != -1 ==> r == |text| + 2 && Building(body + (Be16(|text|) + text))
    {
      if length + |text| + 2 > buffer.Length {
        return -1;
      }
      buffer[length] := |text| / 256 % 256;
      length := length + 1;
      buffer[length] := |text| % 256;
      length := length + 1;
      CopyIn(text);
      return |text| + 2;
    }

    /** Allocates an id when given zero; returns zero when the two bytes do not fit. */
    method AppendMessageId(messageId: nat, ghost body: seq<Byte>) returns (id: nat)
      requires Building(body) && messageId < 65536
      modifies this`length, this`lastMessageId, buffer
      ensures lastMessageId == if messageId == 0 then NextId(old(lastMessageId)) else old(lastMessageId)
      ensures id == 0 <==> old(length) + 2 > buffer.Length
      ensures id == 0 ==> length == old(length)
      ensures id != 0 ==> id == (if messageId == 0 then lastMessageId else messageId) && Building(body + Be16(id))
    {
      id := messageId;
      ghost var tries := 0;
      while id == 0
        modifies this`lastMessageId
        invariant 0 <= tries <= 2 && id < 65536
        invariant messageId != 0 ==> id == messageId && lastMessageId == old(lastMessageId)
        invariant messageId == 0 && tries == 0 ==> id == 0 && lastMessageId == old(lastMessageId)
        invariant messageId == 0 && tries == 1 ==> id == lastMessageId == (old(lastMessageId) + 1) % 65536
        invariant messageId == 0 && tries == 2 ==> id == lastMessageId == NextId(old(lastMessageId)) == 1
        decreases 2 - tries
      {
        lastMessageId := (lastMessageId + 1) % 65536;
        id := lastMessageId;
        tries := tries + 1;
      }
      if length + 2 > buffer.Length {
        return 0;
      }
      CopyIn([id / 256, id % 256]);
    }

    method FailMessage()
      modifies this`dataOffset, this`length
      ensures dataOffset == 0 && length == 0
    {
      dataOffset, length := 0, 0;
    }

    /** The end of fini_message: the header goes just before the body. `fragmentedOffset` moves back by
        the reserved bytes left over, modulo 2^32. */
    method PlaceHeader(header: seq<Byte>, ghost body: seq<Byte>)
      requires Building(body) && |header| <= MAX_FIXED_HEADER_SIZE
      modifies this`dataOffset, this`length, this`fragmentedOffset, buffer
      ensures dataOffset == MAX_FIXED_HEADER_SIZE - |header| && dataOffset + length == old(length)
      ensures Outbound() == header + body
      ensures fragmentedOffset == (old(fragmentedOffset) - dataOffset) % SIZE_MOD
    {
      var offs := MAX_FIXED_HEADER_SIZE - |header|;
      length := length - offs;
      dataOffset := offs;
      fragmentedOffset := (fragmentedOffset - offs) % SIZE_MOD;
      ghost var before := buffer[..];
      Store(offs, header);
      SplicedWindow(before, offs, header, buffer[..], old(length));
      assert before[MAX_FIXED_HEADER_SIZE..old(length)] == body;
      assert Outbound() == buffer[..][offs..old(length)];
    }

    /** Writes the fixed header just before the body. The length it announces is the body's, unless a
        fragment total is set. `fragmentedOffset` moves back by the unused reserved bytes, modulo 2^32. */
    method FiniMessage(typ: int, dup: int, qos: int, retain: int, ghost body: seq<Byte>)
      requires Building(body)
      requires (fragmentedTotal == 0 || fragmentedTotal >= MAX_FIXED_HEADER_SIZE) && fragmentedOffset < SIZE_MOD
      modifies this`dataOffset, this`length, this`fragmentedOffset, buffer
      ensures dataOffset + length <= buffer.Length && fragmentedOffset < SIZE_MOD
      ensures Fragmented() == AfterPrinting(old(Fragmented()), |body|)
      ensures Outbound() == Printed(old(Fragmented()), FirstByte(typ, dup, qos, retain), body)
      ensures var total := Announced(old(Fragmented()), |body|);
              if total > Varint.MAX_VALUE then dataOffset == 0 && length == 0
              else dataOffset == 4 - |Varint.Encode(total)| && dataOffset + length == old(length) && length > 0
    {
      var messageLength := length - MAX_FIXED_HEADER_SIZE;
      var total := messageLength;
      if fragmentedTotal != 0 {
        total := fragmentedTotal - MAX_FIXED_HEADER_SIZE;
      }
      var encoded := Varint.Generate(total);
      Varint.EncodedLength(total);
      var lenBytes := |encoded|;
      if lenBytes + 1 > MAX_FIXED_HEADER_SIZE {
        FailMessage();
        return;
      }
      PlaceHeader([FirstByte(typ, dup, qos, retain)] + encoded, body);
    }

    /** The part of mqtt_msg_publish that appends the payload, or as much of it as fits. */
    method AppendPayload(data: Option<seq<Byte>>, dataLength: int, ghost header: seq<Byte>) returns (ghost body: seq<Byte>)
      requires Building(header) && (data.Some? ==> 0 <= dataLength <= |data.value|)
      modifies this`length, this`fragmentedOffset, this`fragmentedTotal, buffer
      ensures Building(body) && body <= header + Payload(data, dataLength)
      ensures Fragmented() ==
              if data.Some? then AfterAppending(old(Fragmented()), buffer.Length, |header|, dataLength) else old(Fragmented())
      ensures if data.Some? && IsCut(buffer.Length, |header|, dataLength) then length == buffer.Length
              else body == header + Payload(data, dataLength)
    {
      body := header;
      if data.Some? {
        if length + dataLength > buffer.Length {
          fragmentedOffset := length;
          var room := buffer.Length - length;
          CopyIn(data.value[..room]);
          fragmentedTotal := dataLength + fragmentedOffset;
          body := header + data.value[..room];
        } else {
          CopyIn(data.value[..dataLength]);
          fragmentedTotal := 0;
          body := header + data.value[..dataLength];
        }
      }
    }

    /** The part of mqtt_msg_publish that appends the topic and, for QoS above zero, a fresh id. */
    method AppendVariableHeader(topic: seq<Byte>, data: Option<seq<Byte>>, dataLength: int, qos: nat)
      returns (ok: bool, messageId: nat)
      requires Valid()
      modifies this`length, this`lastMessageId, buffer
      ensures lastMessageId == if DrawsId(buffer.Length, topic, data, dataLength, qos) then NextId(old(lastMessageId)) else old(lastMessageId)
      ensures messageId == 0 || messageId == lastMessageId == NextId(old(lastMessageId))
      ensures ok <==> HeaderFits(buffer.Length, topic, data, dataLength, qos)
      ensures ok ==> Building(PublishHeader(topic, qos, messageId))
      ensures ok ==> if qos > 0 then messageId != 0 else messageId == 0 && lastMessageId == old(lastMessageId)
    {
      messageId := 0;
      length := MAX_FIXED_HEADER_SIZE;
      if topic == [] {
        return false, messageId;
      }
      var appended := AppendString(topic, []);
      if appended < 0 || (data.None? && dataLength > 0) {
        return false, messageId;
      }
      ghost var header := [] + (Be16(|topic|) + topic);
      if qos > 0 {
        messageId := AppendMessageId(0, header);
        if messageId == 0 {
          return false, messageId;
        }
        assert header + Be16(messageId) == PublishHeader(topic, qos, messageId);
      } else {
        assert header == PublishHeader(topic, qos, messageId);
      }
      ok := true;
    }

    /** mqtt_msg_publish. `topic` is the C string without its terminator, [] for a null pointer. A payload
        that does not fit is cut at the end of the buffer and the fragment fields say so. */
    method MsgPublish(topic: seq<Byte>, data: Option<seq<Byte>>, dataLength: int, qos: nat, retain: int)
      returns (messageId: nat)
      requires Valid() && (data.Some? ==> 0 <= dataLength <= |data.value|)
      modifies this, buffer
      ensures Valid()
      ensures messageId == 0 || messageId == lastMessageId == NextId(old(lastMessageId))
      ensures lastMessageId == if DrawsId(buffer.Length, topic, data, dataLength, qos) then NextId(old(lastMessageId)) else old(lastMessageId)
      ensures HeaderFits(buffer.Length, topic, data, dataLength, qos) ==> (messageId != 0 <==> qos > 0)
      ensures Fragmented() ==
              if HeaderFits(buffer.Length, topic, data, dataLength, qos) then
                AfterBuilding(old(Fragmented()), buffer.Length, data.Some?,
                              |PublishHeader(topic, qos, messageId)|, |Payload(data, dataLength)|)
              else old(Fragmented())
      ensures data.None? && old(fragmentedTotal) != 0 ==>
                Outbound() == if HeaderFits(buffer.Length, topic, data, dataLength, qos) then
                                Printed(old(Fragmented()), FirstByte(PUBLISH, 0, qos, retain), PublishHeader(topic, qos, messageId))
                              else []
      ensures data.Some? || old(fragmentedTotal) == 0 ==>
                if HeaderFits(buffer.Length, topic, data, dataLength, qos) then
                  BuiltOrFailed(PublishHeader(topic, qos, messageId), Payload(data, dataLength), qos, retain, old(fragmentedOffset))
                else
                  length == 0
    {
      var ok;
      ok, messageId := AppendVariableHeader(topic, data, dataLength, qos);
      if !ok {
        FailMessage();
        return;
      }
      PrintPayload(data, dataLength, qos, retain, PublishHeader(topic, qos, messageId));
    }

    /** Its end, from the payload on. */
    method PrintPayload(data: Option<seq<Byte>>, dataLength: int, qos: nat, retain: int, ghost header: seq<Byte>)
      requires Building(header) && header != [] && (data.Some? ==> 0 <= dataLength <= |data.value|)
      requires (fragmentedTotal == 0 || fragmentedTotal >= MAX_FIXED_HEADER_SIZE) && fragmentedOffset < SIZE_MOD
      modifies this`dataOffset, this`length, this`fragmentedOffset, this`fragmentedTotal, buffer
      ensures Valid()
      ensures Fragmented() ==
              AfterBuilding(old(Fragmented()), buffer.Length, data.Some?, |header|, |Payload(data, dataLength)|)
      ensures data.None? ==> Outbound() == Printed(old(Fragmented()), FirstByte(PUBLISH, 0, qos, retain), header)
      ensures data.Some? || old(fragmentedTotal) == 0 ==>
                BuiltOrFailed(header, Payload(data, dataLength), qos, retain, old(fragmentedOffset))
    {
      ghost var body := AppendPayload(data, dataLength, header);
      ghost var clear := data.Some? || old(fragmentedTotal) == 0;
      FinishPublish(qos, retain, header, Payload(data, dataLength), body, clear, old(fragmentedOffset));
      assert data.None? ==> body == header;
    }

    ghost predicate Appended(header: seq<Byte>, payload: seq<Byte>, body: seq<Byte>, offsetBefore: nat)
      reads this
    {
      if MAX_FIXED_HEADER_SIZE + |header| + |payload| <= buffer.Length then
        && |body| == |header| + |payload| && fragmentedTotal == 0 && fragmentedOffset == offsetBefore
      else
        && length == buffer.Length && MAX_FIXED_HEADER_SIZE + |header| <= buffer.Length
        && fragmentedTotal == MAX_FIXED_HEADER_SIZE + |header| + |payload|
        && fragmentedOffset == MAX_FIXED_HEADER_SIZE + |header|
    }

    method FinishPublish(qos: nat, retain: int, ghost header: seq<Byte>, ghost payload: seq<Byte>, ghost body: seq<Byte>,
                         ghost clear: bool, ghost offsetBefore: nat)
      requires Building(body) && header != [] && body <= header + payload
      requires (fragmentedTotal == 0 || fragmentedTotal >= MAX_FIXED_HEADER_SIZE) && fragmentedOffset < SIZE_MOD
      requires clear ==> Appended(header, payload, body, offsetBefore)
      requires Announced(Fragmented(), |body|) == Announced(Fragmented(), |header| + |payload|)
      modifies this`dataOffset, this`length, this`fragmentedOffset, buffer
      ensures Valid()
      ensures Fragmented() == AfterPrinting(old(Fragmented()), |header| + |payload|)
      ensures Outbound() == Printed(old(Fragmented()), FirstByte(PUBLISH, 0, qos, retain), body)
      ensures clear ==> BuiltOrFailed(header, payload, qos, retain, offsetBefore)
    {
      FiniMessage(PUBLISH, 0, qos, retain, body);
      if clear && |header| + |payload| <= Varint.MAX_VALUE {
        Finished(header, payload, body, FirstByte(PUBLISH, 0, qos, retain), offsetBefore);
      }
    }

    lemma Finished(header: seq<Byte>, payload: seq<Byte>, body: seq<Byte>, first: Byte, offsetBefore: nat)
      requires dataOffset + length <= buffer.Length < 0x4000_0000
      requires header != [] && |header| + |payload| <= Varint.MAX_VALUE && body <= header + payload
      requires dataOffset == 4 - |Varint.Encode(|header| + |payload|)|
      requires Outbound() == Framed(first, |header| + |payload|, body)
      requires if MAX_FIXED_HEADER_SIZE + |header| + |payload| <= buffer.Length then
                 && |body| == |header| + |payload| && fragmentedTotal == 0
                 && fragmentedOffset == (offsetBefore - dataOffset) % SIZE_MOD
               else
                 && dataOffset + length == buffer.Length
                 && fragmentedTotal == MAX_FIXED_HEADER_SIZE + |header| + |payload|
                 && fragmentedOffset == (MAX_FIXED_HEADER_SIZE + |header| - dataOffset) % SIZE_MOD
                 && MAX_FIXED_HEADER_SIZE + |header| <= buffer.Length
      ensures BuiltPublish(header, payload, Packet(first, header + payload), offsetBefore)
    {
    }

    /** What the fields are once a publish with this header and payload was built: the finished message
        is `packet`, or the first bytes of it up to the end of the buffer. */
    ghost predicate BuiltPublish(header: seq<Byte>, payload: seq<Byte>, packet: seq<Byte>, offsetBefore: nat)
      reads this, buffer
    {
      && dataOffset <= 3 && 0 < length <= |packet|
      && dataOffset + |packet| == MAX_FIXED_HEADER_SIZE + |header| + |payload|
      && MAX_FIXED_HEADER_SIZE + |header| <= buffer.Length
      && dataOffset + length <= buffer.Length
      && Outbound() == packet[..length]
      && if MAX_FIXED_HEADER_SIZE + |header| + |payload| <= buffer.Length then
           && length == |packet| && fragmentedTotal == 0
           && fragmentedOffset == (offsetBefore - dataOffset) % SIZE_MOD
         else
           && dataOffset + length == buffer.Length
           && fragmentedTotal == MAX_FIXED_HEADER_SIZE + |header| + |payload|
           && fragmentedOffset == MAX_FIXED_HEADER_SIZE + |header| - dataOffset
    }

    ghost predicate BuiltOrFailed(header: seq<Byte>, payload: seq<Byte>, qos: nat, retain: int, offsetBefore: nat)
      reads this, buffer
    {
      if |header| + |payload| <= Varint.MAX_VALUE then
        BuiltPublish(header, payload, Packet(FirstByte(PUBLISH, 0, qos, retain), header + payload), offsetBefore)
      else
        length == 0
    }

    /** mqtt_msg_puback, _pubrec, _pubrel and _pubcomp. */
    method MsgAck(kind: AckKind, messageId: nat)
      requires Valid() && messageId < 65536
      modifies this, buffer
      ensures Valid()
      ensures lastMessageId == if messageId == 0 then NextId(old(lastMessageId)) else old(lastMessageId)
      ensures buffer.Length < 7 ==> length == 0 && Fragmented() == old(Fragmented())
      ensures buffer.Length >= 7 ==>
                && Outbound() == Printed(old(Fragmented()), AckFirstByte(kind), Be16(if messageId == 0 then lastMessageId else messageId))
                && Fragmented() == AfterPrinting(old(Fragmented()), 2)
    {
      length := MAX_FIXED_HEADER_SIZE;
      var id := AppendMessageId(messageId, []);
      if id == 0 {
        FailMessage();
        return;
      }
      FiniMessage(AckType(kind), 0, if kind == Pubrel then 1 else 0, 0, [] + Be16(id));
    }

    /** mqtt_msg_pingreq and mqtt_msg_disconnect. */
    method MsgEmpty(typ: nat)
      requires Valid()
      modifies this, buffer
      ensures Valid() && lastMessageId == old(lastMessageId)
      ensures Outbound() == Printed(old(Fragmented()), FirstByte(typ, 0, 0, 0), [])
      ensures Fragmented() == AfterPrinting(old(Fragmented()), 0)
    {
      length := MAX_FIXED_HEADER_SIZE;
      FiniMessage(typ, 0, 0, 0, []);
    }

    /** The end of mqtt_msg_connect: `body` is the variable header with the strings behind it. */
    method MsgConnect(body: seq<Byte>)
      requires Valid()
      modifies this, buffer
      ensures Valid() && lastMessageId == old(lastMessageId)
      ensures Outbound() == if BodyFits(buffer.Length, body) then Printed(old(Fragmented()), FirstByte(CONNECT, 0, 0, 0), body) else []
      ensures Fragmented() == if BodyFits(buffer.Length, body) then AfterPrinting(old(Fragmented()), |body|) else old(Fragmented())
    {
      length := MAX_FIXED_HEADER_SIZE;
      if length + |body| > buffer.Length {
        FailMessage();
        return;
      }
      CopyIn(body);
      FiniMessage(CONNECT, 0, 0, 0, body);
    }

    /** One filter with its QoS. */
    method AppendFilter(topic: Filter, ghost body: seq<Byte>) returns (ok: bool)
      requires Building(body)
      modifies this`length, buffer
      ensures ok <==> topic.name != [] && MAX_FIXED_HEADER_SIZE + |body| + 3 + |topic.name| <= buffer.Length
      ensures ok ==> Building(body + (Be16(|topic.name|) + topic.name) + [topic.qos % 256])
    {
      if topic.name == [] {
        return false;
      }
      var appended := AppendString(topic.name, body);
      if appended < 0 || length + 1 > buffer.Length {
        return false;
      }
      CopyIn([topic.qos % 256]);
      ok := true;
    }

    method AppendFilters(topics: seq<Filter>, ghost id: nat) returns (ok: bool)
      requires Building(Be16(id))
      modifies this`length, buffer
      ensures ok <==> BodyFits(buffer.Length, SubscribeBody(topics, id)) && AllNamed(topics)
      ensures ok ==> Building(SubscribeBody(topics, id))
    {
      assert topics[..0] == [] && topics[..|topics|] == topics;
      for i := 0 to |topics|
        invariant Building(SubscribeBody(topics[..i], id)) && AllNamed(topics[..i])
      {
        SubscribeGrows(topics, i, id);
        ok := AppendFilter(topics[i], SubscribeBody(topics[..i], id));
        if !ok {
          return;
        }
      }
      ok := true;
    }

    /** mqtt_msg_subscribe. */
    method MsgSubscribe(topics: seq<Filter>) returns (messageId: nat)
      requires Valid()
      modifies this, buffer
      ensures Valid() && lastMessageId == NextId(old(lastMessageId)) && (messageId == 0 || messageId == lastMessageId)
      ensures var body := SubscribeBody(topics, lastMessageId);
              if BodyFits(buffer.Length, body) && AllNamed(topics) then
                && messageId != 0
                && Outbound() == Printed(old(Fragmented()), FirstByte(SUBSCRIBE, 0, 1, 0), body)
                && Fragmented() == AfterPrinting(old(Fragmented()), |body|)
              else
                Outbound() == [] && Fragmented() == old(Fragmented())
    {
      length := MAX_FIXED_HEADER_SIZE;
      messageId := AppendMessageId(0, []);
      if messageId == 0 {
        SubscribeHasId(topics, lastMessageId);
        FailMessage();
        return;
      }
      assert [] + Be16(messageId) == Be16(messageId);
      var ok := AppendFilters(topics, messageId);
      if !ok {
        FailMessage();
        return;
      }
      FiniMessage(SUBSCRIBE, 0, 1, 0, SubscribeBody(topics, messageId));
    }

    /** mqtt_msg_unsubscribe. */
    method MsgUnsubscribe(topic: seq<Byte>) returns (messageId: nat)
      requires Valid()
      modifies this, buffer
      ensures Valid() && lastMessageId == if topic == [] then old(lastMessageId) else NextId(old(lastMessageId))
      ensures messageId == 0 || messageId == lastMessageId
      ensures var body := UnsubscribeBody(topic, lastMessageId);
              if BodyFits(buffer.Length, body) && topic != [] then
                && messageId != 0
                && Outbound() == Printed(old(Fragmented()), FirstByte(UNSUBSCRIBE, 0, 1, 0), body)
                && Fragmented() == AfterPrinting(old(Fragmented()), |body|)
              else
                Outbound() == [] && Fragmented() == old(Fragmented())
    {
      length, messageId := MAX_FIXED_HEADER_SIZE, 0;
      if topic == [] {
        FailMessage();
        return;
      }
      messageId := AppendMessageId(0, []);
      if messageId == 0 {
        FailMessage();
        return;
      }
      var appended := AppendString(topic, [] + Be16(messageId));
      if appended < 0 {
        FailMessage();
        return;
      }
      assert [] + Be16(messageId) + (Be16(|topic|) + topic) == UnsubscribeBody(topic, messageId);
      FiniMessage(UNSUBSCRIBE, 0, 1, 0, UnsubscribeBody(topic, messageId));
    }
  }
}
