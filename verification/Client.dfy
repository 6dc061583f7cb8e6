/** The client object of mqtt_client.c: its operations, step by step, against the functions of ClientModel. */
module Client {
  import opened Bytes
  import opened MqttMsg
  import opened Outbox
  import opened ClientModel
  import Transport
  import Varint

  /** An out-buffer that an acknowledgement fits. */
  const MIN_CAPACITY := 7

  function StrLen(data: seq<Byte>): (n: nat)
    requires 0 in data
    ensures n < |data| && data[n] == 0
    ensures 0 !in data[..n]
  {
    if data[0] == 0 then 0 else 1 + StrLen(data[1..])
  }

  /** The documented argument forms: no data and length zero; data of the given length; a C string. */
  predicate Acceptable(data: Option<seq<Byte>>, len: int) {
    match data
    case None => len >= 0
    case Some(d) => if len > 0 then len <= |d| else 0 in d
  }

  /** The length given, or that of the C string in front of its terminator. */
  function EffectiveLength(data: Option<seq<Byte>>, len: int): (n: int)
    requires Acceptable(data, len)
    ensures data.Some? ==> 0 <= n <= |data.value|
    ensures data.None? || len > 0 ==> n == len
    ensures data.Some? && len <= 0 ==> n < |data.value| && data.value[n] == 0 && 0 !in data.value[..n]
  {
    if len <= 0 && data.Some? then StrLen(data.value) else len
  }

  class Client {
    const conn: Connection
    const outbox: Outbox
    const transport: Transport.Transport
    const cfg: Config
    var connected: bool
    var waitPing: bool
    var keepaliveTick: int
    var refreshTick: int
    var lastRetransmit: int
    var pendingMsgId: int
    var pendingMsgType: int
    var pendingQos: int
    ghost var origin: seq<Item>
    ghost var log: seq<Entry>

    constructor (cfg: Config, transport: Transport.Transport)
      requires MIN_CAPACITY <= cfg.capacity < 0x4000_0000
      ensures Valid() && fresh(conn) && fresh(conn.buffer) && fresh(outbox)
      ensures this.cfg == cfg && this.transport == transport
      ensures Model() == State([], [], false, false, 0, 0, 0, [], Fragment(0, 0), 0, 0)
    {
      conn := new Connection(cfg.capacity);
      outbox := new Outbox();
      this.cfg, this.transport := cfg, transport;
      connected, waitPing, keepaliveTick, refreshTick, lastRetransmit := false, false, 0, 0, 0;
      pendingMsgId, pendingMsgType, pendingQos := 0, 0, 0;
      origin, log := [], [];
    }

    ghost predicate Valid()
      reads this, conn, outbox
    {
      && conn.Valid() && outbox.Valid()
      && MIN_CAPACITY <= cfg.capacity == conn.buffer.Length
      && |origin| == outbox.nextHandle
      && SortedHandles(outbox.items, |origin|)
    }

    ghost function Model(): State
      reads this, conn, outbox
    {
      State(outbox.items, origin, connected, waitPing, keepaliveTick, refreshTick, lastRetransmit, log,
            conn.Fragmented(), conn.lastMessageId, pendingQos)
    }

    /** What has gone to the broker so far, and how many messages not whole. */
    ghost function Moved(): Traffic
      reads transport
    {
      Traffic(transport.sent, transport.refused)
    }

    /** esp_mqtt_write of a message: all of it, or a proper prefix where the transport refuses to go on. */
    method Write(bytes: seq<Byte>) returns (ok: bool, ghost n: nat)
      modifies transport`sent, transport`refused
      ensures n <= |bytes| && (ok <==> n == |bytes|)
      ensures transport.sent == old(transport.sent) + bytes[..n]
      ensures transport.refused == old(transport.refused) + if n < |bytes| then 1 else 0
    {
      var widx, len := 0, |bytes|;
      while len > 0
        invariant 0 <= widx && 0 <= len && widx + len == |bytes|
        invariant transport.sent == old(transport.sent) + bytes[..widx] && transport.refused == old(transport.refused)
        decreases len
      {
        var wlen := transport.Write(bytes[widx..]);
        if wlen <= 0 {
          return false, widx;
        }
        widx := widx + wlen;
        len := len - wlen;
      }
      return true, widx;
    }

    method Abort()
      modifies this`connected, this`waitPing
      ensures !connected && !waitPing
    {
      connected, waitPing := false, false;
    }

    /** How a built publish stands before its first write: `chunk` bytes of the packet are in the buffer, and what the loop
        will take for the payload bytes among them leaves `surplus` bytes to send after the packet. */
    ghost predicate Ready(packet: seq<Byte>, payload: nat, chunk: int, surplus: nat)
      reads conn, conn.buffer
    {
      && conn.Valid() && 0 < conn.length == chunk <= |packet|
      && conn.Outbound() == packet[..chunk]
      && var taken := ToInt(conn.length - conn.fragmentedOffset);
      && if chunk < |packet| then 0 <= taken == payload - (|packet| - chunk) && surplus == 0
         else surplus == if payload > taken then payload - taken else 0
    }

    lemma BuiltIsReady(header: seq<Byte>, payload: seq<Byte>, packet: seq<Byte>, f: Fragment)
      requires conn.Valid() && conn.BuiltPublish(header, payload, packet, f.offset)
      requires conn.dataOffset == 4 - |Varint.Encode(|header| + |payload|)|
      ensures Ready(packet, |payload|, FirstChunk(conn.buffer.Length, |header|, |payload|),
                    Surplus(f, conn.buffer.Length, |header|, |payload|))
    {
      TakenByFirst(f, conn.buffer.Length, |header|, |payload|, conn.length, conn.fragmentedOffset, conn.dataOffset);
    }

    lemma BuiltIsReadyIn(s: State, topic: seq<Byte>, payload: seq<Byte>, qos: nat, retain: int, id: nat)
      requires conn.Valid() && cfg.capacity == conn.buffer.Length
      requires conn.BuiltPublish(PublishHeader(topic, qos, id), payload, PublishPacket(topic, payload, qos, retain, id), s.frag.offset)
      requires conn.dataOffset == 4 - |Varint.Encode(HeaderSize(topic, qos) + |payload|)|
      ensures Ready(PublishPacket(topic, payload, qos, retain, id), |payload|,
                    FirstChunk(cfg.capacity, HeaderSize(topic, qos), |payload|), Excess(s, cfg, topic, payload, qos))
    {
      assert |PublishHeader(topic, qos, id)| == HeaderSize(topic, qos);
      BuiltIsReady(PublishHeader(topic, qos, id), payload, PublishPacket(topic, payload, qos, retain, id), s.frag);
    }

    /** make_publish: the id, zero for QoS 0, or -1. */
    method MakePublish(topic: seq<Byte>, data: Option<seq<Byte>>, len: int, qos: nat, retain: int) returns (id: int)
      requires Valid() && (if data.Some? then 0 <= len <= |data.value| else len >= 0 && conn.fragmentedTotal == 0)
      modifies conn, conn.buffer
      ensures Valid()
      ensures data.None? && len > 0 ==>
                id == -1 && conn.Fragmented() == old(conn.Fragmented()) && conn.lastMessageId == old(conn.lastMessageId)
      ensures data.Some? || len == 0 ==>
                var built := Built(old(Model()), cfg, topic, Payload(data, len), qos, NextId(old(conn.lastMessageId)));
                && conn.Fragmented() == built.frag && conn.lastMessageId == built.lastId
                && if Buildable(cfg, topic, Payload(data, len), qos) then
                     && id == (if qos > 0 then NextId(old(conn.lastMessageId)) else 0)
                     && Ready(PublishPacket(topic, Payload(data, len), qos, retain, id), |Payload(data, len)|,
                              FirstChunk(cfg.capacity, HeaderSize(topic, qos), |Payload(data, len)|),
                              Excess(old(Model()), cfg, topic, Payload(data, len), qos))
                     && (conn.fragmentedTotal == 0 <==> conn.length == |PublishPacket(topic, Payload(data, len), qos, retain, id)|)
                   else
                     id == -1
    {
      id := conn.MsgPublish(topic, data, len, qos, retain);
      if data.Some? || len == 0 {
        BuiltFields(old(Model()), cfg, topic, data, len, qos, NextId(old(conn.lastMessageId)), id);
      }
      if conn.length == 0 {
        return -1;
      }
      BuiltIsReadyIn(old(Model()), topic, Payload(data, len), qos, retain, id);
    }

    /** The storing half of mqtt_client_enqueue_publish, with mqtt_enqueue: the whole packet goes into the
        outbox, the part that is not in the out-buffer straight from the caller's data. */
    method StorePublish(data: Option<seq<Byte>>, len: int, qos: nat, id: nat, tick: int,
                        ghost packet: seq<Byte>, ghost header: seq<Byte>, ghost surplus: nat)
      requires Valid() && (if data.Some? then 0 <= len <= |data.value| else len >= 0)
      requires packet != [] && packet == header + Payload(data, len) && GetType(packet[0]) == PUBLISH
      requires Ready(packet, |Payload(data, len)|, conn.length, surplus)
      requires conn.fragmentedTotal == 0 <==> conn.length == |packet|
      modifies this`pendingMsgType, this`pendingMsgId, this`pendingQos, this`origin, conn`fragmentedTotal, outbox
      ensures Valid()
      ensures Model() == Enqueued(old(Model()).(pendingQos := qos, frag := AfterSending(old(Model()).frag, false)),
                                  id, PUBLISH, qos, packet, tick)
    {
      pendingMsgType := GetType(conn.Outbound()[0]);
      pendingMsgId := id;
      pendingQos := qos;
      var message := Message(conn.Outbound(), [], pendingMsgId, pendingMsgType, pendingQos);
      if conn.fragmentedTotal != 0 {
        var firstFragment := ToInt(conn.length - conn.fragmentedOffset);
        message := message.(remaining := data.value[firstFragment..len]);
        assert packet[conn.length..] == message.remaining;
      }
      Store(message, packet, tick);
      conn.fragmentedTotal := 0;
    }

    /** The same for a packet just built. */
    method StoreBuilt(topic: seq<Byte>, data: Option<seq<Byte>>, len: int, qos: nat, retain: int, id: nat, tick: int,
                      ghost surplus: nat)
      requires Valid() && (if data.Some? then 0 <= len <= |data.value| else len >= 0)
      requires Ready(PublishPacket(topic, Payload(data, len), qos, retain, id), |Payload(data, len)|, conn.length, surplus)
      requires conn.fragmentedTotal == 0 <==> conn.length == |PublishPacket(topic, Payload(data, len), qos, retain, id)|
      modifies this`pendingMsgType, this`pendingMsgId, this`pendingQos, this`origin, conn`fragmentedTotal, outbox
      ensures Valid()
      ensures Model() == Enqueued(old(Model()).(pendingQos := qos, frag := AfterSending(old(Model()).frag, false)),
                                  id, PUBLISH, qos, PublishPacket(topic, Payload(data, len), qos, retain, id), tick)
      ensures Ready(PublishPacket(topic, Payload(data, len), qos, retain, id), |Payload(data, len)|, conn.length, surplus)
      ensures conn.length == old(conn.length)
    {
      ghost var packet := PublishPacket(topic, Payload(data, len), qos, retain, id);
      ghost var front := PublishFront(topic, Payload(data, len), qos, retain, id);
      StorePublish(data, len, qos, id, tick, packet, front, surplus);
    }

    /** mqtt_client_enqueue_publish. */
    method EnqueuePublish(topic: seq<Byte>, data: Option<seq<Byte>>, len: int, qos: nat, retain: int, store: bool, tick: int)
      returns (ret: int)
      requires Valid() && (if data.Some? then 0 <= len <= |data.value| else len >= 0 && conn.fragmentedTotal == 0)
      modifies this, conn, conn.buffer, outbox
      ensures Valid()
      ensures data.None? && len > 0 ==> ret == -1 && Model() == old(Model())
      ensures data.Some? || len == 0 ==>
                var payload, id := Payload(data, len), NextId(old(conn.lastMessageId));
                var built := Built(old(Model()), cfg, topic, payload, qos, id);
                if Buildable(cfg, topic, payload, qos) then
                  && ret == (if qos > 0 then id else 0)
                  && Ready(PublishPacket(topic, payload, qos, retain, ret), |payload|,
                           FirstChunk(cfg.capacity, HeaderSize(topic, qos), |payload|),
                           Excess(old(Model()), cfg, topic, payload, qos))
                  && Model() == (if qos > 0 || store then
                                   Enqueued(built.(pendingQos := qos, frag := AfterSending(built.frag, false)), ret, PUBLISH, qos,
                                            PublishPacket(topic, payload, qos, retain, ret), tick)
                                 else built)
                else
                  ret == -1 && Model() == built
    {
      ret := MakePublish(topic, data, len, qos, retain);
      if ret < 0 {
        return -1;
      }
      if qos > 0 || store {
        StoreBuilt(topic, data, len, qos, retain, ret, tick, Excess(old(Model()), cfg, topic, Payload(data, len), qos));
      }
    }

    /** The next fragment: as much of the rest of the payload as the out-buffer holds. */
    method Refill(rest: seq<Byte>) returns (writeLen: nat)
      requires rest != [] && conn.Valid() && conn.fragmentedOffset == 0 && conn.fragmentedTotal == 0
      modifies conn`dataOffset, conn`length, conn.buffer
      ensures conn.Valid() && 0 < writeLen == conn.length <= |rest| && conn.Outbound() == rest[..writeLen]
    {
      writeLen := if |rest| > conn.buffer.Length then conn.buffer.Length else |rest|;
      conn.Store(0, rest[..writeLen]);
      conn.dataOffset := 0;
      conn.length := writeLen;
      assert conn.Outbound() == conn.buffer[..][..writeLen];
    }

    /** `n` bytes of `wire` are written and the next ones are in the out-buffer. The rest of `wire` are the last bytes of
        `memory`, which ends with the payload. */
    ghost predicate Sending(wire: seq<Byte>, memory: seq<Byte>, payload: nat, n: nat, remainingLen: int, currentData: int)
      reads conn, conn.buffer
    {
      && conn.Valid() && 0 < conn.length && n + conn.length <= |wire|
      && conn.Outbound() == wire[n..n + conn.length]
      && var rest := |wire| - n - conn.length;
      && rest <= |memory| && wire[|wire| - rest..] == memory[|memory| - rest..]
      && InStep(conn.length, conn.fragmentedOffset, rest, payload, remainingLen, currentData)
    }

    /** One round of the loop of esp_mqtt_client_publish: write the out-buffer, account for it, refill it. `data` starts
        at index `start` of `memory`, and `current` is relative to it. */
    method SendFragment(memory: seq<Byte>, start: nat, payload: nat, remaining: int, current: int, ghost wire: seq<Byte>, ghost n: nat)
      returns (ok: bool, sending: bool, remainingLen: int, currentData: int, ghost n': nat)
      requires start + payload == |memory| && Sending(wire, memory, payload, n, remaining, current)
      modifies transport`sent, transport`refused, conn`fragmentedOffset, conn`fragmentedTotal, conn`dataOffset, conn`length, conn.buffer
      ensures conn.Valid() && n <= n' <= |wire|
      ensures transport.sent == old(transport.sent) + wire[n..n']
      ensures ok ==> n' == n + old(conn.length) && conn.Fragmented() == Fragment(0, 0)
      ensures ok ==> if sending then Sending(wire, memory, payload, n', remainingLen, currentData) else n' == |wire|
      ensures !ok ==> n' < n + old(conn.length) && conn.Fragmented() == old(conn.Fragmented())
      ensures transport.refused == old(transport.refused) + if ok then 0 else 1
    {
      remainingLen, currentData, sending := remaining, current, false;
      ghost var m;
      ok, m := Write(conn.Outbound());
      n' := n + m;
      assert conn.Outbound()[..m] == wire[n..n'];
      if !ok {
        return;
      }
      var dataSent := ToInt(conn.length - conn.fragmentedOffset);
      conn.fragmentedOffset := 0;
      conn.fragmentedTotal := 0;
      remainingLen := remainingLen - dataSent;
      currentData := currentData + dataSent;
      if remainingLen > 0 {
        assert start + currentData == |memory| - (|wire| - n');
        var writeLen := Refill(memory[start + currentData..]);
        StillSending(wire, memory, payload, n', remainingLen, currentData);
        sending := true;
      }
    }

    lemma StillSending(wire: seq<Byte>, memory: seq<Byte>, payload: nat, n: nat, remainingLen: int, currentData: int)
      requires n <= |wire| && |wire| - n <= |memory| && wire[n..] == memory[|memory| - (|wire| - n)..]
      requires conn.Valid() && 0 < conn.length <= remainingLen == |wire| - n && conn.fragmentedOffset == 0
      requires conn.Outbound() == memory[|memory| - (|wire| - n)..][..conn.length]
      requires currentData + remainingLen == payload
      ensures Sending(wire, memory, payload, n, remainingLen, currentData)
    {
    }

    /** The loop of esp_mqtt_client_publish, over however many fragments and partial writes it takes. */
    method SendFragments(memory: seq<Byte>, start: nat, payload: nat, ghost wire: seq<Byte>)
      returns (ok: bool, ghost n: nat)
      requires start + payload == |memory| && Sending(wire, memory, payload, 0, payload, 0)
      modifies transport`sent, transport`refused, conn`fragmentedOffset, conn`fragmentedTotal, conn`dataOffset, conn`length, conn.buffer
      ensures n <= |wire| && (ok <==> n == |wire|)
      ensures transport.sent == old(transport.sent) + wire[..n]
      ensures transport.refused == old(transport.refused) + if n < |wire| then 1 else 0
      ensures conn.Valid()
      ensures conn.Fragmented() == if n >= old(conn.length) then Fragment(0, 0) else old(conn.Fragmented())
    {
      var remainingLen, currentData, sending := payload, 0, true;
      n, ok := 0, true;
      while sending
        invariant ok && conn.Valid() && n <= |wire|
        invariant transport.sent == old(transport.sent) + wire[..n]
        invariant transport.refused == old(transport.refused)
        invariant if n == 0 then sending && conn.length == old(conn.length) && conn.Fragmented() == old(conn.Fragmented())
                  else n >= old(conn.length) && conn.Fragmented() == Fragment(0, 0)
        invariant if sending then Sending(wire, memory, payload, n, remainingLen, currentData) else n == |wire|
        decreases |wire| - n, sending
      {
        ghost var m;
        ok, sending, remainingLen, currentData, m := SendFragment(memory, start, payload, remainingLen, currentData, wire, n);
        SentMore(old(transport.sent), wire, n, m);
        n := m;
        if !ok {
          return;
        }
      }
    }

    lemma SentMore(before: seq<Byte>, wire: seq<Byte>, n: nat, m: nat)
      requires n <= m <= |wire|
      ensures (before + wire[..n]) + wire[n..m] == before + wire[..m]
    {
    }

    /** The second half of esp_mqtt_client_publish, from line 2099 on. `qos > 0` messages are already stored under `id`;
        `before` is the memory in front of the payload. */
    method SendPublish(before: seq<Byte>, payload: seq<Byte>, qos: nat, id: nat, times: PublishTimes,
                       ghost packet: seq<Byte>, ghost front: seq<Byte>, ghost surplus: nat)
      returns (ret: int, ghost n: nat)
      requires Valid() && packet == front + payload && Ready(packet, |payload|, conn.length, surplus)
      requires connected ==> surplus <= |before| + |payload|
      requires qos > 0 ==> origin != []
      modifies this`connected, this`waitPing, this`log, transport`sent, transport`refused, outbox
      modifies conn`fragmentedOffset, conn`fragmentedTotal, conn`dataOffset, conn`length, conn.buffer
      ensures Valid()
      ensures var wire := packet + Tail(before + payload, surplus);
              && n <= |wire| && transport.sent == old(transport.sent) + wire[..n]
              && transport.refused == old(transport.refused) + (if old(connected) && n < |wire| then 1 else 0)
              && Model() == AfterStoring(old(Model()), wire, qos, id, times, n)
                            .(frag := AfterSending(old(Model()).frag, old(connected) && n >= old(conn.length)))
              && ret == if !old(connected) && qos == 0 then -1
                        else if old(connected) && n < |wire| then -1
                        else id
      ensures !old(connected) ==> n == 0
    {
      n := 0;
      if !connected {
        ret := SkipSending(qos, id, times, packet + Tail(before + payload, surplus));
      } else {
        StartsSending(before, payload, packet, front, surplus);
        ret, n := SendConnected(before, payload, qos, id, times, packet + Tail(before + payload, surplus));
      }
    }

    /** While not connected: nothing is sent, and what is too old leaves. */
    method SkipSending(qos: nat, id: nat, times: PublishTimes, ghost wire: seq<Byte>) returns (ret: int)
      requires Valid() && !connected
      modifies this`log, outbox, conn`fragmentedTotal
      ensures Valid() && ret == if qos > 0 then id else -1
      ensures Model() == AfterStoring(old(Model()), wire, qos, id, times, 0).(frag := AfterSending(old(Model()).frag, false))
    {
      ret := if qos > 0 then id else -1;
      DeleteExpiredMessages(times.expire);
      conn.fragmentedTotal := 0;
    }

    /** While connected: the send loop, and what follows it. */
    method SendConnected(before: seq<Byte>, payload: seq<Byte>, qos: nat, id: nat, times: PublishTimes,
                         ghost wire: seq<Byte>)
      returns (ret: int, ghost n: nat)
      requires Valid() && connected && Sending(wire, before + payload, |payload|, 0, |payload|, 0) && (qos > 0 ==> origin != [])
      modifies this`connected, this`waitPing, this`log, transport`sent, transport`refused, outbox
      modifies conn`fragmentedOffset, conn`fragmentedTotal, conn`dataOffset, conn`length, conn.buffer
      ensures Valid()
      ensures n <= |wire| && transport.sent == old(transport.sent) + wire[..n]
      ensures transport.refused == old(transport.refused) + if n < |wire| then 1 else 0
      ensures Model() == AfterStoring(old(Model()), wire, qos, id, times, n)
                         .(frag := AfterSending(old(Model()).frag, n >= old(conn.length)))
      ensures ret == if n < |wire| then -1 else id
    {
      var ok;
      ok, n := SendFragments(before + payload, |before|, |payload|, wire);
      ret := ConcludePublish(ok, qos, id, times, wire, n);
    }

    /** Its end, once the send loop is over. */
    method ConcludePublish(ok: bool, qos: nat, id: nat, times: PublishTimes, ghost wire: seq<Byte>, ghost n: nat) returns (ret: int)
      requires Valid() && connected && n <= |wire| && (ok <==> n == |wire|) && (qos > 0 ==> origin != [])
      modifies this`connected, this`waitPing, this`log, outbox, conn`fragmentedTotal
      ensures Valid() && ret == (if ok then id else -1)
      ensures Model() == AfterStoring(old(Model()), wire, qos, id, times, n)
                         .(frag := if ok then old(conn.Fragmented()) else AfterSending(old(conn.Fragmented()), false))
    {
      if qos > 0 {
        log := log + [WriteEntry(|origin| - 1, wire, n, false)];
      }
      if !ok {
        Abort();
        conn.fragmentedTotal := 0;
        return -1;
      }
      if qos > 0 {
        MarkSent(id, times.sent);
      }
      ret := id;
    }

    lemma StartsSending(before: seq<Byte>, payload: seq<Byte>, packet: seq<Byte>, front: seq<Byte>, surplus: nat)
      requires packet == front + payload && Ready(packet, |payload|, conn.length, surplus) && surplus <= |before| + |payload|
      ensures Sending(packet + Tail(before + payload, surplus), before + payload, |payload|, 0, |payload|, 0)
    {
    }

    method MarkSent(id: nat, tick: int)
      requires Valid()
      modifies outbox`items
      ensures Valid()
      ensures outbox.items == WithPending(WithTick(old(outbox.items), id, tick), id, Transmitted)
    {
      WithTickSorted(outbox.items, id, tick, |origin|);
      var _ := outbox.SetTick(id, tick);
      MarkTransmitted(id);
    }

    /** mqtt_delete_expired_messages, as configured without MQTT_REPORT_DELETED_MESSAGES. */
    method DeleteExpiredMessages(now: int)
      requires Valid()
      modifies this`log, outbox
      ensures Valid() && Model() == Expire(old(Model()), now)
    {
      ghost var gone := Dropped(outbox.items, Expired(now, EXPIRED_TIMEOUT_MS));
      KeptKeepsHandles(outbox.items, Expired(now, EXPIRED_TIMEOUT_MS), |origin|);
      var _ := outbox.DeleteExpired(now, EXPIRED_TIMEOUT_MS);
      log := log + Departures(gone, TimedOut);
    }

    /** esp_mqtt_client_publish after the check of the outbox limit. */
    method Submit(topic: seq<Byte>, data: Option<seq<Byte>>, length: int, qos: nat, retain: int, times: PublishTimes,
                  before: seq<Byte>) returns (ret: int, ghost n: nat)
      requires Valid() && (if data.Some? then 0 <= length <= |data.value| else length >= 0 && conn.fragmentedTotal == 0)
      requires !(qos > 0 && OverLimit(Model(), cfg, |Payload(data, length)|))
      requires connected && (data.Some? || length == 0) ==>
                 Excess(Model(), cfg, topic, Payload(data, length), qos) <= |before| + |Payload(data, length)|
      modifies this, conn, conn.buffer, outbox, transport`sent, transport`refused
      ensures Valid()
      ensures data.None? && length > 0 ==>
                ret == -1 && n == 0 && Model() == old(Model()) && transport.sent == old(transport.sent)
      ensures data.Some? || length == 0 ==>
                var payload, id := Payload(data, length), NextId(old(conn.lastMessageId));
                var wire := Wire(old(Model()), cfg, topic, payload, qos, retain, if qos > 0 then id else 0, before);
                && Model() == ClientModel.Publish(old(Model()), cfg, topic, payload, qos, retain, id, times, before, n)
                && n <= |wire| && transport.sent == old(transport.sent) + wire[..n]
                && transport.refused == old(transport.refused)
                                        + (if Buildable(cfg, topic, payload, qos) && old(connected) && n < |wire| then 1 else 0)
                && ret == (if !Buildable(cfg, topic, payload, qos) || (!old(connected) && qos == 0) || (old(connected) && n < |wire|) then
                             -1
                           else if qos > 0 then id else 0)
                && (!Buildable(cfg, topic, payload, qos) || !old(connected) ==> n == 0)
    {
      n := 0;
      ret := EnqueuePublish(topic, data, length, qos, retain, false, times.enqueue);
      if ret < 0 {
        return -1, n;
      }
      ghost var packet := PublishPacket(topic, Payload(data, length), qos, retain, ret);
      ghost var front := PublishFront(topic, Payload(data, length), qos, retain, ret);
      var payload := if data.Some? then data.value[..length] else [];
      PublishSteps(old(Model()), cfg, topic, Payload(data, length), qos, retain, NextId(old(conn.lastMessageId)), times, before);
      ret, n := SendPublish(before, payload, qos, ret, times, packet, front,
                            Excess(old(Model()), cfg, topic, Payload(data, length), qos));
    }

    /** esp_mqtt_client_publish. `before` is the memory in front of the data, as far as the C reads it. */
    method Publish(topic: seq<Byte>, data: Option<seq<Byte>>, len: int, qos: nat, retain: int, times: PublishTimes,
                   before: seq<Byte>) returns (ret: int, ghost n: nat)
      requires Valid() && Acceptable(data, len) && (data.None? ==> conn.fragmentedTotal == 0)
      requires connected && (data.Some? || len == 0) ==>
                 var payload := Payload(data, EffectiveLength(data, len));
                 Excess(Model(), cfg, topic, payload, qos) <= |before| + |payload|
      modifies this, conn, conn.buffer, outbox, transport`sent, transport`refused
      ensures Valid()
      ensures data.Some? || len == 0 ==>
                var payload := Payload(data, EffectiveLength(data, len));
                var id := NextId(old(conn.lastMessageId));
                var wire := Wire(old(Model()), cfg, topic, payload, qos, retain, if qos > 0 then id else 0, before);
                && Model() == ClientModel.Publish(old(Model()), cfg, topic, payload, qos, retain, id, times, before, n)
                && n <= |wire| && transport.sent == old(transport.sent) + wire[..n]
                && (ret == -2 <==> qos > 0 && OverLimit(old(Model()), cfg, |payload|))
                && (ret >= 0 <==> ret != -2 && Buildable(cfg, topic, payload, qos) && if old(connected) then n == |wire| else qos > 0)
                && (ret >= 0 ==> ret == if qos > 0 then id else 0)
                && (old(connected) && Buildable(cfg, topic, payload, qos) && ret != -2 ==>
                      transport.refused == old(transport.refused) + if n < |wire| then 1 else 0)
      ensures data.None? && len > 0 ==> ret < 0 && Model() == old(Model()) && transport.sent == old(transport.sent)
    {
      n := 0;
      var length := EffectiveLength(data, len);
      if cfg.outboxLimit > 0 && qos > 0 {
        if length + outbox.size > cfg.outboxLimit {
          return -2, n;
        }
      }
      ret, n := Submit(topic, data, length, qos, retain, times, before);
    }

    /** esp_mqtt_client_enqueue. */
    method Enqueue(topic: seq<Byte>, data: Option<seq<Byte>>, len: int, qos: nat, retain: int, store: bool, tick: int)
      returns (ret: int)
      requires Valid() && Acceptable(data, len) && (data.None? ==> conn.fragmentedTotal == 0)
      modifies this, conn, conn.buffer, outbox
      ensures Valid()
      ensures data.Some? || len == 0 ==>
                var payload := Payload(data, EffectiveLength(data, len));
                var id := NextId(old(conn.lastMessageId));
                && Model() == EnqueueOnly(old(Model()), cfg, topic, payload, qos, retain, store, id, tick)
                && (ret == -2 <==> OverLimit(old(Model()), cfg, |payload|))
                && (ret >= 0 <==> ret != -2 && Buildable(cfg, topic, payload, qos) && (qos > 0 || store))
                && (ret >= 0 ==> ret == (if qos > 0 then id else 0))
      ensures data.None? && len > 0 ==> ret < 0 && Model() == old(Model())
    {
      var length := EffectiveLength(data, len);
      if cfg.outboxLimit > 0 {
        if length + outbox.size > cfg.outboxLimit {
          return -2;
        }
      }
      ret := EnqueuePublish(topic, data, length, qos, retain, store, tick);
      if ret == 0 && !store {
        return -1;
      }
    }

    /** Stores the message in the out-buffer and marks it. */
    method StoreRequest(ghost typ: nat, id: nat, tick: int)
      requires Valid() && conn.length > 0 && GetType(conn.Outbound()[0]) == typ
      modifies this`pendingMsgId, this`pendingMsgType, this`origin, outbox
      ensures Valid()
      ensures Model() == Marked(Enqueued(old(Model()), id, typ, pendingQos, conn.Outbound(), tick), id, Transmitted)
    {
      pendingMsgId, pendingMsgType := id, GetType(conn.Outbound()[0]);
      ghost var packet := conn.Outbound();
      Store(Message(conn.Outbound(), [], pendingMsgId, pendingMsgType, pendingQos), packet, tick);
      MarkTransmitted(pendingMsgId);
    }

    method MarkTransmitted(id: int)
      requires Valid()
      modifies outbox`items
      ensures Valid() && Model() == Marked(old(Model()), id, Transmitted)
    {
      WithPendingSorted(outbox.items, id, Transmitted, |origin|);
      var _ := outbox.SetPending(id, Transmitted);
    }

    /** outbox_enqueue, remembering in `origin` what was stored. */
    method Store(message: Message, ghost packet: seq<Byte>, tick: int)
      requires Valid() && message.data + message.remaining == packet
      modifies this`origin, outbox
      ensures Valid()
      ensures Model() == Enqueued(old(Model()), message.msgId, message.msgType, message.qos, packet, tick)
    {
      ghost var item := Item(|origin|, message.msgId, message.msgType, message.qos, tick, Queued, packet);
      AppendSorted(outbox.items, item, |origin|);
      var _ := outbox.Enqueue(message, tick);
      origin := origin + [item];
    }

    /** Stores a request, marks it, and writes it once. */
    method StoreAndWrite(ghost typ: nat, id: nat, tick: int, ghost packet: seq<Byte>) returns (ok: bool, ghost n: nat)
      requires Valid() && conn.length > 0 && conn.Outbound() == packet && GetType(packet[0]) == typ
      modifies this`pendingMsgId, this`pendingMsgType, this`origin, this`log, outbox, transport`sent, transport`refused
      ensures Valid() && n <= |packet| && (ok <==> n == |packet|)
      ensures Model() == Logged(Marked(Enqueued(old(Model()), id, typ, pendingQos, packet, tick), id, Transmitted),
                                WriteEntry(|old(origin)|, packet, n, false))
      ensures transport.sent == old(transport.sent) + packet[..n]
      ensures transport.refused == old(transport.refused) + if n < |packet| then 1 else 0
    {
      StoreRequest(typ, id, tick);
      ok, n := Write(conn.Outbound());
      log := log + [WriteEntry(|origin| - 1, packet, n, false)];
    }

    /** The common tail of esp_mqtt_client_subscribe_multiple and esp_mqtt_client_unsubscribe, from the built message on. */
    method Request(typ: nat, id: nat, tick: int, ghost body: seq<Byte>, ghost s: State) returns (ret: int, ghost n: nat)
      requires Valid() && typ in {SUBSCRIBE, UNSUBSCRIBE} && id == s.lastId && BodyFits(cfg.capacity, body)
      requires conn.Outbound() == Printed(s.frag, FirstByte(typ, 0, 1, 0), body)
      requires Model() == s.(frag := AfterPrinting(s.frag, |body|))
      modifies this`pendingMsgId, this`pendingMsgType, this`origin, this`log, outbox, transport`sent, transport`refused
      ensures Valid() && n <= |conn.Outbound()|
      ensures Model() == ClientModel.Request(s, cfg, typ, body, tick, n)
      ensures transport.sent == old(transport.sent) + conn.Outbound()[..n]
      ensures transport.refused == old(transport.refused) + if n < |conn.Outbound()| then 1 else 0
      ensures ret == if 0 < |conn.Outbound()| == n then id else -1
    {
      n := 0;
      if conn.length == 0 {
        return -1, n;
      }
      RequestType(typ, s.frag, body);
      var ok;
      ok, n := StoreAndWrite(typ, id, tick, conn.Outbound());
      ret := if ok then id else -1;
    }

    /** Can mqtt_msg_subscribe build the message? */
    predicate Subscribable(topics: seq<Filter>, id: Counter) {
      AllNamed(topics) && BodyFits(cfg.capacity, SubscribeBody(topics, id))
    }

    /** esp_mqtt_client_subscribe_multiple. */
    method Subscribe(topics: seq<Filter>, tick: int) returns (ret: int, ghost n: nat)
      requires Valid()
      modifies this, conn, conn.buffer, outbox, transport`sent, transport`refused
      ensures Valid()
      ensures Model() == ClientModel.Subscribe(old(Model()), cfg, topics, NextId(old(conn.lastMessageId)), tick, n)
      ensures ret == -2 <==> OverLimit(old(Model()), cfg, 0)
      ensures var id := NextId(old(conn.lastMessageId));
              var packet := Printed(old(Model()).frag, FirstByte(SUBSCRIBE, 0, 1, 0), SubscribeBody(topics, id));
              && n <= |packet| && transport.sent == old(transport.sent) + packet[..n]
              && (ret >= 0 <==> Subscribable(topics, id) && ret != -2 && old(connected) && 0 < |packet| == n)
              && (ret >= 0 ==> ret == id)
              && (Subscribable(topics, id) && ret != -2 && old(connected) ==>
                    transport.refused == old(transport.refused) + if n < |packet| then 1 else 0)
    {
      n := 0;
      if cfg.outboxLimit > 0 && outbox.size > cfg.outboxLimit {
        return -2, n;
      }
      if !connected {
        return -1, n;
      }
      var id := conn.MsgSubscribe(topics);
      if conn.length == 0 {
        return -1, n;
      }
      ret, n := Request(SUBSCRIBE, id, tick, SubscribeBody(topics, id), old(Model()).(lastId := id));
    }

    predicate Unsubscribable(topic: seq<Byte>, id: Counter) {
      topic != [] && BodyFits(cfg.capacity, UnsubscribeBody(topic, id))
    }

    /** esp_mqtt_client_unsubscribe. */
    method Unsubscribe(topic: seq<Byte>, tick: int) returns (ret: int, ghost n: nat)
      requires Valid()
      modifies this, conn, conn.buffer, outbox, transport`sent, transport`refused
      ensures Valid()
      ensures Model() == ClientModel.Unsubscribe(old(Model()), cfg, topic, NextId(old(conn.lastMessageId)), tick, n)
      ensures var id := NextId(old(conn.lastMessageId));
              var packet := Printed(old(Model()).frag, FirstByte(UNSUBSCRIBE, 0, 1, 0), UnsubscribeBody(topic, id));
              && n <= |packet| && transport.sent == old(transport.sent) + packet[..n]
              && (ret >= 0 <==> Unsubscribable(topic, id) && old(connected) && 0 < |packet| == n)
              && (ret >= 0 ==> ret == id)
              && (Unsubscribable(topic, id) && old(connected) ==>
                    transport.refused == old(transport.refused) + if n < |packet| then 1 else 0)
    {
      n := 0;
      if !connected {
        return -1, n;
      }
      var id := conn.MsgUnsubscribe(topic);
      if conn.length == 0 {
        return -1, n;
      }
      ret, n := Request(UNSUBSCRIBE, id, tick, UnsubscribeBody(topic, id), old(Model()).(lastId := id));
    }

    /** remove_initiator_message, and the event a success is followed by. */
    method RemoveInitiator(typ: nat, id: nat, publishedEvent: bool) returns (found: bool)
      requires Valid()
      modifies this`log, outbox
      ensures Valid() && Model() == Removal(old(Model()), typ, id, publishedEvent)
      ensures found <==> First(old(outbox.items), HasIdAndType(id, typ)) < |old(outbox.items)|
    {
      ghost var i := First(outbox.items, HasIdAndType(id, typ));
      ghost var before := outbox.items;
      RemovedSorted(before, i, |origin|);
      found := outbox.Delete(id, typ);
      if found {
        log := log + [Left(before[i].handle, Acked)];
        if publishedEvent {
          log := log + [ClientModel.Published(id)];
        }
      }
    }

    /** Builds an acknowledgement. */
    method BuildAck(kind: AckKind, id: Counter)
      requires Valid()
      modifies conn, conn.buffer
      ensures Valid()
      ensures conn.Outbound() == Printed(old(Model()).frag, AckFirstByte(kind), Be16(AckId(id, old(conn.lastMessageId))))
      ensures Model() == old(Model()).(frag := AfterPrinting(old(Model()).frag, 2),
                                       lastId := if id == 0 then NextId(old(conn.lastMessageId)) else old(conn.lastMessageId))
    {
      conn.MsgAck(kind, id);
    }

    /** The PUBREC case: the message is acknowledged in the outbox before the PUBREL goes out. */
    method AcknowledgePublish(id: Counter)
      requires Valid()
      modifies this`log, outbox`items
      ensures Valid()
      ensures var s := old(Model()); var i := First(s.items, HasId(id));
              Model() == if i == |s.items| then s else Logged(Marked(s, id, Acknowledged), Received(s.items[i].handle))
    {
      ghost var before := outbox.items;
      WithPendingSorted(outbox.items, id, Acknowledged, |origin|);
      var found := outbox.SetPending(id, Acknowledged);
      if found {
        log := log + [Received(before[First(before, HasId(id))].handle)];
      }
    }

    /** The PUBREC case as a whole. */
    method AnswerPubrec(msg: Incoming, delivered: bool, now: int) returns (ok: bool, ghost n: nat)
      requires Valid() && msg.typ == PUBREC
      modifies this`log, outbox`items, conn, conn.buffer, transport`sent, transport`refused
      ensures Valid() && Model() == ClientModel.Dispatch(old(Model()), msg, delivered, now)
      ensures n <= |Answer(old(Model()), msg, delivered)| && (ok <==> Answer(old(Model()), msg, delivered) != [])
      ensures transport.sent == old(transport.sent) + Answer(old(Model()), msg, delivered)[..n]
      ensures transport.refused == old(transport.refused) + if n < |Answer(old(Model()), msg, delivered)| then 1 else 0
    {
      BuildAck(Pubrel, msg.id);
      if conn.length == 0 {
        return false, 0;
      }
      AcknowledgePublish(msg.id);
      var _, m := Write(conn.Outbound());
      ok, n := true, m;
    }

    /** The answer to a PUBLISH or a PUBREL, which `ok` does not wait for. */
    method Respond(kind: AckKind, id: Counter) returns (built: bool, ok: bool, ghost n: nat)
      requires Valid()
      modifies conn, conn.buffer, transport`sent, transport`refused
      ensures Valid()
      ensures Model() == old(Model()).(frag := AfterPrinting(old(Model()).frag, 2),
                                       lastId := if id == 0 then NextId(old(conn.lastMessageId)) else old(conn.lastMessageId))
      ensures var answer := Printed(old(Model()).frag, AckFirstByte(kind), Be16(AckId(id, old(conn.lastMessageId))));
              && n <= |answer| && (built <==> answer != []) && (ok <==> built && n == |answer|)
              && transport.sent == old(transport.sent) + answer[..n]
              && transport.refused == old(transport.refused) + if n < |answer| then 1 else 0
    {
      BuildAck(kind, id);
      built, ok, n := conn.length > 0, false, 0;
      if built {
        ok, n := Write(conn.Outbound());
      }
    }

    /** The PUBLISH case. */
    method AnswerPublish(msg: Incoming, delivered: bool) returns (ok: bool, ghost n: nat)
      requires Valid() && msg.typ == PUBLISH
      modifies conn, conn.buffer, transport`sent, transport`refused
      ensures Valid() && Model() == Answered(old(Model()), msg, delivered)
      ensures n <= |Answer(old(Model()), msg, delivered)| && (ok <==> DispatchOk(old(Model()), msg, delivered, n))
      ensures transport.sent == old(transport.sent) + Answer(old(Model()), msg, delivered)[..n]
      ensures transport.refused == old(transport.refused) + if n < |Answer(old(Model()), msg, delivered)| then 1 else 0
    {
      ok, n := true, 0;
      if !delivered {
        return false, n;
      }
      if msg.qos == 1 || msg.qos == 2 {
        var _, written, m := Respond(if msg.qos == 1 then Puback else Pubrec, msg.id);
        ok, n := written, m;
      }
    }

    /** The cases in which a message of the client has been answered. */
    method RemoveAnswered(msg: Incoming, delivered: bool) returns (ok: bool)
      requires Valid() && msg.typ in {SUBACK, UNSUBACK, PUBACK, PUBCOMP}
      modifies this`log, outbox
      ensures Valid() && forall now: int :: Model() == ClientModel.Dispatch(old(Model()), msg, delivered, now)
      ensures ok <==> DispatchOk(old(Model()), msg, delivered, 0)
    {
      ok := true;
      if msg.typ == SUBACK {
        var found := RemoveInitiator(SUBSCRIBE, msg.id, false);
        ok := !found || delivered;
      } else if msg.typ == UNSUBACK {
        var _ := RemoveInitiator(UNSUBSCRIBE, msg.id, false);
      } else {
        var _ := RemoveInitiator(PUBLISH, msg.id, true);
      }
    }

    /** The switch of mqtt_process_receive. `delivered` says whether deliver_publish or deliver_suback succeeded;
        the result is ESP_OK or not. */
    method Dispatch(msg: Incoming, delivered: bool, now: int) returns (ok: bool, ghost n: nat)
      requires Valid()
      modifies this, outbox, conn, conn.buffer, transport`sent, transport`refused
      ensures Valid() && Model() == ClientModel.Dispatch(old(Model()), msg, delivered, now)
      ensures ok <==> DispatchOk(old(Model()), msg, delivered, n)
      ensures n <= |Answer(old(Model()), msg, delivered)|
      ensures transport.sent == old(transport.sent) + Answer(old(Model()), msg, delivered)[..n]
      ensures transport.refused == old(transport.refused) + if n < |Answer(old(Model()), msg, delivered)| then 1 else 0
    {
      n, ok := 0, true;
      if msg.typ in {SUBACK, UNSUBACK, PUBACK, PUBCOMP} {
        ok := RemoveAnswered(msg, delivered);
      } else if msg.typ == PUBLISH {
        ok, n := AnswerPublish(msg, delivered);
      } else if msg.typ == PUBREC {
        ok, n := AnswerPubrec(msg, delivered, now);
      } else if msg.typ == PUBREL {
        var built, _, m := Respond(Pubcomp, msg.id);
        ok, n := built, m;
      } else if msg.typ == PINGRESP {
        waitPing, keepaliveTick := false, now;
      }
    }

    /** The decoding half of mqtt_resend_queued. DUP is set in the stored copy itself. */
    method PrepareResend(item: Item, ghost i: nat) returns (data: seq<Byte>)
      requires Valid() && i < |outbox.items| && outbox.items[i] == item
      requires First(outbox.items, HasHandle(item.handle)) == i
      modifies this`pendingMsgId, this`pendingMsgType, this`pendingQos, outbox`items
      ensures Valid() && pendingMsgId == item.msgId && pendingMsgType == item.msgType && pendingQos == item.qos
      ensures data == ResendData(item) && outbox.items == old(outbox.items)[i := item.(data := data)]
    {
      data := item.data;
      pendingMsgId, pendingMsgType, pendingQos := item.msgId, item.msgType, item.qos;
      if pendingMsgType == PUBLISH && pendingQos > 0 && item.pending == Transmitted {
        data := WithDup(data);
        UpdateSorted(outbox.items, i, item.(data := data), |origin|);
        outbox.ReplaceData(item.handle, data);
      } else {
        assert item.(data := data) == item;
      }
    }

    /** A QoS 0 message leaves the outbox once it was written. */
    method DropSent(handle: nat)
      requires Valid()
      modifies this`log, outbox`items, outbox`size
      ensures Valid()
      ensures Model() == Logged(old(Model()).(items := Removed(old(outbox.items), First(old(outbox.items), HasHandle(handle)))),
                                Left(handle, SentOnce))
    {
      RemovedSorted(outbox.items, First(outbox.items, HasHandle(handle)), |origin|);
      var _ := outbox.DeleteItem(handle);
      log := log + [Left(handle, SentOnce)];
    }

    /** mqtt_resend_queued. */
    method ResendQueued(item: Item, ghost i: nat, ghost queued: bool) returns (ok: bool, ghost n: nat)
      requires Valid() && i < |outbox.items| && outbox.items[i] == item
      requires First(outbox.items, HasHandle(item.handle)) == i
      modifies this`connected, this`waitPing, this`pendingMsgId, this`pendingMsgType, this`pendingQos, this`log
      modifies outbox`items, outbox`size, transport`sent, transport`refused
      ensures Valid() && pendingMsgId == item.msgId && n <= |item.data| && (ok <==> n == |item.data|)
      ensures Model() == Resend(old(Model()), i, n, queued)
      ensures transport.sent == old(transport.sent) + ResendData(item)[..n]
      ensures transport.refused == old(transport.refused) + if n < |item.data| then 1 else 0
    {
      var data := PrepareResend(item, i);
      ok, n := Write(data);
      log := log + [WriteEntry(item.handle, data, n, queued)];
      if !ok {
        Abort();
        return;
      }
      if pendingMsgType == PUBLISH && pendingQos == 0 {
        DropSent(item.handle);
      }
    }

    /** outbox_dequeue, with where the item stands. */
    method Peek(pending: Pending) returns (item: Option<Item>, ghost i: nat)
      requires Valid()
      ensures i == First(outbox.items, HasPending(pending))
      ensures item == if i < |outbox.items| then Some(outbox.items[i]) else None
      ensures item.Some? ==> First(outbox.items, HasHandle(item.value.handle)) == i
    {
      i := First(outbox.items, HasPending(pending));
      item := outbox.Dequeue(pending);
      if item.Some? {
        FirstHasHandle(outbox.items, HasPending(pending), |origin|);
      }
    }

    /** The same, with what it adds to the log. */
    method ResendLogged(item: Item, ghost i: nat, ghost queued: bool) returns (ok: bool, ghost n: nat)
      requires Valid() && i < |outbox.items| && outbox.items[i] == item
      requires First(outbox.items, HasHandle(item.handle)) == i
      modifies this`connected, this`waitPing, this`pendingMsgId, this`pendingMsgType, this`pendingQos, this`log
      modifies outbox`items, outbox`size, transport`sent, transport`refused
      ensures Valid() && pendingMsgId == item.msgId && (ok <==> n >= |ResendData(item)|)
      ensures Model() == Resend(old(Model()), i, n, queued)
      ensures Recorded(old(log), log, old(Moved()), Moved())
    {
      ok, n := ResendQueued(item, i, queued);
      assert Moved() == Then(old(Moved()), Part(ResendData(item), n));
      ResendRecorded(old(Model()), i, n, queued, old(Moved()));
    }

    method SendQueued(item: Item, ghost i: nat) returns (ghost n: nat)
      requires Valid() && i < |outbox.items| && outbox.items[i] == item
      requires First(outbox.items, HasHandle(item.handle)) == i
      modifies this`connected, this`waitPing, this`pendingMsgId, this`pendingMsgType, this`pendingQos, this`log
      modifies outbox`items, outbox`size, transport`sent, transport`refused
      ensures Valid() && Model() == TransmitQueued(old(Model()), i, n)
      ensures Recorded(old(log), log, old(Moved()), Moved())
    {
      var ok;
      ok, n := ResendLogged(item, i, true);
      if ok {
        MarkTransmitted(pendingMsgId);
      }
    }

    method RetransmitOldest(now: int) returns (ghost n: nat)
      requires Valid()
      modifies this`connected, this`waitPing, this`pendingMsgId, this`pendingMsgType, this`pendingQos, this`log, this`lastRetransmit
      modifies outbox`items, outbox`size, transport`sent, transport`refused
      ensures Valid() && Model() == Retransmit(old(Model()), cfg, now, n)
      ensures Recorded(old(log), log, old(Moved()), Moved())
    {
      SilenceRecorded(log, [], Moved());
      assert log + [] == log;
      n := 0;
      lastRetransmit := now;
      var next, i := Peek(Transmitted);
      if next.Some? && (lastRetransmit - next.value.tick) % TICK_MOD > cfg.retransmitMs {
        var _, m := ResendLogged(next.value, i, false);
        n := m;
      }
    }

    /** Lines 1671 to 1683 of esp_mqtt_task. */
    method Transmit(times: TaskTimes) returns (ghost n: nat)
      requires Valid()
      modifies this`connected, this`waitPing, this`pendingMsgId, this`pendingMsgType, this`pendingQos, this`log, this`lastRetransmit
      modifies outbox`items, outbox`size, transport`sent, transport`refused
      ensures Valid() && Model() == ClientModel.Transmit(old(Model()), cfg, times, n)
      ensures Recorded(old(log), log, old(Moved()), Moved())
    {
      n := 0;
      SilenceRecorded(log, [], Moved());
      assert log + [] == log;
      var next, i := Peek(Queued);
      if next.Some? {
        n := SendQueued(next.value, i);
      } else if HasTimedOut(lastRetransmit, cfg.retransmitMs, times.check) {
        n := RetransmitOldest(times.transmit);
      }
    }

    /** Lines 1662 to 1683: expiry and transmission. */
    method Serve(times: TaskTimes) returns (ghost n: nat)
      requires Valid()
      modifies this`connected, this`waitPing, this`pendingMsgId, this`pendingMsgType, this`pendingQos, this`log, this`lastRetransmit
      modifies outbox, transport`sent, transport`refused
      ensures Valid() && Model() == ClientModel.Serve(old(Model()), cfg, times, n)
      ensures Recorded(old(log), log, old(Moved()), Moved())
    {
      if lastRetransmit == 0 {
        lastRetransmit := times.start;
      }
      ExpireRecorded(Model(), times.expire, Moved());
      DeleteExpiredMessages(times.expire);
      ghost var kept := log;
      n := Transmit(times);
      RecordedTwice(old(log), kept, log, old(Moved()), old(Moved()), Moved());
    }

    /** Lines 1685 to 1694: keepalive and refresh. */
    method Maintain(times: TaskTimes) returns (ghost pinged: nat)
      requires Valid()
      modifies this`connected, this`waitPing, conn, conn.buffer, transport`sent, transport`refused
      ensures Valid() && Model() == ClientModel.Maintain(old(Model()), cfg, times, pinged)
      ensures Moved() == Then(old(Moved()), PingOf(old(Model()), times.keepalive, pinged))
    {
      var ok;
      ok, pinged := ProcessKeepalive(times.keepalive);
      if ok && cfg.refreshMs > 0 && HasTimedOut(refreshTick, cfg.refreshMs, times.refresh) {
        Abort();
      }
    }

    /** The ping, if one is due, as far as the transport took it. */
    ghost function PingOf(s: State, now: int, n: nat): Traffic {
      if PingDue(s, cfg, now) then Part(Empty(s, PINGREQ), n) else Silence
    }

    /** A PINGREQ or DISCONNECT, built and written. */
    method SendEmpty(typ: nat) returns (built: bool, ok: bool, ghost n: nat)
      requires Valid()
      modifies conn, conn.buffer, transport`sent, transport`refused
      ensures Valid() && Model() == AfterEmpty(old(Model()))
      ensures n <= |Empty(old(Model()), typ)| && transport.sent == old(transport.sent) + Empty(old(Model()), typ)[..n]
      ensures (built <==> Empty(old(Model()), typ) != []) && (ok <==> built && n == |Empty(old(Model()), typ)|)
      ensures transport.refused == old(transport.refused) + if n < |Empty(old(Model()), typ)| then 1 else 0
    {
      conn.MsgEmpty(typ);
      built, ok, n := conn.length > 0, false, 0;
      if built {
        ok, n := Write(conn.Outbound());
      }
    }

    /** process_keepalive. */
    method ProcessKeepalive(now: int) returns (ok: bool, ghost pinged: nat)
      requires Valid()
      modifies this`connected, this`waitPing, conn, conn.buffer, transport`sent, transport`refused
      ensures Valid() && (Model(), ok) == ClientModel.Keepalive(old(Model()), cfg, now, pinged)
      ensures Moved() == Then(old(Moved()), PingOf(old(Model()), now, pinged))
    {
      ok, pinged := true, 0;
      if cfg.keepaliveMs > 0 {
        if waitPing {
          if HasTimedOut(keepaliveTick, cfg.keepaliveMs, now) {
            Abort();
            ok := false;
          }
          return;
        }
        if HasTimedOut(keepaliveTick, cfg.keepaliveMs / 2, now) {
          var _, sent, n := SendEmpty(PINGREQ);
          pinged := n;
          if !sent {
            Abort();
            return false, pinged;
          }
          waitPing := true;
        }
      }
    }

    /** What mqtt_process_receive makes of its input. */
    method Process(input: Input, now: int) returns (ok: bool, ghost reception: Reception)
      requires Valid()
      modifies this, outbox, conn, conn.buffer, transport`sent, transport`refused
      ensures Valid() && ReceptionOf(input, reception) && (ok <==> ReceiveOk(old(Model()), reception))
      ensures Model() == Receive(old(Model()), reception, now)
      ensures Recorded(old(log), log, Moved(), Moved())
      ensures Moved() == Then(old(Moved()), AnswerOf(old(Model()), reception))
    {
      ok, reception := !input.Failed?, if input.Failed? then Failure else Idle;
      if input.Arrived? {
        ghost var n;
        ok, n := Dispatch(input.msg, input.delivered, now);
        reception := Handled(input.msg, input.delivered, n);
        DispatchRecorded(old(Model()), input.msg, input.delivered, now, Moved());
      } else {
        SilenceRecorded(log, [], Moved());
        assert log + [] == log;
      }
    }

    /** The rest of a pass. */
    method Work(times: TaskTimes) returns (ghost written: nat, ghost pinged: nat)
      requires Valid()
      modifies this, outbox, conn, conn.buffer, transport`sent, transport`refused
      ensures Valid()
      ensures Model() == ClientModel.Maintain(ClientModel.Serve(old(Model()), cfg, times, written), cfg, times, pinged)
      ensures old(log) <= log
      ensures var served := ClientModel.Serve(old(Model()), cfg, times, written);
              Moved() == Then(old(Moved()), Then(OnWire(log[|old(log)|..]), PingOf(served, times.keepalive, pinged)))
    {
      written := Serve(times);
      ghost var served := Model();
      pinged := Maintain(times);
      Reassociate(old(Moved()), OnWire(log[|old(log)|..]), PingOf(served, times.keepalive, pinged));
    }

    /** One pass of the task through its CONNECTED branch. What it sends is the answer to what arrived, the writes it
        logs, and a ping, in this order, each as far as the transport took it. */
    method Iterate(disconnect: bool, input: Input, times: TaskTimes) returns (ghost env: Environment)
      requires Valid()
      modifies this, outbox, conn, conn.buffer, transport`sent, transport`refused
      ensures Valid()
      ensures env.disconnect == disconnect && env.times == times && (!disconnect ==> ReceptionOf(input, env.reception))
      ensures Model() == ClientModel.Iterate(old(Model()), cfg, env)
      ensures old(log) <= log
      ensures Moved() == Then(old(Moved()), Spoken(old(Model()), env, log[|old(log)|..]))
    {
      env := Environment(disconnect, Idle, times, 0, 0);
      if disconnect {
        var _, _, n := SendEmpty(DISCONNECT);
        env := env.(pinged := n);
        Abort();
        return;
      }
      ghost var reception;
      var ok;
      ok, reception := Process(input, times.receive);
      env := env.(reception := reception);
      if !ok {
        Abort();
        return;
      }
      ghost var received, sent := Model(), Moved();
      ghost var written, pinged;
      written, pinged := Work(times);
      env := env.(written := written, pinged := pinged);
      SilentStart(old(log), received.log, log, sent);
      Reassociate(old(Moved()), AnswerOf(old(Model()), reception),
                  Then(OnWire(log[|old(log)|..]), PingOf(ClientModel.Serve(received, cfg, times, written), times.keepalive, pinged)));
    }

    /** What a pass that logged `entries` sent. */
    ghost function Spoken(s: State, env: Environment, entries: seq<Entry>): Traffic {
      if env.disconnect then Part(Empty(s, DISCONNECT), env.pinged)
      else if !ReceiveOk(s, env.reception) then AnswerOf(s, env.reception)
      else
        var served := ClientModel.Serve(Receive(s, env.reception, env.times.receive), cfg, env.times, env.written);
        Then(AnswerOf(s, env.reception), Then(OnWire(entries), PingOf(served, env.times.keepalive, env.pinged)))
    }

    /** esp_mqtt_connect with its CONNECT message, whose body is given, and what the task does with the outcome. */
    method Connect(body: seq<Byte>, accepted: bool, refreshTick: int, keepaliveTick: int) returns (ok: bool, ghost n: nat)
      requires Valid()
      modifies this`connected, this`waitPing, this`refreshTick, this`keepaliveTick, conn, conn.buffer, transport`sent, transport`refused
      ensures Valid() && Model() == ClientModel.Connect(old(Model()), cfg, body, ok, refreshTick, keepaliveTick)
      ensures var packet := if BodyFits(cfg.capacity, body) then Printed(old(Model()).frag, FirstByte(CONNECT, 0, 0, 0), body) else [];
              && n <= |packet| && transport.sent == old(transport.sent) + packet[..n]
              && (ok <==> accepted && 0 < |packet| == n)
              && transport.refused == old(transport.refused) + if n < |packet| then 1 else 0
    {
      waitPing, n := false, 0;
      conn.MsgConnect(body);
      if conn.length == 0 {
        Abort();
        return false, n;
      }
      ok, n := Write(conn.Outbound());
      if !ok || !accepted {
        Abort();
        return false, n;
      }
      connected, this.refreshTick, this.keepaliveTick := true, refreshTick, keepaliveTick;
    }

    /** esp_mqtt_client_stop, and the end of esp_mqtt_task. */
    method Stop() returns (ok: bool, ghost n: nat)
      requires Valid()
      modifies this`connected, this`lastRetransmit, this`log, outbox, conn, conn.buffer, transport`sent, transport`refused
      ensures Valid() && Model() == ClientModel.Stop(old(Model()))
      ensures ok <==> !(old(connected) && Empty(old(Model()), DISCONNECT) == [])
      ensures n <= |Empty(old(Model()), DISCONNECT)| && (!old(connected) ==> n == 0)
      ensures transport.sent == old(transport.sent) + Empty(old(Model()), DISCONNECT)[..n]
      ensures transport.refused == old(transport.refused) + if old(connected) && n < |Empty(old(Model()), DISCONNECT)| then 1 else 0
    {
      ok, n := true, 0;
      if connected {
        var built, _, m := SendEmpty(DISCONNECT);
        ok, n := built, m;
        if !ok {
          return;
        }
      }
      log := log + Departures(outbox.items, Stopped);
      outbox.DeleteAllItems();
      connected, lastRetransmit := false, 0;
    }
  }

  /** What mqtt_message_receive and the delivery of its packet came to. */
  datatype Input = NoPacket | Arrived(msg: Incoming, delivered: bool) | Failed

  predicate ReceptionOf(input: Input, reception: Reception) {
    match input
    case NoPacket => reception == Idle
    case Failed => reception == Failure
    case Arrived(msg, delivered) => reception.Handled? && reception.msg == msg && reception.delivered == delivered
  }

  /** The answer, as far as the transport took it. */
  function AnswerOf(s: State, r: Reception): Traffic {
    if r.Handled? then Part(Answer(s, r.msg, r.delivered), r.answered) else Silence
  }

  /** What the loop takes for the payload bytes of its first write, from the fields of the built message. */
  lemma TakenByFirst(f: Fragment, capacity: nat, header: nat, payload: nat, length: nat, offset: nat, offs: nat)
    requires capacity < 0x4000_0000 && MAX_FIXED_HEADER_SIZE + header <= capacity
    requires if IsCut(capacity, header, payload) then
               offs + length == capacity && offset == MAX_FIXED_HEADER_SIZE + header - offs
             else
               offs + length == MAX_FIXED_HEADER_SIZE + header + payload && offset == (f.offset - offs) % SIZE_MOD
    ensures ToInt(length - offset) == FirstSent(f, capacity, header, payload)
  {
  }

  /** The bookkeeping of the send loop while `rest` bytes are neither written nor in the buffer. */
  ghost predicate InStep(length: nat, offset: nat, rest: nat, payload: nat, remainingLen: int, currentData: int) {
    var dataSent := ToInt(length - offset);
    && rest == (if remainingLen > dataSent then remainingLen - dataSent else 0)
    && (rest > 0 ==> currentData + dataSent + rest == payload)
  }

  /** A publish that is built and, for QoS > 0, stored goes on with the sending half. */
  lemma PublishSteps(s: State, cfg: Config, topic: seq<Byte>, payload: seq<Byte>, qos: nat, retain: int, id: Counter,
                     times: PublishTimes, before: seq<Byte>)
    requires Buildable(cfg, topic, payload, qos) && !(qos > 0 && OverLimit(s, cfg, |payload|))
    ensures var msgId := if qos > 0 then id else 0;
            var built := Built(s, cfg, topic, payload, qos, id);
            var wire := Wire(s, cfg, topic, payload, qos, retain, msgId, before);
            var stored := if qos > 0 then
                            Enqueued(built.(pendingQos := qos, frag := AfterSending(built.frag, false)), id, PUBLISH, qos,
                                     PublishPacket(topic, payload, qos, retain, msgId), times.enqueue)
                          else built;
            forall n: nat :: Publish(s, cfg, topic, payload, qos, retain, id, times, before, n) ==
                   AfterStoring(stored, wire, qos, msgId, times, n)
                   .(frag := AfterSending(stored.frag, s.connected && n >= FirstChunk(cfg.capacity, HeaderSize(topic, qos), |payload|)))
  {
  }

  lemma RequestType(typ: nat, f: Fragment, body: seq<Byte>)
    requires typ < 16
    ensures Printed(f, FirstByte(typ, 0, 1, 0), body) != [] ==> GetType(Printed(f, FirstByte(typ, 0, 1, 0), body)[0]) == typ
  {
  }

  /** A null payload leaves what an empty one does. */
  lemma BuiltFields(s: State, cfg: Config, topic: seq<Byte>, data: Option<seq<Byte>>, len: int, qos: nat, next: Counter, id: nat)
    requires if data.Some? then 0 <= len <= |data.value| else len == 0 && s.frag.total == 0
    ensures var built := Built(s, cfg, topic, Payload(data, len), qos, next);
            && built.lastId == (if DrawsId(cfg.capacity, topic, data, len, qos) then next else s.lastId)
            && built.frag == if HeaderFits(cfg.capacity, topic, data, len, qos) then
                               AfterBuilding(s.frag, cfg.capacity, data.Some?, |PublishHeader(topic, qos, id)|, |Payload(data, len)|)
                             else s.frag
  {
  }

  /** A PUBLISH packet ends in its payload. */
  lemma PublishFront(topic: seq<Byte>, payload: seq<Byte>, qos: nat, retain: int, id: nat) returns (front: seq<Byte>)
    ensures PublishPacket(topic, payload, qos, retain, id) == front + payload
    ensures front != [] && GetType(PublishPacket(topic, payload, qos, retain, id)[0]) == PUBLISH
  {
    var header := PublishHeader(topic, qos, id);
    front := [FirstByte(PUBLISH, 0, qos, retain)] + Varint.Encode(|header| + |payload|) + header;
    assert PublishPacket(topic, payload, qos, retain, id) == front + payload;
  }
}
