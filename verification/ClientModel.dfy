/** What the client operations of mqtt_client.c do to the outbox and the connection state, as functions.
    What the environment decides is a parameter: ticks, ids, how many bytes a write moved. */
module ClientModel {
  import opened Bytes
  import opened MqttMsg
  import opened Outbox
  import Varint

  const EXPIRED_TIMEOUT_MS := 30000
  const TICK_MOD := 0x1_0000_0000_0000_0000

  /** `capacity` is the length of the out-buffer; times are in milliseconds and zero switches a feature off. */
  datatype Config = Config(capacity: nat, outboxLimit: nat, keepaliveMs: nat, retransmitMs: nat, refreshMs: nat)

  datatype Cause = Acked | TimedOut | SentOnce | Stopped

  /** What happened to stored messages, by handle. `queued` marks a write the task made out of QUEUED. */
  datatype Entry =
    | Wrote(handle: nat, bytes: seq<Byte>, complete: bool, queued: bool)
    | Received(handle: nat)
    | Left(handle: nat, cause: Cause)
    | Published(id: int)

  /** `origin[h]` is the item with handle `h` as it was enqueued. `frag`, `lastId` and `pendingQos` are the fields of the
      connection that outlive the message they were set for. */
  datatype State = State(items: seq<Item>, origin: seq<Item>, connected: bool, waitPing: bool,
                         keepaliveTick: int, refreshTick: int, lastRetransmit: int, log: seq<Entry>,
                         frag: Fragment, lastId: Counter, pendingQos: int)

  // ---------- time ----------

  /** has_timed_out, with the wrap-around of its unsigned sum and signed difference. */
  predicate HasTimedOut(lastTick: int, timeout: int, now: int) {
    var next := (lastTick + timeout) % TICK_MOD;
    var left := (next - now) % TICK_MOD;
    left == 0 || left >= TICK_MOD / 2
  }

  // ---------- steps on the outbox ----------

  function Enqueued(s: State, id: int, typ: int, qos: int, packet: seq<Byte>, tick: int): State {
    var item := Item(|s.origin|, id, typ, qos, tick, Queued, packet);
    s.(items := s.items + [item], origin := s.origin + [item])
  }

  function Marked(s: State, id: int, pending: Pending): State {
    s.(items := WithPending(s.items, id, pending))
  }

  function Logged(s: State, entry: Entry): State {
    s.(log := s.log + [entry])
  }

  function Aborted(s: State): State {
    s.(connected := false, waitPing := false)
  }

  function Departures(items: seq<Item>, cause: Cause): (r: seq<Entry>)
    ensures |r| == |items|
    ensures forall i :: 0 <= i < |items| ==> r[i] == Left(items[i].handle, cause)
  {
    if items == [] then [] else [Left(items[0].handle, cause)] + Departures(items[1..], cause)
  }

  /** mqtt_delete_expired_messages, bulk form. */
  function Expire(s: State, now: int): State {
    var p := Expired(now, EXPIRED_TIMEOUT_MS);
    s.(items := Kept(s.items, p), log := s.log + Departures(Dropped(s.items, p), TimedOut))
  }

  /** A write of `bytes` for the item `h` that moved `n` bytes. */
  function WriteEntry(h: nat, bytes: seq<Byte>, n: nat, queued: bool): Entry {
    if n >= |bytes| then Wrote(h, bytes, true, queued) else Wrote(h, bytes[..n], false, queued)
  }

  // ---------- publishing ----------

  datatype PublishTimes = PublishTimes(enqueue: int, expire: int, sent: int)

  predicate OverLimit(s: State, cfg: Config, length: nat) {
    cfg.outboxLimit > 0 && length + TotalLength(s.items) > cfg.outboxLimit
  }

  /** Can mqtt_msg_publish build this message? */
  predicate Buildable(cfg: Config, topic: seq<Byte>, payload: seq<Byte>, qos: nat) {
    PublishFits(cfg.capacity, topic, Some(payload), |payload|, qos)
  }

  /** make_publish: the id it draws and the fragment fields it leaves. */
  function Built(s: State, cfg: Config, topic: seq<Byte>, payload: seq<Byte>, qos: nat, id: Counter): State {
    s.(lastId := if DrawsId(cfg.capacity, topic, Some(payload), |payload|, qos) then id else s.lastId,
       frag := if HeaderFits(cfg.capacity, topic, Some(payload), |payload|, qos) then
                 AfterBuilding(s.frag, cfg.capacity, true, HeaderSize(topic, qos), |payload|)
               else s.frag)
  }

  /** How many bytes a publish sends beyond its packet. */
  function Excess(s: State, cfg: Config, topic: seq<Byte>, payload: seq<Byte>, qos: nat): nat {
    Surplus(s.frag, cfg.capacity, HeaderSize(topic, qos), |payload|)
  }

  function Tail(memory: seq<Byte>, n: nat): seq<Byte> {
    if n <= |memory| then memory[|memory| - n..] else memory
  }

  /** What a publish sends: the packet, and then as many bytes as the loop still believes to owe. They end where the
      payload ends; `before` is the memory in front of it. */
  function Wire(s: State, cfg: Config, topic: seq<Byte>, payload: seq<Byte>, qos: nat, retain: int, id: nat, before: seq<Byte>): seq<Byte> {
    PublishPacket(topic, payload, qos, retain, id) + Tail(before + payload, Excess(s, cfg, topic, payload, qos))
  }

  /** How much of the packet is in the out-buffer once it is built. */
  function FirstChunk(capacity: nat, header: nat, payload: nat): int {
    var offs := 4 - |Varint.Encode(header + payload)|;
    (if IsCut(capacity, header, payload) then capacity else MAX_FIXED_HEADER_SIZE + header + payload) - offs
  }

  /** The fragment fields once the first write has succeeded, or the total has been cleared without it. */
  function AfterSending(f: Fragment, sent: bool): Fragment {
    Fragment(if sent then 0 else f.offset, 0)
  }

  /** esp_mqtt_client_publish after the message was built and, for QoS > 0, stored: `n` is how many of the bytes of
      `wire` the transport took. */
  function AfterStoring(s: State, wire: seq<Byte>, qos: nat, id: nat, times: PublishTimes, n: nat): State {
    if !s.connected then Expire(s, times.expire)
    else if qos == 0 then (if n >= |wire| then s else Aborted(s))
    else
      var written := Logged(s, WriteEntry(if s.origin == [] then 0 else |s.origin| - 1, wire, n, false));
      if n < |wire| then Aborted(written)
      else Marked(written.(items := WithTick(written.items, id, times.sent)), id, Transmitted)
  }

  /** esp_mqtt_client_publish. `id` is the one a QoS > 0 message is given. */
  function Publish(s: State, cfg: Config, topic: seq<Byte>, payload: seq<Byte>, qos: nat, retain: int,
                   id: Counter, times: PublishTimes, before: seq<Byte>, n: nat): State
  {
    var msgId := if qos > 0 then id else 0;
    var packet := PublishPacket(topic, payload, qos, retain, msgId);
    var built := Built(s, cfg, topic, payload, qos, id);
    if qos > 0 && OverLimit(s, cfg, |payload|) then s
    else if !Buildable(cfg, topic, payload, qos) then built
    else
      var stored := if qos > 0 then Enqueued(built.(pendingQos := qos), id, PUBLISH, qos, packet, times.enqueue) else built;
      var sent := s.connected && n >= FirstChunk(cfg.capacity, HeaderSize(topic, qos), |payload|);
      AfterStoring(stored, Wire(s, cfg, topic, payload, qos, retain, msgId, before), qos, msgId, times, n)
      .(frag := AfterSending(built.frag, sent))
  }

  /** esp_mqtt_client_enqueue. */
  function EnqueueOnly(s: State, cfg: Config, topic: seq<Byte>, payload: seq<Byte>, qos: nat, retain: int,
                       store: bool, id: Counter, tick: int): State
  {
    var msgId := if qos > 0 then id else 0;
    var built := Built(s, cfg, topic, payload, qos, id);
    if OverLimit(s, cfg, |payload|) then s
    else if !Buildable(cfg, topic, payload, qos) || !(qos > 0 || store) then built
    else Enqueued(built.(pendingQos := qos, frag := AfterSending(built.frag, false)), msgId, PUBLISH, qos,
                  PublishPacket(topic, payload, qos, retain, msgId), tick)
  }

  // ---------- subscribing ----------

  /** The common tail of subscribe and unsubscribe: a printed message is stored, marked and written once. */
  function Request(s: State, cfg: Config, typ: nat, body: seq<Byte>, tick: int, n: nat): State {
    var packet := Printed(s.frag, FirstByte(typ, 0, 1, 0), body);
    if !BodyFits(cfg.capacity, body) then s
    else
      var printed := s.(frag := AfterPrinting(s.frag, |body|));
      if packet == [] then printed
      else Logged(Marked(Enqueued(printed, s.lastId, typ, s.pendingQos, packet, tick), s.lastId, Transmitted),
                  WriteEntry(|s.origin|, packet, n, false))
  }

  /** esp_mqtt_client_subscribe_multiple. */
  function Subscribe(s: State, cfg: Config, topics: seq<Filter>, id: Counter, tick: int, n: nat): State {
    if OverLimit(s, cfg, 0) || !s.connected then s
    else if !AllNamed(topics) then s.(lastId := id)
    else Request(s.(lastId := id), cfg, SUBSCRIBE, SubscribeBody(topics, id), tick, n)
  }

  /** esp_mqtt_client_unsubscribe. */
  function Unsubscribe(s: State, cfg: Config, topic: seq<Byte>, id: Counter, tick: int, n: nat): State {
    if !s.connected || topic == [] then s
    else Request(s.(lastId := id), cfg, UNSUBSCRIBE, UnsubscribeBody(topic, id), tick, n)
  }

  // ---------- the task ----------

  /** A complete packet from the broker, as far as the switch in mqtt_process_receive looks at it. */
  datatype Incoming = Incoming(typ: nat, qos: nat, id: Counter)

  /** remove_initiator_message and the event that follows a success. */
  function Removal(s: State, typ: nat, id: nat, publishedEvent: bool): State {
    var i := First(s.items, HasIdAndType(id, typ));
    if i == |s.items| then s
    else s.(items := Removed(s.items, i),
            log := s.log + [Left(s.items[i].handle, Acked)] + if publishedEvent then [Published(id)] else [])
  }

  /** The answer the protocol wants to a packet. */
  function ResponseTo(msg: Incoming, delivered: bool): Option<AckKind> {
    if msg.typ == PUBLISH && delivered && msg.qos == 1 then Some(Puback)
    else if msg.typ == PUBLISH && delivered && msg.qos == 2 then Some(Pubrec)
    else if msg.typ == PUBREC then Some(Pubrel)
    else if msg.typ == PUBREL then Some(Pubcomp)
    else None
  }

  /** The id an acknowledgement carries: for an id of zero the builder draws one. */
  function AckId(id: Counter, last: Counter): Counter {
    if id == 0 then NextId(last) else id
  }

  /** The answer that is built for a packet; [] if there is none, or none can be built. */
  function Answer(s: State, msg: Incoming, delivered: bool): seq<Byte> {
    match ResponseTo(msg, delivered)
    case Some(kind) => Printed(s.frag, AckFirstByte(kind), Be16(AckId(msg.id, s.lastId)))
    case None => []
  }

  function Answered(s: State, msg: Incoming, delivered: bool): State {
    if ResponseTo(msg, delivered).None? then s
    else s.(frag := AfterPrinting(s.frag, 2), lastId := if msg.id == 0 then NextId(s.lastId) else s.lastId)
  }

  /** The switch of mqtt_process_receive. */
  function Dispatch(s: State, msg: Incoming, delivered: bool, now: int): State {
    if msg.typ == SUBACK then Removal(s, SUBSCRIBE, msg.id, false)
    else if msg.typ == UNSUBACK then Removal(s, UNSUBSCRIBE, msg.id, false)
    else if msg.typ == PUBACK || msg.typ == PUBCOMP then Removal(s, PUBLISH, msg.id, true)
    else if msg.typ == PUBREC then
      var i := First(s.items, HasId(msg.id));
      var answered := Answered(s, msg, delivered);
      if Answer(s, msg, delivered) == [] || i == |s.items| then answered
      else Logged(Marked(answered, msg.id, Acknowledged), Received(s.items[i].handle))
    else if msg.typ == PINGRESP then s.(waitPing := false, keepaliveTick := now)
    else Answered(s, msg, delivered)
  }

  /** Its ESP_OK; the transport took `n` bytes of the answer. */
  predicate DispatchOk(s: State, msg: Incoming, delivered: bool, n: nat) {
    var answer := Answer(s, msg, delivered);
    if msg.typ == SUBACK then First(s.items, HasIdAndType(msg.id, SUBSCRIBE)) == |s.items| || delivered
    else if msg.typ == PUBLISH then delivered && (msg.qos in {1, 2} ==> answer != [] && n >= |answer|)
    else if msg.typ == PUBREC || msg.typ == PUBREL then answer != []
    else true
  }

  /** mqtt_set_dup on a stored packet. */
  function WithDup(data: seq<Byte>): (r: seq<Byte>)
    ensures |r| == |data|
  {
    if data == [] then [] else [SetDup(data[0])] + data[1..]
  }

  /** The bytes mqtt_resend_queued puts on the wire for an item. */
  function ResendData(item: Item): seq<Byte> {
    if item.msgType == PUBLISH && item.qos > 0 && item.pending == Transmitted then WithDup(item.data) else item.data
  }

  /** mqtt_resend_queued of the i-th item. */
  function Resend(s: State, i: nat, n: nat, queued: bool): State
    requires i < |s.items|
  {
    var item := s.items[i];
    var data := ResendData(item);
    var written := Logged(s.(items := s.items[i := item.(data := data)], pendingQos := item.qos), WriteEntry(item.handle, data, n, queued));
    if n < |data| then Aborted(written)
    else if item.msgType == PUBLISH && item.qos == 0 then
      Logged(written.(items := Removed(written.items, First(written.items, HasHandle(item.handle)))), Left(item.handle, SentOnce))
    else written
  }

  datatype TaskTimes = TaskTimes(receive: int, start: int, expire: int, check: int, transmit: int, keepalive: int, refresh: int)

  /** The first message in QUEUED goes out and, if it went out whole, becomes TRANSMITTED. */
  function TransmitQueued(s: State, i: nat, n: nat): State
    requires i < |s.items|
  {
    var sent := Resend(s, i, n, true);
    if n < |ResendData(s.items[i])| then sent else Marked(sent, s.items[i].msgId, Transmitted)
  }

  /** The first message in TRANSMITTED goes out again if it is old enough. */
  function Retransmit(s: State, cfg: Config, now: int, n: nat): State {
    var t := s.(lastRetransmit := now);
    var j := First(t.items, HasPending(Transmitted));
    if j < |t.items| && (now - t.items[j].tick) % TICK_MOD > cfg.retransmitMs then Resend(t, j, n, false) else t
  }

  /** Lines 1671 to 1683: one message out of QUEUED, or else one retransmission. */
  function Transmit(s: State, cfg: Config, times: TaskTimes, n: nat): State {
    var i := First(s.items, HasPending(Queued));
    if i < |s.items| then TransmitQueued(s, i, n)
    else if HasTimedOut(s.lastRetransmit, cfg.retransmitMs, times.check) then Retransmit(s, cfg, times.transmit, n)
    else s
  }

  /** A PINGREQ or DISCONNECT; [] if none can be built. */
  function Empty(s: State, typ: nat): seq<Byte> { Printed(s.frag, FirstByte(typ, 0, 0, 0), []) }

  function AfterEmpty(s: State): State { s.(frag := AfterPrinting(s.frag, 0)) }

  /** A ping is due. */
  predicate PingDue(s: State, cfg: Config, now: int) {
    cfg.keepaliveMs > 0 && !s.waitPing && HasTimedOut(s.keepaliveTick, cfg.keepaliveMs / 2, now)
  }

  /** process_keepalive; the flag is its ESP_OK. The transport took `n` bytes of the ping. */
  function Keepalive(s: State, cfg: Config, now: int, n: nat): (State, bool) {
    if PingDue(s, cfg, now) then
      if Empty(s, PINGREQ) != [] && n >= |Empty(s, PINGREQ)| then (AfterEmpty(s).(waitPing := true), true)
      else (Aborted(AfterEmpty(s)), false)
    else if cfg.keepaliveMs > 0 && s.waitPing && HasTimedOut(s.keepaliveTick, cfg.keepaliveMs, now) then (Aborted(s), false)
    else (s, true)
  }

  /** What mqtt_process_receive came to: no complete packet yet, a packet (its delivery and its answer may still fail), or
      a failure. */
  datatype Reception = Idle | Handled(msg: Incoming, delivered: bool, answered: nat) | Failure

  function Receive(s: State, r: Reception, now: int): State {
    if r.Handled? then Dispatch(s, r.msg, r.delivered, now) else s
  }

  predicate ReceiveOk(s: State, r: Reception) {
    r.Idle? || (r.Handled? && DispatchOk(s, r.msg, r.delivered, r.answered))
  }

  /** `written` and `pinged` are how many bytes of a stored message and of a PINGREQ or DISCONNECT the transport took. */
  datatype Environment = Environment(disconnect: bool, reception: Reception, times: TaskTimes, written: nat, pinged: nat)

  /** The CONNECTED branch from the reception up to the keepalive step. */
  function Serve(s: State, cfg: Config, times: TaskTimes, n: nat): State {
    var started := if s.lastRetransmit == 0 then s.(lastRetransmit := times.start) else s;
    Transmit(Expire(started, times.expire), cfg, times, n)
  }

  /** Its end: keepalive, then the refresh of an old connection. */
  function Maintain(s: State, cfg: Config, times: TaskTimes, n: nat): State {
    var (kept, ok) := Keepalive(s, cfg, times.keepalive, n);
    if ok && cfg.refreshMs > 0 && HasTimedOut(s.refreshTick, cfg.refreshMs, times.refresh) then Aborted(kept) else kept
  }

  /** The CONNECTED branch of esp_mqtt_task. */
  function Iterate(s: State, cfg: Config, env: Environment): State {
    if env.disconnect then Aborted(AfterEmpty(s))
    else
      var received := Receive(s, env.reception, env.times.receive);
      if !ReceiveOk(s, env.reception) then Aborted(received)
      else Maintain(Serve(received, cfg, env.times, env.written), cfg, env.times, env.pinged)
  }

  // ---------- connecting and stopping ----------

  /** An attempt to connect: the CONNECT is built whatever comes of it. */
  function Connect(s: State, cfg: Config, body: seq<Byte>, accepted: bool, refreshTick: int, keepaliveTick: int): State {
    var tried := s.(waitPing := false,
                    frag := if BodyFits(cfg.capacity, body) then AfterPrinting(s.frag, |body|) else s.frag);
    if !accepted || !BodyFits(cfg.capacity, body) || Printed(s.frag, FirstByte(CONNECT, 0, 0, 0), body) == [] then tried.(connected := false)
    else tried.(connected := true, refreshTick := refreshTick, keepaliveTick := keepaliveTick)
  }

  /** esp_mqtt_client_stop, and the end of esp_mqtt_task: every stored message is dropped, and its local last_retransmit
      with it. Without a DISCONNECT to send a connected client does not stop. */
  function Stop(s: State): State {
    if s.connected && Empty(s, DISCONNECT) == [] then s
    else (if s.connected then AfterEmpty(s) else s)
         .(items := [], log := s.log + Departures(s.items, Stopped), connected := false, lastRetransmit := 0)
  }

  // ---------- the log and the wire ----------

  /** What goes to the broker: bytes, and how many messages were cut short. */
  datatype Traffic = Traffic(bytes: seq<Byte>, cut: nat)

  /** A message of which `n` bytes went out. */
  function Part(message: seq<Byte>, n: nat): Traffic {
    if n < |message| then Traffic(message[..n], 1) else Traffic(message, 0)
  }

  const Silence := Traffic([], 0)

  function Then(a: Traffic, b: Traffic): (r: Traffic)
    ensures a == Silence ==> r == b
    ensures b == Silence ==> r == a
  {
    assert a.bytes == [] ==> a.bytes + b.bytes == b.bytes;
    assert b.bytes == [] ==> a.bytes + b.bytes == a.bytes;
    Traffic(a.bytes + b.bytes, a.cut + b.cut)
  }

  function TrafficOf(e: Entry): Traffic {
    if e.Wrote? then Traffic(e.bytes, if e.complete then 0 else 1) else Silence
  }

  /** The writes in a stretch of the log. */
  function OnWire(entries: seq<Entry>): Traffic {
    if entries == [] then Silence else Then(OnWire(entries[..|entries| - 1]), TrafficOf(entries[|entries| - 1]))
  }

  /** What was sent between two moments is what the log gained. */
  ghost predicate Recorded(before: seq<Entry>, after: seq<Entry>, t0: Traffic, t1: Traffic) {
    before <= after && t1 == Then(t0, OnWire(after[|before|..]))
  }

  lemma {:induction false} OnWireSplits(a: seq<Entry>, b: seq<Entry>)
    ensures OnWire(a + b) == Then(OnWire(a), OnWire(b))
  {
    if b == [] {
      assert a + b == a;
    } else {
      var front := b[..|b| - 1];
      assert (a + b)[..|a + b| - 1] == a + front;
      OnWireSplits(a, front);
      Reassociate(OnWire(a), OnWire(front), TrafficOf(b[|b| - 1]));
    }
  }

  lemma {:induction false} SilentEntries(entries: seq<Entry>)
    requires forall e :: e in entries ==> !e.Wrote?
    ensures OnWire(entries) == Silence
  {
    if entries != [] {
      SilentEntries(entries[..|entries| - 1]);
    }
  }

  lemma TailsJoin(l0: seq<Entry>, l1: seq<Entry>, l2: seq<Entry>)
    requires l0 <= l1 <= l2
    ensures l2[|l0|..] == l1[|l0|..] + l2[|l1|..]
  {
  }

  lemma RecordedTwice(l0: seq<Entry>, l1: seq<Entry>, l2: seq<Entry>, t0: Traffic, t1: Traffic, t2: Traffic)
    requires Recorded(l0, l1, t0, t1) && Recorded(l1, l2, t1, t2)
    ensures Recorded(l0, l2, t0, t2)
  {
    var a, b := l1[|l0|..], l2[|l1|..];
    TailsJoin(l0, l1, l2);
    OnWireSplits(a, b);
    Reassociate(t0, OnWire(a), OnWire(b));
  }

  lemma Reassociate(a: Traffic, b: Traffic, c: Traffic)
    ensures Then(Then(a, b), c) == Then(a, Then(b, c))
  {
  }

  /** A start without writes adds nothing. */
  lemma SilentStart(l0: seq<Entry>, l1: seq<Entry>, l2: seq<Entry>, t: Traffic)
    requires Recorded(l0, l1, t, t) && l1 <= l2
    ensures l0 <= l2 && OnWire(l2[|l0|..]) == OnWire(l2[|l1|..])
  {
    var start := OnWire(l1[|l0|..]);
    assert |t.bytes| == |t.bytes + start.bytes|;
    assert start == Silence;
    TailsJoin(l0, l1, l2);
    OnWireSplits(l1[|l0|..], l2[|l1|..]);
  }

  lemma SilenceRecorded(before: seq<Entry>, tail: seq<Entry>, t: Traffic)
    requires forall e :: e in tail ==> !e.Wrote?
    ensures Recorded(before, before + tail, t, t)
  {
    SilentEntries(tail);
  }

  lemma WriteRecorded(before: seq<Entry>, h: nat, bytes: seq<Byte>, n: nat, queued: bool, t: Traffic)
    ensures Recorded(before, before + [WriteEntry(h, bytes, n, queued)], t, Then(t, Part(bytes, n)))
  {
    var e := WriteEntry(h, bytes, n, queued);
    assert (before + [e])[|before|..] == [e];
    OnWireOfOne(e);
    assert bytes[..|bytes|] == bytes && TrafficOf(e) == Part(bytes, n);
  }

  lemma OnWireOfOne(e: Entry)
    ensures OnWire([e]) == TrafficOf(e)
  {
    assert [e][..0] == [];
  }

  lemma ResendRecorded(s: State, i: nat, n: nat, queued: bool, t: Traffic)
    requires i < |s.items|
    ensures Recorded(s.log, Resend(s, i, n, queued).log, t, Then(t, Part(ResendData(s.items[i]), n)))
  {
    var data := ResendData(s.items[i]);
    WriteRecorded(s.log, s.items[i].handle, data, n, queued, t);
    var written := s.log + [WriteEntry(s.items[i].handle, data, n, queued)];
    var sent := Then(t, Part(data, n));
    SilenceRecorded(written, [Left(s.items[i].handle, SentOnce)], sent);
    RecordedTwice(s.log, written, written + [Left(s.items[i].handle, SentOnce)], t, sent, sent);
  }

  lemma ExpireRecorded(s: State, now: int, t: Traffic)
    ensures Recorded(s.log, Expire(s, now).log, t, t)
  {
    SilenceRecorded(s.log, Departures(Dropped(s.items, Expired(now, EXPIRED_TIMEOUT_MS)), TimedOut), t);
  }

  lemma RemovalRecorded(s: State, typ: nat, id: nat, publishedEvent: bool, t: Traffic)
    ensures Recorded(s.log, Removal(s, typ, id, publishedEvent).log, t, t)
  {
    var i := First(s.items, HasIdAndType(id, typ));
    if i == |s.items| {
      SilenceRecorded(s.log, [], t);
      assert s.log + [] == s.log;
    } else {
      var tail := [Left(s.items[i].handle, Acked)] + if publishedEvent then [Published(id)] else [];
      assert Removal(s, typ, id, publishedEvent).log == s.log + tail;
      SilenceRecorded(s.log, tail, t);
    }
  }

  lemma DispatchRecorded(s: State, msg: Incoming, delivered: bool, now: int, t: Traffic)
    ensures Recorded(s.log, Dispatch(s, msg, delivered, now).log, t, t)
  {
    if msg.typ in {SUBACK, UNSUBACK, PUBACK, PUBCOMP} {
      var typ := if msg.typ == SUBACK then SUBSCRIBE else if msg.typ == UNSUBACK then UNSUBSCRIBE else PUBLISH;
      RemovalRecorded(s, typ, msg.id, typ == PUBLISH, t);
    } else {
      var d := Dispatch(s, msg, delivered, now);
      var i := First(s.items, HasId(msg.id));
      var tail := if d.log == s.log then [] else [Received(s.items[i].handle)];
      assert d.log == s.log + tail;
      SilenceRecorded(s.log, tail, t);
    }
  }
}
