/** What the calls of the application do: what is stored, what is sent, and when a call is refused. */
module Calls {
  import opened Bytes
  import opened MqttMsg
  import opened Outbox
  import opened ClientModel
  import opened Runs
  import opened Passes
  import Varint

  /** The bytes of all stored messages, one by one. */
  lemma StoredBytes(items: seq<Item>, x: Item)
    ensures TotalLength([]) == 0 && TotalLength(items + [x]) == TotalLength(items) + |x.data|
  {
    TotalLengthSplits(items, [x]);
  }

  /** The message is too long for the outbox limit. */
  predicate TooMuch(s: State, cfg: Config, length: nat) {
    cfg.outboxLimit > 0 && TotalLength(s.items) + length > cfg.outboxLimit
  }

  /** The topic is there, the out-buffer holds the fixed header, the topic and the id, and four bytes hold the length. */
  predicate CanBuild(cfg: Config, topic: seq<Byte>, payload: seq<Byte>, qos: nat) {
    var header := |topic| + if qos > 0 then 4 else 2;
    1 <= |topic| && 5 + header <= cfg.capacity && header + |payload| <= 268_435_455
  }

  /** Apart from the id counter and the fragment fields nothing has changed. */
  predicate SameButFields(s: State, t: State) {
    t == s.(lastId := t.lastId, frag := t.frag)
  }

  // ---------- publish ----------

  /** A QoS > 0 message within the limit, while connected: it is stored at the tail under its id and written. If it goes out
      whole it is TRANSMITTED, with the time of the write; if not, it is QUEUED and the connection ends. */
  lemma PublishConnected(s: State, cfg: Config, topic: seq<Byte>, payload: seq<Byte>, qos: nat, retain: int, id: Counter,
                         times: PublishTimes, before: seq<Byte>, n: nat)
    requires qos > 0 && s.connected && !TooMuch(s, cfg, |payload|) && CanBuild(cfg, topic, payload, qos) && Fresh(s, id)
    ensures var packet, wire := PublishPacket(topic, payload, qos, retain, id), Wire(s, cfg, topic, payload, qos, retain, id, before);
            var x := Item(|s.origin|, id, PUBLISH, qos, times.enqueue, Queued, packet);
            var whole := n >= |wire|;
            var t := Publish(s, cfg, topic, payload, qos, retain, id, times, before, n);
            && packet <= wire
            && t == s.(items := s.items + [if whole then x.(pending := Transmitted, tick := times.sent) else x],
                       origin := s.origin + [x], log := s.log + [Writing(|s.origin|, wire, n, false)],
                       connected := whole, waitPing := s.waitPing && whole, lastId := id, pendingQos := qos, frag := t.frag)
            && (whole ==> t.frag == Fragment(0, 0))
  {
    BuildsExactly(cfg, topic, payload, qos);
    StoredAndWritten(Enqueued(Built(s, cfg, topic, payload, qos, id).(pendingQos := qos), id, PUBLISH, qos,
                              PublishPacket(topic, payload, qos, retain, id), times.enqueue),
                     s.items, Wire(s, cfg, topic, payload, qos, retain, id, before), qos, id, times, n);
  }

  /** What a publish sends beyond its packet: the last bytes of the memory up to the end of the payload, none if the send
      loop believes to owe none. */
  lemma SurplusBytes(s: State, cfg: Config, topic: seq<Byte>, payload: seq<Byte>, qos: nat, retain: int, id: Counter, before: seq<Byte>)
    requires Excess(s, cfg, topic, payload, qos) <= |before| + |payload|
    ensures var memory, n := before + payload, Surplus(s.frag, cfg.capacity, (if qos > 0 then 4 else 2) + |topic|, |payload|);
            Wire(s, cfg, topic, payload, qos, retain, id, before) ==
            PublishPacket(topic, payload, qos, retain, id) + memory[|memory| - n..]
  {
  }

  lemma BuildsExactly(cfg: Config, topic: seq<Byte>, payload: seq<Byte>, qos: nat)
    ensures Buildable(cfg, topic, payload, qos) <==> CanBuild(cfg, topic, payload, qos)
  {
  }

  lemma StoredAndWritten(s: State, front: seq<Item>, wire: seq<Byte>, qos: nat, id: int, times: PublishTimes, n: nat)
    requires s.connected && qos > 0 && id > 0 && s.origin != [] && |s.items| == |front| + 1 && s.items[..|front|] == front
    requires s.items[|front|].msgId == id && forall x :: x in front ==> x.msgId != id
    ensures var x, whole := s.items[|front|], n >= |wire|;
            var t := AfterStoring(s, wire, qos, id, times, n);
            t == s.(items := front + [if whole then x.(pending := Transmitted, tick := times.sent) else x],
                    log := s.log + [Writing(|s.origin| - 1, wire, n, false)], connected := whole, waitPing := s.waitPing && whole)
  {
    LastWithId(s.items, |front|, id);
    var ticked := WithTick(s.items, id, times.sent);
    LastWithId(ticked, |front|, id);
  }

  lemma LastWithId(items: seq<Item>, k: nat, id: int)
    requires |items| == k + 1 && items[k].msgId == id && forall j :: 0 <= j < k ==> items[j].msgId != id
    ensures First(items, HasId(id)) == k
  {
  }

  /** While not connected it is stored and stays QUEUED, and what is too old leaves. */
  lemma PublishUnconnected(s: State, cfg: Config, topic: seq<Byte>, payload: seq<Byte>, qos: nat, retain: int, id: Counter,
                           times: PublishTimes, before: seq<Byte>, n: nat)
    requires qos > 0 && !s.connected && !TooMuch(s, cfg, |payload|) && CanBuild(cfg, topic, payload, qos)
    ensures var x := Item(|s.origin|, id, PUBLISH, qos, times.enqueue, Queued, PublishPacket(topic, payload, qos, retain, id));
            var t := Publish(s, cfg, topic, payload, qos, retain, id, times, before, n);
            var kept := Expire(s.(items := s.items + [x]), times.expire);
            t == kept.(origin := s.origin + [x], lastId := id, pendingQos := qos, frag := t.frag)
  {
    BuildsExactly(cfg, topic, payload, qos);
  }

  /** A QoS 0 message is never stored by a publish: it is written or, without a connection, dropped. */
  lemma PublishUnreliable(s: State, cfg: Config, topic: seq<Byte>, payload: seq<Byte>, retain: int, id: Counter,
                          times: PublishTimes, before: seq<Byte>, n: nat)
    requires CanBuild(cfg, topic, payload, 0)
    ensures var wire := Wire(s, cfg, topic, payload, 0, retain, 0, before);
            var t := Publish(s, cfg, topic, payload, 0, retain, id, times, before, n);
            && PublishPacket(topic, payload, 0, retain, 0) <= wire
            && SameButFields(if s.connected then s.(connected := n >= |wire|, waitPing := s.waitPing && n >= |wire|)
                             else Expire(s, times.expire), t)
            && t.lastId == s.lastId && (s.connected && n >= |wire| ==> t.frag == Fragment(0, 0))
  {
    BuildsExactly(cfg, topic, payload, 0);
  }

  /** A message over the limit is refused and changes nothing; one that cannot be built leaves nothing but fields behind. */
  lemma PublishRefused(s: State, cfg: Config, topic: seq<Byte>, payload: seq<Byte>, qos: nat, retain: int, id: Counter,
                       times: PublishTimes, before: seq<Byte>, n: nat)
    ensures var t := Publish(s, cfg, topic, payload, qos, retain, id, times, before, n);
            && (qos > 0 && TooMuch(s, cfg, |payload|) ==> t == s)
            && (!CanBuild(cfg, topic, payload, qos) ==> SameButFields(s, t))
  {
    BuildsExactly(cfg, topic, payload, qos);
  }

  /** enqueue stores a message of QoS > 0, or any if asked to, exactly if it is within the limit and can be built. */
  lemma EnqueueExactly(s: State, cfg: Config, topic: seq<Byte>, payload: seq<Byte>, qos: nat, retain: int, store: bool,
                       id: Counter, tick: int)
    ensures var t := EnqueueOnly(s, cfg, topic, payload, qos, retain, store, id, tick);
            var given := if qos > 0 then id else 0;
            var x := Item(|s.origin|, given, PUBLISH, qos, tick, Queued, PublishPacket(topic, payload, qos, retain, given));
            && (TooMuch(s, cfg, |payload|) ==> t == s)
            && if !TooMuch(s, cfg, |payload|) && CanBuild(cfg, topic, payload, qos) && (qos > 0 || store) then
                 SameButFields(s.(items := s.items + [x], origin := s.origin + [x], pendingQos := qos), t)
                 && (qos > 0 ==> t.lastId == id) && t.frag.total == 0
               else SameButFields(s, t)
  {
    BuildsExactly(cfg, topic, payload, qos);
  }

  // ---------- subscribe and unsubscribe ----------

  /** A request goes out once and is stored at the tail as TRANSMITTED, whether or not it went out whole; the connection
      stays as it is. */
  predicate Requested(s: State, t: State, typ: nat, packet: seq<Byte>, id: Counter, tick: int, n: nat) {
    var x := Item(|s.origin|, id, typ, s.pendingQos, tick, Queued, packet);
    SameButFields(s.(items := s.items + [x.(pending := Transmitted)], origin := s.origin + [x],
                     log := s.log + [Writing(|s.origin|, packet, n, false)]), t)
  }

  lemma RequestStored(s: State, cfg: Config, typ: nat, body: seq<Byte>, tick: int, n: nat)
    requires s.frag.total == 0 && Fresh(s, s.lastId) && 5 + |body| <= cfg.capacity && typ < 16 && |body| <= 268_435_455
    ensures var t := Request(s, cfg, typ, body, tick, n);
            t.lastId == s.lastId && Requested(s, t, typ, Packet(typ * 16 + 2, body), s.lastId, tick, n)
  {
    FirstByteSum(typ, 0, 1, 0);
    var packet := Packet(typ * 16 + 2, body);
    var stored := s.items + [Item(|s.origin|, s.lastId, typ, s.pendingQos, tick, Queued, packet)];
    LastWithId(stored, |s.items|, s.lastId);
    assert stored[..|s.items|] == s.items;
  }

  /** Exactly the filters that are all named and fit the out-buffer are subscribed, while the outbox is within its limit. */
  lemma SubscribeExactly(s: State, cfg: Config, topics: seq<Filter>, id: Counter, tick: int, n: nat)
    requires s.frag.total == 0 && Fresh(s, id)
    ensures var t, body := Subscribe(s, cfg, topics, id, tick, n), SubscribeBody(topics, id);
            var named := forall f :: f in topics ==> f.name != [];
            if !s.connected || TooMuch(s, cfg, 0) then t == s
            else if named && 5 + |body| <= cfg.capacity && |body| <= 268_435_455 then
              t.lastId == id && Requested(s, t, SUBSCRIBE, Packet(0x82, body), id, tick, n)
            else t.lastId == id && SameButFields(s, t)
  {
    var body := SubscribeBody(topics, id);
    if 5 + |body| <= cfg.capacity && |body| <= 268_435_455 {
      RequestStored(s.(lastId := id), cfg, SUBSCRIBE, body, tick, n);
    }
  }

  /** A filter that is named and fits the out-buffer is unsubscribed, whatever the outbox holds. */
  lemma UnsubscribeExactly(s: State, cfg: Config, topic: seq<Byte>, id: Counter, tick: int, n: nat)
    requires s.frag.total == 0 && Fresh(s, id)
    ensures var t, body := Unsubscribe(s, cfg, topic, id, tick, n), UnsubscribeBody(topic, id);
            if !s.connected || topic == [] then t == s
            else if 5 + |body| <= cfg.capacity && |body| <= 268_435_455 then
              t.lastId == id && Requested(s, t, UNSUBSCRIBE, Packet(0xA2, body), id, tick, n)
            else t.lastId == id && SameButFields(s, t)
  {
    var body := UnsubscribeBody(topic, id);
    if 5 + |body| <= cfg.capacity && |body| <= 268_435_455 {
      RequestStored(s.(lastId := id), cfg, UNSUBSCRIBE, body, tick, n);
    }
  }

  // ---------- connecting and stopping ----------

  /** An attempt to connect succeeds exactly if the broker accepts a CONNECT that can be built. The outbox is as before. */
  lemma ConnectExactly(s: State, cfg: Config, body: seq<Byte>, accepted: bool, refreshTick: int, keepaliveTick: int)
    requires s.frag.total == 0
    ensures var t := Connect(s, cfg, body, accepted, refreshTick, keepaliveTick);
            var ok := accepted && 5 + |body| <= cfg.capacity && |body| <= 268_435_455;
            t == s.(connected := ok, waitPing := false, frag := t.frag, refreshTick := if ok then refreshTick else s.refreshTick,
                    keepaliveTick := if ok then keepaliveTick else s.keepaliveTick)
  {
  }

  /** After a stop nothing is stored and nobody is connected, and the log has one entry more for each message dropped, in
      order. A connected client says goodbye with the two bytes of a DISCONNECT. */
  lemma StopExactly(s: State)
    requires s.frag.total == 0
    ensures var t := Stop(s);
            && t == s.(items := [], log := t.log, connected := false, lastRetransmit := 0,
                       frag := if s.connected then AfterPrinting(s.frag, 0) else s.frag)
            && s.log <= t.log && |t.log| == |s.log| + |s.items|
            && forall k :: 0 <= k < |s.items| ==> t.log[|s.log| + k] == Left(s.items[k].handle, Stopped)
    ensures Empty(s, DISCONNECT) == [0xE0, 0]
  {
    EmptyBytes(s.frag, 0xE0);
    assert FirstByte(DISCONNECT, 0, 0, 0) == 0xE0;
  }

  /** A connection that is lost, or given up, leaves everything else as it is. */
  lemma LossExactly(s: State, cfg: Config)
    ensures Apply(s, cfg, Losing) == s.(connected := false, waitPing := false)
  {
  }
}
