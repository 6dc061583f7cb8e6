/** The outbox limit over whole runs, and what unsubscribe makes of it. */
module OutboxLimit {
  import opened Bytes
  import opened MqttMsg
  import opened Outbox
  import opened ClientModel
  import opened Steps
  import opened Runs
  import opened Guarantees
  import Varint

  lemma {:induction false} KeptIsShorter(items: seq<Item>, p: Item -> bool)
    ensures TotalLength(Kept(items, p)) <= TotalLength(items)
  {
    if items != [] {
      KeptIsShorter(items[1..], p);
    }
  }

  lemma RemovedIsShorter(items: seq<Item>, i: nat)
    ensures TotalLength(Removed(items, i)) <= TotalLength(items)
  {
    if i < |items| {
      assert items == items[..i] + ([items[i]] + items[i + 1..]);
      TotalLengthSplits(items[..i], [items[i]] + items[i + 1..]);
      TotalLengthSplits([items[i]], items[i + 1..]);
      TotalLengthSplits(items[..i], items[i + 1..]);
    }
  }

  lemma MarkedIsSame(items: seq<Item>, id: int, pending: Pending)
    ensures TotalLength(WithPending(items, id, pending)) == TotalLength(items)
  {
    var i := First(items, HasId(id));
    if i < |items| {
      UpdateKeepsLength(items, i, items[i].(pending := pending));
    }
  }

  lemma TickedIsSame(items: seq<Item>, id: int, tick: int)
    ensures TotalLength(WithTick(items, id, tick)) == TotalLength(items)
  {
    var i := First(items, HasId(id));
    if i < |items| {
      UpdateKeepsLength(items, i, items[i].(tick := tick));
    }
  }

  lemma EnqueuedIsLonger(s: State, id: int, typ: int, qos: int, packet: seq<Byte>, tick: int)
    ensures TotalLength(Enqueued(s, id, typ, qos, packet, tick).items) == TotalLength(s.items) + |packet|
  {
    var item := Item(|s.origin|, id, typ, qos, tick, Queued, packet);
    TotalLengthSplits(s.items, [item]);
    assert TotalLength([item]) == |packet|;
  }

  /** A buildable publish is longer than its payload by no more than the out-buffer. */
  lemma PublishSize(cfg: Config, topic: seq<Byte>, payload: seq<Byte>, qos: nat, retain: int, id: nat)
    requires Buildable(cfg, topic, payload, qos)
    ensures |PublishPacket(topic, payload, qos, retain, id)| <= cfg.capacity + |payload|
  {
    Varint.EncodedLength(|PublishHeader(topic, qos, id)| + |payload|);
  }

  lemma AfterStoringSize(s: State, wire: seq<Byte>, qos: nat, id: nat, times: PublishTimes, n: nat)
    ensures TotalLength(AfterStoring(s, wire, qos, id, times, n).items) <= TotalLength(s.items)
  {
    KeptIsShorter(s.items, Expired(times.expire, EXPIRED_TIMEOUT_MS));
    TickedIsSame(s.items, id, times.sent);
    MarkedIsSame(WithTick(s.items, id, times.sent), id, Transmitted);
  }

  lemma ResendSize(s: State, i: nat, n: nat, queued: bool)
    requires i < |s.items|
    ensures TotalLength(Resend(s, i, n, queued).items) <= TotalLength(s.items)
  {
    var item := s.items[i];
    UpdateKeepsLength(s.items, i, item.(data := ResendData(item)));
    var written := s.items[i := item.(data := ResendData(item))];
    RemovedIsShorter(written, First(written, HasHandle(item.handle)));
  }

  lemma TransmitSize(s: State, cfg: Config, times: TaskTimes, n: nat)
    ensures TotalLength(Transmit(s, cfg, times, n).items) <= TotalLength(s.items)
  {
    var i := First(s.items, HasPending(Queued));
    if i < |s.items| {
      ResendSize(s, i, n, true);
      MarkedIsSame(Resend(s, i, n, true).items, s.items[i].msgId, Transmitted);
    } else {
      var t := s.(lastRetransmit := times.transmit);
      var j := First(t.items, HasPending(Transmitted));
      if j < |t.items| {
        ResendSize(t, j, n, false);
      }
    }
  }

  lemma DispatchSize(s: State, msg: Incoming, delivered: bool, now: int)
    ensures TotalLength(Dispatch(s, msg, delivered, now).items) <= TotalLength(s.items)
  {
    if msg.typ in {SUBACK, UNSUBACK, PUBACK, PUBCOMP} {
      var typ := if msg.typ == SUBACK then SUBSCRIBE else if msg.typ == UNSUBACK then UNSUBSCRIBE else PUBLISH;
      RemovedIsShorter(s.items, First(s.items, HasIdAndType(msg.id, typ)));
    } else {
      MarkedIsSame(s.items, msg.id, Acknowledged);
    }
  }

  lemma IterateSize(s: State, cfg: Config, env: Environment)
    ensures TotalLength(Iterate(s, cfg, env).items) <= TotalLength(s.items)
  {
    var received := Receive(s, env.reception, env.times.receive);
    if env.reception.Handled? {
      DispatchSize(s, env.reception.msg, env.reception.delivered, env.times.receive);
    }
    KeptIsShorter(received.items, Expired(env.times.expire, EXPIRED_TIMEOUT_MS));
    var started := if received.lastRetransmit == 0 then received.(lastRetransmit := env.times.start) else received;
    TransmitSize(Expire(started, env.times.expire), cfg, env.times, env.written);
    MaintainLeaves(Serve(received, cfg, env.times, env.written), cfg, env.times, env.pinged);
  }

  lemma RequestSize(s: State, cfg: Config, typ: nat, body: seq<Byte>, tick: int, n: nat)
    ensures TotalLength(Request(s, cfg, typ, body, tick, n).items) <= TotalLength(s.items) + cfg.capacity
  {
    var packet := Printed(s.frag, FirstByte(typ, 0, 1, 0), body);
    var printed := s.(frag := AfterPrinting(s.frag, |body|));
    Varint.EncodedLength(Announced(s.frag, |body|));
    EnqueuedIsLonger(printed, s.lastId, typ, s.pendingQos, packet, tick);
    MarkedIsSame(Enqueued(printed, s.lastId, typ, s.pendingQos, packet, tick).items, s.lastId, Transmitted);
  }

  lemma PublishingSize(s: State, cfg: Config, topic: seq<Byte>, payload: seq<Byte>, qos: nat, retain: int, id: Counter,
                       times: PublishTimes, before: seq<Byte>, n: nat)
    requires cfg.outboxLimit > 0
    ensures var size := TotalLength(Publish(s, cfg, topic, payload, qos, retain, id, times, before, n).items);
            size <= TotalLength(s.items) || size <= cfg.outboxLimit + cfg.capacity
  {
    if Buildable(cfg, topic, payload, qos) {
      var msgId := if qos > 0 then id else 0;
      var built := Built(s, cfg, topic, payload, qos, id);
      var stored := built.(pendingQos := qos);
      var packet := PublishPacket(topic, payload, qos, retain, msgId);
      PublishSize(cfg, topic, payload, qos, retain, msgId);
      EnqueuedIsLonger(stored, id, PUBLISH, qos, packet, times.enqueue);
      AfterStoringSize(if qos > 0 then Enqueued(stored, id, PUBLISH, qos, packet, times.enqueue) else built,
                       Wire(s, cfg, topic, payload, qos, retain, msgId, before), qos, msgId, times, n);
    }
  }

  lemma ApplySize(s: State, cfg: Config, op: Op)
    requires cfg.outboxLimit > 0 && !op.Unsubscribing?
    ensures TotalLength(Apply(s, cfg, op).items) <= TotalLength(s.items) ||
            TotalLength(Apply(s, cfg, op).items) <= cfg.outboxLimit + cfg.capacity
  {
    match op
    case Publishing(topic, payload, qos, retain, id, times, before, n) =>
      PublishingSize(s, cfg, topic, payload, qos, retain, id, times, before, n);
    case Enqueueing(topic, payload, qos, retain, store, id, tick) =>
      if Buildable(cfg, topic, payload, qos) {
        var msgId := if qos > 0 then id else 0;
        PublishSize(cfg, topic, payload, qos, retain, msgId);
        EnqueuedIsLonger(s, msgId, PUBLISH, qos, PublishPacket(topic, payload, qos, retain, msgId), tick);
      }
    case Subscribing(topics, id, tick, n) => RequestSize(s.(lastId := id), cfg, SUBSCRIBE, SubscribeBody(topics, id), tick, n);
    case Unsubscribing(_, _, _, _) =>
    case Iterating(env) => IterateSize(s, cfg, env);
    case Connecting(_, _, _, _) =>
    case Losing =>
    case Stopping =>
  }

  lemma {:induction false} SizeStaysBounded(s: State, cfg: Config, ops: seq<Op>)
    requires cfg.outboxLimit > 0 && forall op :: op in ops ==> !op.Unsubscribing?
    requires TotalLength(s.items) <= cfg.outboxLimit + cfg.capacity
    ensures TotalLength(Run(s, cfg, ops).items) <= cfg.outboxLimit + cfg.capacity
    decreases |ops|
  {
    if ops != [] {
      ApplySize(s, cfg, ops[0]);
      SizeStaysBounded(Apply(s, cfg, ops[0]), cfg, ops[1..]);
    }
  }

  /** With a limit set, no run without unsubscribe stores more than the limit plus one out-buffer. */
  lemma OutboxLimitHolds(cfg: Config, ops: seq<Op>)
    requires cfg.outboxLimit > 0 && forall op :: op in ops ==> !op.Unsubscribing?
    ensures TotalLength(Run(Initial, cfg, ops).items) <= cfg.outboxLimit + cfg.capacity
  {
    SizeStaysBounded(Initial, cfg, ops);
  }

  // ---------- unsubscribe ----------

  /** A connect and `k` unsubscribes with consecutive ids, of none of which anything is written. */
  function Unsubscribes(topic: seq<Byte>, k: nat): seq<Op>
    requires k < 65536
  {
    if k == 0 then [Connecting([], true, 0, 0)] else Unsubscribes(topic, k - 1) + [Unsubscribing(topic, k, 0, 0)]
  }

  /** The packet of an unsubscribe with no fragment total pending. */
  function UnsubscribeSize(topic: seq<Byte>): nat {
    1 + |Varint.Encode(4 + |topic|)| + 4 + |topic|
  }

  predicate Piled(s: State, topic: seq<Byte>, k: nat) {
    && s.connected && s.frag.total == 0
    && TotalLength(s.items) == k * UnsubscribeSize(topic)
    && forall x :: x in s.items ==> 1 <= x.msgId <= k
  }

  lemma PilesUp(s: State, cfg: Config, topic: seq<Byte>, k: Counter)
    requires Piled(s, topic, k) && k < 65535
    requires topic != [] && 9 + |topic| <= cfg.capacity && 4 + |topic| <= Varint.MAX_VALUE
    ensures Allowed(s, cfg, Unsubscribing(topic, k + 1, 0, 0))
    ensures Piled(Apply(s, cfg, Unsubscribing(topic, k + 1, 0, 0)), topic, k + 1)
  {
    var id: Counter := k + 1;
    var body := UnsubscribeBody(topic, id);
    var packet := Printed(s.frag, FirstByte(UNSUBSCRIBE, 0, 1, 0), body);
    var printed := s.(lastId := id, frag := AfterPrinting(s.frag, |body|));
    var stored := Enqueued(printed, id, UNSUBSCRIBE, s.pendingQos, packet, 0);
    EnqueuedIsLonger(printed, id, UNSUBSCRIBE, s.pendingQos, packet, 0);
    MarkedIsSame(stored.items, id, Transmitted);
    UnsubscribePacket(s.frag, topic, id);
    OneMore(k, UnsubscribeSize(topic));
    IdsStayBelow(stored.items, id);
    assert Apply(s, cfg, Unsubscribing(topic, id, 0, 0)).items == WithPending(stored.items, id, Transmitted);
  }

  lemma UnsubscribePacket(f: Fragment, topic: seq<Byte>, id: nat)
    requires f.total == 0 && 4 + |topic| <= Varint.MAX_VALUE
    ensures |Printed(f, FirstByte(UNSUBSCRIBE, 0, 1, 0), UnsubscribeBody(topic, id))| == UnsubscribeSize(topic)
  {
  }

  lemma OneMore(k: nat, a: nat)
    ensures (k + 1) * a == k * a + a
  {
  }

  lemma IdsStayBelow(items: seq<Item>, id: int)
    requires forall x :: x in items ==> 1 <= x.msgId <= id
    ensures forall x :: x in WithPending(items, id, Transmitted) ==> 1 <= x.msgId <= id
  {
  }

  /** Unsubscribe is not checked against the limit: in a legal run as many packets pile up as there are ids. */
  lemma {:induction false} UnsubscribesPileUp(cfg: Config, topic: seq<Byte>, k: nat)
    requires k < 65536
    requires topic != [] && 9 + |topic| <= cfg.capacity && 4 + |topic| <= Varint.MAX_VALUE
    ensures Legal(Initial, cfg, Unsubscribes(topic, k)) && Piled(Run(Initial, cfg, Unsubscribes(topic, k)), topic, k)
  {
    if k == 0 {
      var op := Connecting([], true, 0, 0);
      assert [op][1..] == [];
      assert Run(Initial, cfg, [op]) == Apply(Initial, cfg, op);
      assert 0 * UnsubscribeSize(topic) == 0;
    } else {
      UnsubscribesPileUp(cfg, topic, k - 1);
      var s, op := Run(Initial, cfg, Unsubscribes(topic, k - 1)), Unsubscribing(topic, k, 0, 0);
      PilesUp(s, cfg, topic, k - 1);
      RunConcat(Initial, cfg, Unsubscribes(topic, k - 1), [op]);
      assert [op][1..] == [];
      assert Run(s, cfg, [op]) == Apply(s, cfg, op) && Legal(s, cfg, [op]);
    }
  }

  /** So whatever the limit, some legal run stores more than limit and out-buffer together, unless the limit is beyond what
      65535 packets can hold. */
  lemma UnsubscribeBreaksBound(cfg: Config)
    requires 10 <= cfg.capacity <= Varint.MAX_VALUE && cfg.outboxLimit + cfg.capacity < 65535 * (cfg.capacity - 3)
    ensures exists ops :: Legal(Initial, cfg, ops) && TotalLength(Run(Initial, cfg, ops).items) > cfg.outboxLimit + cfg.capacity
  {
    var topic: seq<Byte> := seq(cfg.capacity - 9, i => 116);
    UnsubscribesPileUp(cfg, topic, 65535);
    MoreThan(65535, UnsubscribeSize(topic), cfg.capacity - 3);
  }

  lemma MoreThan(k: nat, a: nat, b: nat)
    requires a >= b
    ensures k * a >= k * b
  {
  }

  /** And no size is out of reach that 65535 packets of the greatest length can have. */
  lemma UnsubscribeReachesAnySize(n: nat)
    requires n < 65535 * Varint.MAX_VALUE
    ensures exists cfg: Config, ops: seq<Op> ::
              cfg.outboxLimit == 1 && Legal(Initial, cfg, ops) && TotalLength(Run(Initial, cfg, ops).items) > n
  {
    var cfg := Config(Varint.MAX_VALUE + 5, 1, 0, 0, 0);
    var topic: seq<Byte> := seq(Varint.MAX_VALUE - 4, i => 116);
    UnsubscribesPileUp(cfg, topic, 65535);
    MoreThan(65535, UnsubscribeSize(topic), Varint.MAX_VALUE);
  }
}
