/** Where the guarantees stop: fragment fields that outlive their message, and messages that share the id zero. */
module Limits {
  import opened Bytes
  import opened MqttMsg
  import opened Outbox
  import opened ClientModel
  import opened Steps
  import opened Ledger
  import opened History
  import opened Runs
  import opened Guarantees
  import Varint

  // ---------- a stale fragment offset ----------

  /** A fragmented publish that is skipped, because the client is not connected, leaves its fragment offset behind. */
  lemma SkippedPublishLeavesOffset(s: State, cfg: Config, topic: seq<Byte>, payload: seq<Byte>, qos: nat, retain: int,
                                   id: Counter, times: PublishTimes, before: seq<Byte>, n: nat)
    requires !s.connected && Buildable(cfg, topic, payload, qos) && !(qos > 0 && OverLimit(s, cfg, |payload|))
    requires IsCut(cfg.capacity, HeaderSize(topic, qos), |payload|)
    ensures var header := HeaderSize(topic, qos);
            Publish(s, cfg, topic, payload, qos, retain, id, times, before, n).frag ==
            Fragment((1 + header + |Varint.Encode(header + |payload|)|) % SIZE_MOD, 0)
  {
  }

  /** An out-buffer of 256 bytes, and no limit or timeout. */
  const SMALL := Config(256, 0, 0, 0, 0)

  const AT_ZERO := PublishTimes(0, 0, 0)

  /** An offset that misleads the send loop is within reach of a legal run: a publish of 300 bytes on a topic of 100 while
      offline, and a connect. The next publish of ten bytes on a topic of one then owes 92 bytes more. */
  lemma StaleOffsetIsReachable(topic: seq<Byte>, payload: seq<Byte>, body: seq<Byte>, next: seq<Byte>)
    requires |topic| == 100 && |payload| == 300 && |body| == 14 && |next| == 10
    ensures var ops := [Publishing(topic, payload, 0, 0, 1, AT_ZERO, [], 0), Connecting(body, true, 0, 0)];
            var s := Run(Initial, SMALL, ops);
            && Legal(Initial, SMALL, ops)
            && s == Initial.(connected := true, frag := Fragment(102, 0))
            && Excess(s, SMALL, [116], next, 1) == 92
  {
    var first, second := Publishing(topic, payload, 0, 0, 1, AT_ZERO, [], 0), Connecting(body, true, 0, 0);
    SkippedFirst(Initial, SMALL, first);
    assert Varint.Encode(14) == [14];
    SurplusExactly(Fragment(102, 0), 256, 5, 10);
    RunOfTwo(Initial, SMALL, first, second);
  }

  lemma SkippedFirst(s: State, cfg: Config, op: Op)
    requires op.Publishing? && |op.topic| == 100 && |op.payload| == 300 && op.qos == 0
    requires cfg.capacity == 256 && !s.connected && s.items == []
    ensures Apply(s, cfg, op) == s.(frag := Fragment(105, 0))
  {
    Varint.EncodedLength(HeaderSize(op.topic, 0) + |op.payload|);
    NothingElseSkipped(s, cfg, op.topic, op.payload, op.retain, op.id, op.times, op.before, op.n);
  }

  /** Without stored messages the offset is all that a skipped QoS 0 publish changes. */
  lemma NothingElseSkipped(s: State, cfg: Config, topic: seq<Byte>, payload: seq<Byte>, retain: int,
                           id: Counter, times: PublishTimes, before: seq<Byte>, n: nat)
    requires !s.connected && s.items == [] && Buildable(cfg, topic, payload, 0)
    requires IsCut(cfg.capacity, HeaderSize(topic, 0), |payload|)
    ensures Publish(s, cfg, topic, payload, 0, retain, id, times, before, n) ==
            s.(frag := Fragment((1 + HeaderSize(topic, 0) + |Varint.Encode(HeaderSize(topic, 0) + |payload|)|) % SIZE_MOD, 0))
  {
    var built := Built(s, cfg, topic, payload, 0, id);
    NothingExpires(built, times.expire);
    assert AfterStoring(built, Wire(s, cfg, topic, payload, 0, retain, 0, before), 0, 0, times, n) == built;
    SkippedPublishLeavesOffset(s, cfg, topic, payload, 0, retain, id, times, before, n);
  }

  lemma RunOfTwo(s: State, cfg: Config, a: Op, b: Op)
    ensures Run(s, cfg, [a, b]) == Apply(Apply(s, cfg, a), cfg, b)
    ensures Legal(s, cfg, [a, b]) <==> Allowed(s, cfg, a) && Allowed(Apply(s, cfg, a), cfg, b)
  {
    RunOneMore(s, cfg, [], a);
    RunOneMore(s, cfg, [a], b);
    assert [] + [a] == [a] && [a] + [b] == [a, b];
  }

  /** What is then lost: if the transport fails after the packet and before the end of what the loop believes to owe, the
      whole packet is out, but the message stays QUEUED, and the task sends the same bytes again with DUP clear. */
  lemma StaleOffsetBreaksDup(s: State, cfg: Config, topic: seq<Byte>, payload: seq<Byte>, qos: nat, retain: int, id: Counter,
                             times: PublishTimes, before: seq<Byte>, m: nat)
    requires Good(s) && s.connected && qos > 0 && id > 0
    requires Buildable(cfg, topic, payload, qos) && !OverLimit(s, cfg, |payload|)
    requires 0 < Excess(s, cfg, topic, payload, qos) <= |before| + |payload|
    requires m >= |PublishPacket(topic, payload, qos, retain, id)|
    ensures var packet := PublishPacket(topic, payload, qos, retain, id);
            var t := Publish(s, cfg, topic, payload, qos, retain, id, times, before, |packet|);
            && t.log == s.log + [Wrote(|s.origin|, packet, false, false)]
            && t.items == s.items + [Item(|s.origin|, id, PUBLISH, qos, times.enqueue, Queued, packet)]
            && Resend(t, |s.items|, m, true).log == t.log + [Wrote(|s.origin|, packet, true, true)]
            && GetDup(packet[0]) == 0
  {
    var packet := PublishPacket(topic, payload, qos, retain, id);
    var wire := Wire(s, cfg, topic, payload, qos, retain, id, before);
    assert |wire| > |packet| && wire[..|packet|] == packet;
    PublishOrigin(s, id, qos, topic, payload, retain, times.enqueue);
  }

  /** In a run: after such a failure and another connect, the next pass sends the packet again. */
  lemma PacketSentTwice(s: State, cfg: Config, publish: Op, connect: Op, pass: Environment)
    requires publish.Publishing? && publish.qos > 0 && Good(s) && s.connected && Fresh(s, publish.id)
    requires s.items == [] && cfg.outboxLimit == cfg.keepaliveMs == cfg.refreshMs == 0
    requires Buildable(cfg, publish.topic, publish.payload, publish.qos)
    requires 0 < Excess(s, cfg, publish.topic, publish.payload, publish.qos) <= |publish.before| + |publish.payload|
    requires publish.n == |PublishPacket(publish.topic, publish.payload, publish.qos, publish.retain, publish.id)| <= pass.written
    requires connect.Connecting? && connect.accepted && BodyFits(cfg.capacity, connect.body) && |connect.body| <= Varint.MAX_VALUE
    requires !pass.disconnect && pass.reception.Idle? && pass.times.expire - publish.times.enqueue <= EXPIRED_TIMEOUT_MS
    ensures var ops := [publish, connect, Iterating(pass)];
            var packet := PublishPacket(publish.topic, publish.payload, publish.qos, publish.retain, publish.id);
            && Legal(s, cfg, ops) && GetDup(packet[0]) == 0
            && Run(s, cfg, ops).log == s.log + [Wrote(|s.origin|, packet, false, false), Wrote(|s.origin|, packet, true, true)]
  {
    var packet := PublishPacket(publish.topic, publish.payload, publish.qos, publish.retain, publish.id);
    StaleOffsetBreaksDup(s, cfg, publish.topic, publish.payload, publish.qos, publish.retain, publish.id, publish.times,
                         publish.before, publish.n);
    var t := Apply(s, cfg, publish);
    var item := Item(|s.origin|, publish.id, PUBLISH, publish.qos, publish.times.enqueue, Queued, packet);
    BrokenLeavesNoTotal(s, cfg, publish);
    assert t.items == [item];
    var u := Apply(t, cfg, connect);
    assert u.connected && u.items == [item] && u.log == t.log;
    PassSendsOnly(u, cfg, item, pass);
    RunOfTwo(s, cfg, publish, connect);
    RunOneMore(s, cfg, [publish, connect], Iterating(pass));
    assert [publish, connect] + [Iterating(pass)] == [publish, connect, Iterating(pass)];
  }

  lemma BrokenLeavesNoTotal(s: State, cfg: Config, op: Op)
    requires op.Publishing? && Buildable(cfg, op.topic, op.payload, op.qos) && !(op.qos > 0 && OverLimit(s, cfg, |op.payload|))
    ensures Apply(s, cfg, op).frag.total == 0
  {
  }

  lemma PassSendsOnly(s: State, cfg: Config, item: Item, pass: Environment)
    requires s.items == [item] && item.pending == Queued && item.msgType == PUBLISH && item.qos > 0 && |item.data| <= pass.written
    requires !pass.disconnect && pass.reception.Idle? && pass.times.expire - item.tick <= EXPIRED_TIMEOUT_MS
    requires cfg.keepaliveMs == cfg.refreshMs == 0
    ensures Iterate(s, cfg, pass).log == s.log + [Wrote(item.handle, item.data, true, true)]
  {
    var started := if s.lastRetransmit == 0 then s.(lastRetransmit := pass.times.start) else s;
    NothingExpires(started, pass.times.expire);
    assert First(started.items, HasPending(Queued)) == 0;
    MaintainLeaves(Serve(s, cfg, pass.times, pass.written), cfg, pass.times, pass.pinged);
  }

  lemma NothingExpires(s: State, now: int)
    requires forall x :: x in s.items ==> now - x.tick <= EXPIRED_TIMEOUT_MS
    ensures Expire(s, now) == s
  {
    KeptSkips(s.items, Expired(now, EXPIRED_TIMEOUT_MS));
    assert s.log + [] == s.log;
  }

  /** So does a fragmented message that is enqueued, stored or not. */
  lemma EnqueueLeavesOffset(s: State, cfg: Config, topic: seq<Byte>, payload: seq<Byte>, qos: nat, retain: int, store: bool,
                            id: Counter, tick: int)
    requires Buildable(cfg, topic, payload, qos) && !OverLimit(s, cfg, |payload|)
    requires IsCut(cfg.capacity, HeaderSize(topic, qos), |payload|)
    ensures var header := HeaderSize(topic, qos);
            EnqueueOnly(s, cfg, topic, payload, qos, retain, store, id, tick).frag.offset ==
            (1 + header + |Varint.Encode(header + |payload|)|) % SIZE_MOD
  {
  }

  // ---------- a stale fragment total ----------

  /** Enqueue leaves a fragment total behind exactly if it prints a fragmented message and does not store it: QoS 0
      without `store`, or too long to be printed after all. */
  lemma EnqueueLeavesTotal(s: State, cfg: Config, topic: seq<Byte>, payload: seq<Byte>, qos: nat, retain: int, store: bool,
                           id: Counter, tick: int)
    requires s.frag.total == 0
    ensures EnqueueOnly(s, cfg, topic, payload, qos, retain, store, id, tick).frag.total != 0 <==>
            && !OverLimit(s, cfg, |payload|)
            && HeaderFits(cfg.capacity, topic, Some(payload), |payload|, qos)
            && IsCut(cfg.capacity, HeaderSize(topic, qos), |payload|)
            && (!Buildable(cfg, topic, payload, qos) || (qos == 0 && !store))
  {
  }

  /** A publish leaves one only if it is too long to be printed. */
  lemma PublishLeavesTotal(s: State, cfg: Config, topic: seq<Byte>, payload: seq<Byte>, qos: nat, retain: int, id: Counter,
                           times: PublishTimes, before: seq<Byte>, n: nat)
    requires s.frag.total == 0
    ensures Publish(s, cfg, topic, payload, qos, retain, id, times, before, n).frag.total != 0 <==>
            && !(qos > 0 && OverLimit(s, cfg, |payload|))
            && HeaderFits(cfg.capacity, topic, Some(payload), |payload|, qos)
            && IsCut(cfg.capacity, HeaderSize(topic, qos), |payload|)
            && !Buildable(cfg, topic, payload, qos)
  {
  }

  /** After such an enqueue the next message other than a publish is not a packet, whatever it is: acknowledgement,
      PINGREQ, DISCONNECT, CONNECT, or a subscribe or unsubscribe, which is then stored that way. */
  lemma StaleTotalCorruptsNext(s: State, cfg: Config, topic: seq<Byte>, payload: seq<Byte>, qos: nat, retain: int, store: bool,
                               id: Counter, tick: int, first: Byte, body: seq<Byte>)
    requires s.frag.total == 0 && ValidFirstByte(first) && BodyFits(cfg.capacity, body) && |body| <= Varint.MAX_VALUE
    ensures var f := EnqueueOnly(s, cfg, topic, payload, qos, retain, store, id, tick).frag;
            WellFormed(Printed(f, first, body)) <==> f.total == 0
  {
    var f := EnqueueOnly(s, cfg, topic, payload, qos, retain, store, id, tick).frag;
    TotalExceedsBuffer(s, cfg, topic, payload, qos, retain, store, id, tick);
    PrintedExactly(f, first, body);
  }

  lemma TotalExceedsBuffer(s: State, cfg: Config, topic: seq<Byte>, payload: seq<Byte>, qos: nat, retain: int, store: bool,
                           id: Counter, tick: int)
    requires s.frag.total == 0
    ensures var f := EnqueueOnly(s, cfg, topic, payload, qos, retain, store, id, tick).frag;
            f.total == 0 || (f.total >= MAX_FIXED_HEADER_SIZE && f.total > cfg.capacity)
  {
  }

  /** In a run: after one unstored QoS 0 enqueue of 300 bytes, into an out-buffer of 256, no message but a publish is a
      packet. */
  lemma StaleTotalIsReachable(op: Op, first: Byte, body: seq<Byte>)
    requires op.Enqueueing? && |op.topic| == 1 && |op.payload| == 300 && op.qos == 0 && !op.store
    requires ValidFirstByte(first) && BodyFits(SMALL.capacity, body)
    ensures Legal(Initial, SMALL, [op]) && !WellFormed(Printed(Run(Initial, SMALL, [op]).frag, first, body))
  {
    TotalLeft(Initial, SMALL, op);
    StaleTotalCorruptsNext(Initial, SMALL, op.topic, op.payload, op.qos, op.retain, op.store, op.id, op.tick, first, body);
    RunOneMore(Initial, SMALL, [], op);
    assert [] + [op] == [op];
  }

  lemma TotalLeft(s: State, cfg: Config, op: Op)
    requires op.Enqueueing? && |op.topic| == 1 && |op.payload| == 300 && op.qos == 0 && !op.store && cfg == SMALL && s.frag.total == 0
    ensures Apply(s, cfg, op).frag.total != 0
  {
    EnqueueLeavesTotal(s, cfg, op.topic, op.payload, op.qos, op.retain, op.store, op.id, op.tick);
  }

  // ---------- marking by id ----------

  /** Apart from the message with handle `h` everything stored is still there as it was. */
  predicate OthersUnchanged(before: seq<Item>, after: seq<Item>, h: nat) {
    forall x :: x in before && x.handle != h ==> x in after
  }

  /** Sending the first QUEUED message leaves the others alone, unless it is a QoS 0 publish that went out whole and the
      next message with id zero is not yet TRANSMITTED: that one is marked although nothing of it was written. */
  lemma MarkingExactly(s: State, i: nat, n: nat)
    requires Good(s) && i == First(s.items, HasPending(Queued)) < |s.items|
    ensures var rest := Removed(s.items, i);
            var j := First(rest, HasId(0));
            OthersUnchanged(s.items, TransmitQueued(s, i, n).items, s.items[i].handle) <==>
            !(&& s.items[i].msgType == PUBLISH && s.items[i].qos == 0 && n >= |s.items[i].data|
              && j < |rest| && rest[j].pending != Transmitted)
  {
    var item := s.items[i];
    assert Stored(item, s.origin, s.log) && OriginItemOk(s.origin[item.handle], item.handle);
    assert s.items[i := item.(data := item.data)] == s.items;
    if n >= |item.data| {
      if item.msgType == PUBLISH && item.qos == 0 {
        HandlesDifferAt(s.items, i, |s.origin|);
        RestMarked(s, i);
      } else {
        FindsById(s.items, i);
        OneRewritten(s.items, i, item.(pending := Transmitted), |s.origin|);
      }
    }
  }

  /** In a run: two QoS 0 messages are stored, and a pass sends the first. The second is then TRANSMITTED, and nothing of
      it was written. */
  lemma MarkedUnsent(cfg: Config, first: Op, second: Op, connect: Op, pass: Environment)
    requires StoresUnreliably(cfg, first) && StoresUnreliably(cfg, second) && cfg.outboxLimit == cfg.keepaliveMs == cfg.refreshMs == 0
    requires connect.Connecting? && connect.accepted && BodyFits(cfg.capacity, connect.body) && |connect.body| <= Varint.MAX_VALUE
    requires !pass.disconnect && pass.reception.Idle? && pass.written >= |StoredPacket(first)|
    requires pass.times.expire - first.tick <= EXPIRED_TIMEOUT_MS && pass.times.expire - second.tick <= EXPIRED_TIMEOUT_MS
    ensures var ops := [first, second, connect, Iterating(pass)];
            var s := Run(Initial, cfg, ops);
            && Legal(Initial, cfg, ops)
            && s.log == [Wrote(0, StoredPacket(first), true, true), Left(0, SentOnce)]
            && s.items == [Item(1, 0, PUBLISH, 0, second.tick, Transmitted, StoredPacket(second))]
  {
    var a, b := Item(0, 0, PUBLISH, 0, first.tick, Queued, StoredPacket(first)), Item(1, 0, PUBLISH, 0, second.tick, Queued, StoredPacket(second));
    StoresOne(Initial, cfg, first);
    var s := Apply(Initial, cfg, first);
    StoresOne(s, cfg, second);
    var t := Apply(s, cfg, second);
    assert t.items == [a, b];
    var u := Apply(t, cfg, connect);
    assert u.connected && u.items == [a, b] && u.log == [];
    PassMarksSecond(u, cfg, a, b, pass);
    RunOfFour(Initial, cfg, first, second, connect, Iterating(pass));
  }

  lemma RunOfFour(s: State, cfg: Config, a: Op, b: Op, c: Op, d: Op)
    ensures var t := Apply(Apply(Apply(s, cfg, a), cfg, b), cfg, c);
            && Run(s, cfg, [a, b, c, d]) == Apply(t, cfg, d)
            && (Legal(s, cfg, [a, b, c, d]) <==>
                Allowed(s, cfg, a) && Allowed(Apply(s, cfg, a), cfg, b) && Allowed(Apply(Apply(s, cfg, a), cfg, b), cfg, c) && Allowed(t, cfg, d))
  {
    RunOfTwo(s, cfg, a, b);
    RunOneMore(s, cfg, [a, b], c);
    assert [a, b] + [c] == [a, b, c];
    RunOneMore(s, cfg, [a, b, c], d);
    assert [a, b, c] + [d] == [a, b, c, d];
  }

  /** An enqueue of a QoS 0 message that fits the out-buffer and is stored. */
  predicate StoresUnreliably(cfg: Config, op: Op) {
    && op.Enqueueing? && op.qos == 0 && op.store && Buildable(cfg, op.topic, op.payload, 0)
    && !IsCut(cfg.capacity, HeaderSize(op.topic, 0), |op.payload|)
  }

  function StoredPacket(op: Op): seq<Byte>
    requires op.Enqueueing?
  {
    PublishPacket(op.topic, op.payload, 0, op.retain, 0)
  }

  lemma StoresOne(s: State, cfg: Config, op: Op)
    requires StoresUnreliably(cfg, op) && cfg.outboxLimit == 0
    ensures var t := Apply(s, cfg, op);
            && t.items == s.items + [Item(|s.origin|, 0, PUBLISH, 0, op.tick, Queued, StoredPacket(op))]
            && |t.origin| == |s.origin| + 1 && t.log == s.log && t.connected == s.connected && t.frag.total == 0
  {
  }

  lemma PassMarksSecond(s: State, cfg: Config, a: Item, b: Item, pass: Environment)
    requires s.items == [a, b] && a.pending == b.pending == Queued && a.msgId == b.msgId == 0 && a.handle != b.handle
    requires a.msgType == PUBLISH && a.qos == 0 && |a.data| <= pass.written && cfg.keepaliveMs == cfg.refreshMs == 0
    requires !pass.disconnect && pass.reception.Idle?
    requires pass.times.expire - a.tick <= EXPIRED_TIMEOUT_MS && pass.times.expire - b.tick <= EXPIRED_TIMEOUT_MS
    ensures var t := Iterate(s, cfg, pass);
            && t.items == [b.(pending := Transmitted)]
            && t.log == s.log + [Wrote(a.handle, a.data, true, true), Left(a.handle, SentOnce)]
  {
    var started := if s.lastRetransmit == 0 then s.(lastRetransmit := pass.times.start) else s;
    NothingExpires(started, pass.times.expire);
    assert First(s.items, HasPending(Queued)) == 0;
    SendsAndMarks(started, a, b, pass.written);
    MaintainLeaves(Serve(s, cfg, pass.times, pass.written), cfg, pass.times, pass.pinged);
  }

  lemma SendsAndMarks(s: State, a: Item, b: Item, n: nat)
    requires s.items == [a, b] && a.msgId == b.msgId == 0 && a.handle != b.handle
    requires a.msgType == PUBLISH && a.qos == 0 && |a.data| <= n
    ensures var t := TransmitQueued(s, 0, n);
            t.items == [b.(pending := Transmitted)] && t.log == s.log + [Wrote(a.handle, a.data, true, true), Left(a.handle, SentOnce)]
  {
    var written := s.items[0 := a.(data := a.data)];
    assert written == [a, b] && First(written, HasHandle(a.handle)) == 0;
    assert Removed(written, 0) == [b] && First([b], HasId(0)) == 0;
  }

  lemma OneRewritten(items: seq<Item>, i: nat, x: Item, next: nat)
    requires SortedHandles(items, next) && i < |items|
    ensures OthersUnchanged(items, items[i := x], items[i].handle)
  {
    forall y | y in items && y.handle != items[i].handle
      ensures y in items[i := x]
    {
      var k :| 0 <= k < |items| && items[k] == y;
      assert items[i := x][k] == y;
    }
  }

  lemma RestMarked(s: State, i: nat)
    requires Good(s) && i < |s.items|
    ensures var rest := Removed(s.items, i);
            var j := First(rest, HasId(0));
            OthersUnchanged(s.items, WithPending(rest, 0, Transmitted), s.items[i].handle) <==>
            !(j < |rest| && rest[j].pending != Transmitted)
  {
    var rest := Removed(s.items, i);
    var j := First(rest, HasId(0));
    RestThere(s.items, i);
    if j < |rest| {
      if rest[j].pending == Transmitted {
        assert rest[j := rest[j].(pending := Transmitted)] == rest;
      } else {
        MarkedIsGone(s, i, j);
      }
    }
  }

  lemma RestThere(items: seq<Item>, i: nat)
    requires i < |items|
    ensures OthersUnchanged(items, Removed(items, i), items[i].handle)
  {
  }

  lemma MarkedIsGone(s: State, i: nat, j: nat)
    requires Good(s) && i < |s.items| && j < |Removed(s.items, i)| && Removed(s.items, i)[j].pending != Transmitted
    ensures var rest := Removed(s.items, i);
            !OthersUnchanged(s.items, rest[j := rest[j].(pending := Transmitted)], s.items[i].handle)
  {
  }
}
