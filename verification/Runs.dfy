/** Runs of the client: API calls, passes of the client task, connects and stops in any order, and what holds of all of them. */
module Runs {
  import opened Bytes
  import opened MqttMsg
  import opened Outbox
  import opened ClientModel
  import opened Steps
  import opened Ledger
  import opened History

  datatype Op =
    | Publishing(topic: seq<Byte>, payload: seq<Byte>, qos: nat, retain: int, id: Counter, times: PublishTimes,
                 before: seq<Byte>, n: nat)
    | Enqueueing(topic: seq<Byte>, payload: seq<Byte>, qos: nat, retain: int, store: bool, id: Counter, tick: int)
    | Subscribing(topics: seq<Filter>, id: Counter, tick: int, n: nat)
    | Unsubscribing(topic: seq<Byte>, id: Counter, tick: int, n: nat)
    | Iterating(env: Environment)
    | Connecting(body: seq<Byte>, accepted: bool, refreshTick: int, keepaliveTick: int)
    | Losing
    | Stopping

  function Apply(s: State, cfg: Config, op: Op): State {
    match op
    case Publishing(topic, payload, qos, retain, id, times, before, n) =>
      Publish(s, cfg, topic, payload, qos, retain, id, times, before, n)
    case Enqueueing(topic, payload, qos, retain, store, id, tick) => EnqueueOnly(s, cfg, topic, payload, qos, retain, store, id, tick)
    case Subscribing(topics, id, tick, n) => Subscribe(s, cfg, topics, id, tick, n)
    case Unsubscribing(topic, id, tick, n) => Unsubscribe(s, cfg, topic, id, tick, n)
    case Iterating(env) => Iterate(s, cfg, env)
    case Connecting(body, accepted, refreshTick, keepaliveTick) => Connect(s, cfg, body, accepted, refreshTick, keepaliveTick)
    case Losing => Aborted(s)
    case Stopping => Stop(s)
  }

  /** No stored message has this id. */
  predicate Fresh(s: State, id: Counter) {
    1 <= id && forall x :: x in s.items ==> x.msgId != id
  }

  /** A new message gets an id no stored message has; the task only iterates while connected. */
  predicate Allowed(s: State, cfg: Config, op: Op) {
    match op
    case Publishing(topic, payload, qos, retain, id, times, before, n) => qos > 0 ==> Fresh(s, id)
    case Enqueueing(topic, payload, qos, retain, store, id, tick) => qos > 0 ==> Fresh(s, id)
    case Subscribing(topics, id, tick, n) => Fresh(s, id)
    case Unsubscribing(topic, id, tick, n) => Fresh(s, id)
    case Iterating(env) => s.connected
    case _ => true
  }

  const Initial := State([], [], false, false, 0, 0, 0, [], Fragment(0, 0), 0, 0)

  function Run(s: State, cfg: Config, ops: seq<Op>): State
    decreases |ops|
  {
    if ops == [] then s else Run(Apply(s, cfg, ops[0]), cfg, ops[1..])
  }

  predicate Legal(s: State, cfg: Config, ops: seq<Op>)
    decreases |ops|
  {
    ops == [] || (Allowed(s, cfg, ops[0]) && Legal(Apply(s, cfg, ops[0]), cfg, ops[1..]))
  }

  ghost predicate Good(s: State) { Inv(s.items, s.origin, s.log) }

  // ---------- each step keeps the invariant ----------

  /** With distinct ids, an id leads to its own item. */
  lemma FindsById(items: seq<Item>, i: nat)
    requires DistinctIds(items) && i < |items| && items[i].msgId != 0
    ensures First(items, HasId(items[i].msgId)) == i
  {
  }

  lemma PublishOrigin(s: State, id: nat, qos: nat, topic: seq<Byte>, payload: seq<Byte>, retain: int, tick: int)
    requires id != 0 <==> qos > 0
    ensures OriginItemOk(Item(|s.origin|, id, PUBLISH, qos, tick, Queued, PublishPacket(topic, payload, qos, retain, id)), |s.origin|)
  {
  }

  /** A write of the i-th item, of its bytes and perhaps more. */
  lemma WriteIsOk(s: State, i: nat, bytes: seq<Byte>, n: nat, queued: bool)
    requires Good(s) && i < |s.items| && s.items[i].pending in {Queued, Transmitted}
    requires ResendData(s.items[i]) <= bytes && (queued ==> s.items[i].pending == Queued)
    ensures EntryStands(s.origin, s.log + [WriteEntry(s.items[i].handle, bytes, n, queued)], |s.log|)
    ensures EntryInOrder(s.origin, s.log + [WriteEntry(s.items[i].handle, bytes, n, queued)], |s.log|)
  {
    var item := s.items[i];
    var e := WriteEntry(item.handle, bytes, n, queued);
    var longer := s.log + [e];
    assert Stored(item, s.origin, s.log) && InStep(item, s.origin, s.log);
    DupTwice(s.origin[item.handle].data);
    assert longer[|s.log|] == e && longer[..|s.log|] == s.log;
    assert forall k :: 0 <= k < |s.log| ==> longer[k] == s.log[k];
    PartOrMore(ResendData(item), bytes, n);
  }

  /** The first bytes of more than `data` are a part of it, or go on after it. */
  lemma PartOrMore(data: seq<Byte>, bytes: seq<Byte>, n: nat)
    requires data <= bytes
    ensures n <= |bytes| ==> WroteOf(data, bytes[..n], false)
  {
  }

  /** The item a write leaves behind, given the state it ends in. */
  lemma WrittenItem(s: State, i: nat, bytes: seq<Byte>, n: nat, queued: bool, x: Item)
    requires Good(s) && i < |s.items| && s.items[i].pending in {Queued, Transmitted}
    requires x == s.items[i].(data := ResendData(s.items[i]), pending := x.pending, tick := x.tick)
    requires Reliable(x) ==> x.pending == if n >= |bytes| then Transmitted else s.items[i].pending
    ensures InStep(x, s.origin, s.log + [WriteEntry(x.handle, bytes, n, queued)])
    ensures CopyOf(x, s.items[i])
  {
    var item := s.items[i];
    assert Stored(item, s.origin, s.log) && InStep(item, s.origin, s.log);
    var e := WriteEntry(item.handle, bytes, n, queued);
    Appended(s.log, e, item.handle);
    var longer := s.log + [e];
    assert longer[|s.log|] == e && forall k :: 0 <= k < |s.log| ==> longer[k] == s.log[k];
  }

  /** mqtt_resend_queued, of a queued message followed by its marking or of a transmitted one. */
  lemma ResendKeeps(s: State, i: nat, n: nat, queued: bool)
    requires Good(s) && i < |s.items|
    requires s.items[i].pending == if queued then Queued else Transmitted
    requires queued ==> i == First(s.items, HasPending(Queued))
    ensures Good(if queued then TransmitQueued(s, i, n) else Resend(s, i, n, false))
  {
    var item := s.items[i];
    var data := ResendData(item);
    var e := WriteEntry(item.handle, data, n, queued);
    WriteIsOk(s, i, data, n, queued);
    var whole := n >= |data|;
    var x := item.(data := data, pending := if whole && Reliable(item) then Transmitted else item.pending);
    WrittenItem(s, i, data, n, queued, x);
    if queued {
      assert forall j :: 0 <= j < i ==> !HasPending(Queued)(s.items[j]);
    }
    ItemMoves(s.items, s.origin, s.log, i, x, e);
    if whole {
      WholeResendKeeps(s, i, n, queued, x, e);
    }
  }

  lemma WholeResendKeeps(s: State, i: nat, n: nat, queued: bool, x: Item, e: Entry)
    requires Good(s) && i < |s.items| && n >= |ResendData(s.items[i])|
    requires x == s.items[i].(data := ResendData(s.items[i]), pending := if Reliable(s.items[i]) then Transmitted else s.items[i].pending)
    requires s.items[i].pending == if queued then Queued else Transmitted
    requires e == WriteEntry(x.handle, x.data, n, queued) && Inv(s.items[i := x], s.origin, s.log + [e])
    ensures Good(if queued then TransmitQueued(s, i, n) else Resend(s, i, n, false))
  {
    var item := s.items[i];
    var items, log := s.items[i := x], s.log + [e];
    assert Stored(item, s.origin, s.log) && OriginItemOk(s.origin[item.handle], item.handle);
    var rewritten := s.items[i := item.(data := x.data)];
    if item.msgType == PUBLISH && item.qos == 0 {
      assert rewritten == items;
      HandleFindsItem(items, items[i], |s.origin|);
      HandlesDifferAt(items, i, |s.origin|);
      ItemLeaves(items, s.origin, log, i, SentOnce);
      if queued {
        MarkKeeps(Removed(items, i), s.origin, log + [Left(x.handle, SentOnce)], item.msgId, Transmitted);
      }
    } else if queued {
      FindsById(s.items, i);
      assert item.msgId != 0;
      SameIds(s.items, rewritten, item.msgId);
      if Reliable(item) {
        assert WithPending(rewritten, item.msgId, Transmitted) == items;
      } else {
        assert rewritten == items;
        MarkKeeps(items, s.origin, log, item.msgId, Transmitted);
      }
    } else {
      assert rewritten == items;
    }
  }

  lemma HandlesDifferAt(items: seq<Item>, i: nat, next: nat)
    requires SortedHandles(items, next) && i < |items|
    ensures First(items, HasHandle(items[i].handle)) == i
  {
  }

  lemma SameIds(a: seq<Item>, b: seq<Item>, id: int)
    requires |a| == |b| && forall j :: 0 <= j < |a| ==> a[j].msgId == b[j].msgId
    ensures First(a, HasId(id)) == First(b, HasId(id))
  {
  }

  /** Marking by an id that leads to a message which is not reliable, or to none. */
  lemma MarkKeeps(items: seq<Item>, origin: seq<Item>, log: seq<Entry>, id: int, pending: Pending)
    requires Inv(items, origin, log)
    requires var i := First(items, HasId(id)); i < |items| ==> !Reliable(items[i]) || id == 0
    ensures Inv(WithPending(items, id, pending), origin, log)
  {
    var i := First(items, HasId(id));
    if i < |items| {
      assert Stored(items[i], origin, log) && OriginItemOk(origin[items[i].handle], items[i].handle);
      assert InStep(items[i].(pending := pending), origin, log);
      ItemChanges(items, origin, log, i, items[i].(pending := pending));
    }
  }

  lemma StoreKeeps(s: State, id: Counter, typ: int, qos: int, packet: seq<Byte>, tick: int)
    requires Good(s) && OriginItemOk(Item(|s.origin|, id, typ, qos, tick, Queued, packet), |s.origin|)
    requires id != 0 ==> Fresh(s, id)
    ensures Good(Enqueued(s, id, typ, qos, packet, tick))
  {
    ItemArrives(s.items, s.origin, s.log, Item(|s.origin|, id, typ, qos, tick, Queued, packet));
  }

  lemma DeparturesFollow(log: seq<Entry>, item: Item, rest: seq<Item>, cause: Cause)
    ensures log + Departures([item] + rest, cause) == (log + [Left(item.handle, cause)]) + Departures(rest, cause)
  {
  }

  /** Expiry, one removal after the other. */
  lemma {:induction false} ExpiryKeeps(items: seq<Item>, origin: seq<Item>, log: seq<Entry>, p: Item -> bool, cause: Cause)
    requires Inv(items, origin, log)
    ensures Inv(Kept(items, p), origin, log + Departures(Dropped(items, p), cause))
    decreases |items|
  {
    var i := First(items, p);
    KeptSkips(items, p);
    if i == |items| {
      assert log + [] == log;
    } else {
      var e := Left(items[i].handle, cause);
      ItemLeaves(items, origin, log, i, cause);
      ExpiryKeeps(Removed(items, i), origin, log + [e], p, cause);
      DeparturesFollow(log, items[i], Dropped(Removed(items, i), p), cause);
    }
  }

  lemma FrontLeaves(items: seq<Item>, origin: seq<Item>, log: seq<Entry>)
    requires Inv(items, origin, log) && items != []
    ensures Inv(items[1..], origin, log + [Left(items[0].handle, Stopped)])
  {
    ItemLeaves(items, origin, log, 0, Stopped);
    assert Removed(items, 0) == items[1..];
  }

  lemma {:induction false} StopKeeps(items: seq<Item>, origin: seq<Item>, log: seq<Entry>)
    requires Inv(items, origin, log)
    ensures Inv([], origin, log + Departures(items, Stopped))
    decreases |items|
  {
    if items == [] {
      assert log + [] == log;
    } else {
      FrontLeaves(items, origin, log);
      StopKeeps(items[1..], origin, log + [Left(items[0].handle, Stopped)]);
      DeparturesFollow(log, items[0], items[1..], Stopped);
      assert [items[0]] + items[1..] == items;
    }
  }

  lemma RemovalKeeps(s: State, typ: nat, id: nat, publishedEvent: bool)
    requires Good(s) && (publishedEvent ==> typ == PUBLISH)
    ensures Good(Removal(s, typ, id, publishedEvent))
  {
    var i := First(s.items, HasIdAndType(id, typ));
    if i < |s.items| {
      var item := s.items[i];
      assert Stored(item, s.origin, s.log) && OriginItemOk(s.origin[item.handle], item.handle);
      ItemLeaves(s.items, s.origin, s.log, i, Acked);
      var log := s.log + [Left(item.handle, Acked)];
      if publishedEvent {
        EventKeeps(Removed(s.items, i), s.origin, log, id);
        assert s.log + [Left(item.handle, Acked)] + [Published(id)] == log + [Published(id)];
      } else {
        assert s.log + [Left(item.handle, Acked)] + [] == log;
      }
    }
  }

  lemma EventKeeps(items: seq<Item>, origin: seq<Item>, log: seq<Entry>, id: int)
    requires Inv(items, origin, log)
    requires |log| > 0 && var last := log[|log| - 1];
             last.Left? && last.cause == Acked && last.handle < |origin| && origin[last.handle].msgId == id && origin[last.handle].msgType == PUBLISH
    ensures Inv(items, origin, log + [Published(id)])
  {
    var e := Published(id);
    BookedNotes(items, origin, log, e);
    OrderGrows(origin, log, e);
    forall j | 0 <= j < |items|
      ensures InStep(items[j], origin, log + [e])
    {
      assert InStep(items[j], origin, log);
      ItemStays(items[j], origin, log, e);
    }
  }

  lemma DispatchKeeps(s: State, msg: Incoming, delivered: bool, now: int)
    requires Good(s)
    ensures Good(Dispatch(s, msg, delivered, now))
  {
    if msg.typ == SUBACK {
      RemovalKeeps(s, SUBSCRIBE, msg.id, false);
    } else if msg.typ == UNSUBACK {
      RemovalKeeps(s, UNSUBSCRIBE, msg.id, false);
    } else if msg.typ == PUBACK || msg.typ == PUBCOMP {
      RemovalKeeps(s, PUBLISH, msg.id, true);
    } else if msg.typ == PUBREC {
      var i := First(s.items, HasId(msg.id));
      if i < |s.items| {
        PubrecKeeps(s, i);
      }
    }
  }

  lemma PubrecKeeps(s: State, i: nat)
    requires Good(s) && i < |s.items|
    ensures Inv(s.items[i := s.items[i].(pending := Acknowledged)], s.origin, s.log + [Received(s.items[i].handle)])
  {
    var x, e := s.items[i].(pending := Acknowledged), Received(s.items[i].handle);
    assert Stored(x, s.origin, s.log) && InStep(s.items[i], s.origin, s.log);
    assert (s.log + [e])[..|s.log|] == s.log;
    Appended(s.log, e, x.handle);
    ItemMoves(s.items, s.origin, s.log, i, x, e);
  }

  lemma TransmitKeeps(s: State, cfg: Config, times: TaskTimes, n: nat)
    requires Good(s)
    ensures Good(Transmit(s, cfg, times, n))
  {
    var i := First(s.items, HasPending(Queued));
    if i < |s.items| {
      ResendKeeps(s, i, n, true);
    } else {
      var t := s.(lastRetransmit := times.transmit);
      var j := First(t.items, HasPending(Transmitted));
      if j < |t.items| {
        ResendKeeps(t, j, n, false);
      }
    }
  }

  lemma ServeKeeps(s: State, cfg: Config, times: TaskTimes, n: nat)
    requires Good(s)
    ensures Good(Serve(s, cfg, times, n))
  {
    var started := if s.lastRetransmit == 0 then s.(lastRetransmit := times.start) else s;
    ExpiryKeeps(started.items, started.origin, started.log, Expired(times.expire, EXPIRED_TIMEOUT_MS), TimedOut);
    TransmitKeeps(Expire(started, times.expire), cfg, times, n);
  }

  lemma IterateKeeps(s: State, cfg: Config, env: Environment)
    requires Good(s)
    ensures Good(Iterate(s, cfg, env))
  {
    var received := Receive(s, env.reception, env.times.receive);
    if env.reception.Handled? {
      DispatchKeeps(s, env.reception.msg, env.reception.delivered, env.times.receive);
    }
    var served := Serve(received, cfg, env.times, env.written);
    ServeKeeps(received, cfg, env.times, env.written);
    MaintainLeaves(served, cfg, env.times, env.pinged);
  }

  /** A message that was just stored as QUEUED and is written by the publishing call itself, with whatever its send loop
      sends after it. */
  lemma DirectWriteKeeps(s: State, wire: seq<Byte>, qos: nat, id: nat, times: PublishTimes, n: nat)
    requires Good(s) && s.items != [] && s.connected && qos > 0
    requires var x := s.items[|s.items| - 1];
             x.handle == |s.origin| - 1 && x.pending == Queued && x.msgId == id != 0 && x.data <= wire && Reliable(x)
    ensures Good(AfterStoring(s, wire, qos, id, times, n))
  {
    var i := |s.items| - 1;
    var item := s.items[i];
    if n < |wire| {
      LastMoves(s, wire, n, item);
      assert s.items[i := item] == s.items;
    } else {
      LastMoves(s, wire, n, item.(tick := times.sent, pending := Transmitted));
      FindsById(s.items, i);
      TickedAndMarked(s.items, id, i, times.sent);
    }
  }

  lemma LastMoves(s: State, wire: seq<Byte>, n: nat, x: Item)
    requires Good(s) && s.items != []
    requires var item := s.items[|s.items| - 1];
             && item.pending == Queued && Reliable(item) && item.data <= wire
             && x == item.(tick := x.tick, pending := if n >= |wire| then Transmitted else Queued)
    ensures var item := s.items[|s.items| - 1];
            Inv(s.items[|s.items| - 1 := x], s.origin, s.log + [WriteEntry(item.handle, wire, n, false)])
  {
    var i := |s.items| - 1;
    WriteIsOk(s, i, wire, n, false);
    WrittenItem(s, i, wire, n, false, x);
    ItemMoves(s.items, s.origin, s.log, i, x, WriteEntry(x.handle, wire, n, false));
  }

  lemma TickedAndMarked(items: seq<Item>, id: int, i: nat, tick: int)
    requires i == First(items, HasId(id)) < |items|
    ensures WithPending(WithTick(items, id, tick), id, Transmitted) == items[i := items[i].(tick := tick, pending := Transmitted)]
  {
  }

  lemma PublishKeeps(s: State, cfg: Config, topic: seq<Byte>, payload: seq<Byte>, qos: nat, retain: int, id: Counter,
                     times: PublishTimes, before: seq<Byte>, n: nat)
    requires Good(s) && (qos > 0 ==> Fresh(s, id))
    ensures Good(Publish(s, cfg, topic, payload, qos, retain, id, times, before, n))
  {
    var msgId := if qos > 0 then id else 0;
    var packet := PublishPacket(topic, payload, qos, retain, msgId);
    var stored := Built(s, cfg, topic, payload, qos, id);
    if qos > 0 {
      PublishOrigin(s, msgId, qos, topic, payload, retain, times.enqueue);
      StoreKeeps(stored.(pendingQos := qos), id, PUBLISH, qos, packet, times.enqueue);
      stored := Enqueued(stored.(pendingQos := qos), id, PUBLISH, qos, packet, times.enqueue);
      if s.connected {
        DirectWriteKeeps(stored, Wire(s, cfg, topic, payload, qos, retain, id, before), qos, id, times, n);
      }
    }
    ExpiryKeeps(stored.items, stored.origin, stored.log, Expired(times.expire, EXPIRED_TIMEOUT_MS), TimedOut);
  }

  lemma RequestKeeps(s: State, cfg: Config, typ: nat, body: seq<Byte>, tick: int, n: nat)
    requires Good(s) && typ in {SUBSCRIBE, UNSUBSCRIBE} && Fresh(s, s.lastId)
    ensures Good(Request(s, cfg, typ, body, tick, n))
  {
    var packet := Printed(s.frag, FirstByte(typ, 0, 1, 0), body);
    var printed := s.(frag := AfterPrinting(s.frag, |body|));
    StoreMarkedKeeps(printed, typ, packet, tick);
    WriteKeeps(Marked(Enqueued(printed, s.lastId, typ, s.pendingQos, packet, tick), s.lastId, Transmitted), |s.items|, n);
  }

  lemma StoreMarkedKeeps(s: State, typ: nat, packet: seq<Byte>, tick: int)
    requires Good(s) && typ in {SUBSCRIBE, UNSUBSCRIBE} && Fresh(s, s.lastId)
    ensures var marked := Marked(Enqueued(s, s.lastId, typ, s.pendingQos, packet, tick), s.lastId, Transmitted);
            && Good(marked) && |marked.items| == |s.items| + 1
            && marked.items[|s.items|] == Item(|s.origin|, s.lastId, typ, s.pendingQos, tick, Transmitted, packet)
  {
    StoreKeeps(s, s.lastId, typ, s.pendingQos, packet, tick);
    var stored := Enqueued(s, s.lastId, typ, s.pendingQos, packet, tick);
    FindsById(stored.items, |s.items|);
    MarkKeeps(stored.items, stored.origin, stored.log, s.lastId, Transmitted);
  }

  /** Writing an item that is already marked as transmitted. */
  lemma WriteKeeps(s: State, i: nat, n: nat)
    requires Good(s) && i < |s.items|
    requires s.items[i].pending == Transmitted && !Reliable(s.items[i]) && ResendData(s.items[i]) == s.items[i].data
    ensures Good(Logged(s, WriteEntry(s.items[i].handle, s.items[i].data, n, false)))
  {
    var x := s.items[i];
    WriteIsOk(s, i, x.data, n, false);
    WrittenItem(s, i, x.data, n, false, x);
    ItemMoves(s.items, s.origin, s.log, i, x, WriteEntry(x.handle, x.data, n, false));
    assert s.items[i := x] == s.items;
  }

  lemma ApplyKeeps(s: State, cfg: Config, op: Op)
    requires Good(s) && Allowed(s, cfg, op)
    ensures Good(Apply(s, cfg, op))
  {
    match op
    case Publishing(topic, payload, qos, retain, id, times, before, n) =>
      PublishKeeps(s, cfg, topic, payload, qos, retain, id, times, before, n);
    case Enqueueing(topic, payload, qos, retain, store, id, tick) =>
      EnqueueKeeps(s, cfg, topic, payload, qos, retain, store, id, tick);
    case Subscribing(topics, id, tick, n) => RequestKeeps(s.(lastId := id), cfg, SUBSCRIBE, SubscribeBody(topics, id), tick, n);
    case Unsubscribing(topic, id, tick, n) => RequestKeeps(s.(lastId := id), cfg, UNSUBSCRIBE, UnsubscribeBody(topic, id), tick, n);
    case Iterating(env) => IterateKeeps(s, cfg, env);
    case Connecting(_, _, _, _) =>
    case Losing =>
    case Stopping => StopKeeps(s.items, s.origin, s.log);
  }

  lemma EnqueueKeeps(s: State, cfg: Config, topic: seq<Byte>, payload: seq<Byte>, qos: nat, retain: int, store: bool,
                     id: Counter, tick: int)
    requires Good(s) && (qos > 0 ==> Fresh(s, id))
    ensures Good(EnqueueOnly(s, cfg, topic, payload, qos, retain, store, id, tick))
  {
    var msgId := if qos > 0 then id else 0;
    PublishOrigin(s, msgId, qos, topic, payload, retain, tick);
    StoreKeeps(s, msgId, PUBLISH, qos, PublishPacket(topic, payload, qos, retain, msgId), tick);
  }

  lemma {:induction false} RunKeeps(s: State, cfg: Config, ops: seq<Op>)
    requires Good(s) && Legal(s, cfg, ops)
    ensures Good(Run(s, cfg, ops))
    decreases |ops|
  {
    if ops != [] {
      ApplyKeeps(s, cfg, ops[0]);
      RunKeeps(Apply(s, cfg, ops[0]), cfg, ops[1..]);
    }
  }
}
