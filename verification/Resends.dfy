/** Which bytes a write of a stored message sends, when no publish meets a fragment offset that misleads its send loop. */
module Resends {
  import opened Bytes
  import opened MqttMsg
  import opened Outbox
  import opened ClientModel
  import opened Steps
  import opened Ledger
  import opened History
  import opened Runs

  /** The send loop will stop where the packet ends. */
  predicate Stops(s: State, cfg: Config, topic: seq<Byte>, payload: seq<Byte>, qos: nat) {
    s.connected && Buildable(cfg, topic, payload, qos) ==> Excess(s, cfg, topic, payload, qos) == 0
  }

  predicate PublishStops(s: State, cfg: Config, op: Op) {
    op.Publishing? && op.qos > 0 ==> Stops(s, cfg, op.topic, op.payload, op.qos)
  }

  predicate AllStop(s: State, cfg: Config, ops: seq<Op>)
    decreases |ops|
  {
    ops == [] || (PublishStops(s, cfg, ops[0]) && AllStop(Apply(s, cfg, ops[0]), cfg, ops[1..]))
  }

  /** The bytes of a write of `o`: the packet as it was stored, with DUP set if it was sent before. */
  function Expected(o: Item, before: bool): seq<Byte> {
    if Reliable(o) && before then WithDup(o.data) else o.data
  }

  ghost predicate EntryExact(origin: seq<Item>, log: seq<Entry>, k: nat)
    requires k < |log|
  {
    var e := log[k];
    e.Wrote? ==>
      && e.handle < |origin|
      && var bytes := Expected(origin[e.handle], Sent(log[..k], e.handle));
      if e.complete then e.bytes == bytes else e.bytes < bytes
  }

  ghost predicate AllExact(origin: seq<Item>, log: seq<Entry>) {
    forall k :: 0 <= k < |log| ==> EntryExact(origin, log, k)
  }

  ghost predicate Exact(s: State) { Good(s) && AllExact(s.origin, s.log) }

  lemma ExactGrows(origin: seq<Item>, more: seq<Item>, log: seq<Entry>, longer: seq<Entry>)
    requires AllExact(origin, log) && origin <= more && log <= longer
    requires forall k :: |log| <= k < |longer| ==> EntryExact(more, longer, k)
    ensures AllExact(more, longer)
  {
    forall k | 0 <= k < |longer|
      ensures EntryExact(more, longer, k)
    {
      if k < |log| {
        assert EntryExact(origin, log, k);
        assert longer[..k] == log[..k];
      }
    }
  }

  /** One write and otherwise entries about other things. */
  lemma ExactWrites(s: State, t: State, e: Entry)
    requires AllExact(s.origin, s.log) && s.origin <= t.origin && s.log + [e] <= t.log
    requires EntryExact(t.origin, s.log + [e], |s.log|)
    requires forall k :: |s.log| < k < |t.log| ==> !t.log[k].Wrote?
    ensures AllExact(t.origin, t.log)
  {
    assert t.log[..|s.log|] == s.log == (s.log + [e])[..|s.log|] && t.log[|s.log|] == e;
    ExactGrows(s.origin, t.origin, s.log, t.log);
  }

  lemma ExactSilent(s: State, t: State)
    requires AllExact(s.origin, s.log) && s.origin <= t.origin && s.log <= t.log
    requires forall k :: |s.log| <= k < |t.log| ==> !t.log[k].Wrote?
    ensures AllExact(t.origin, t.log)
  {
    ExactGrows(s.origin, t.origin, s.log, t.log);
  }

  lemma WriteIsExact(s: State, i: nat, n: nat, queued: bool)
    requires Good(s) && i < |s.items| && s.items[i].pending in {Queued, Transmitted}
    ensures EntryExact(s.origin, s.log + [WriteEntry(s.items[i].handle, ResendData(s.items[i]), n, queued)], |s.log|)
  {
    var item := s.items[i];
    var e := WriteEntry(item.handle, ResendData(item), n, queued);
    assert Stored(item, s.origin, s.log) && InStep(item, s.origin, s.log);
    DupTwice(s.origin[item.handle].data);
    assert (s.log + [e])[..|s.log|] == s.log && (s.log + [e])[|s.log|] == e;
  }

  /** The write of a message that was just stored. */
  lemma NewWriteIsExact(s: State, id: Counter, qos: nat, packet: seq<Byte>, tick: int, n: nat)
    requires Good(s) && Fresh(s, id) && OriginItemOk(Item(|s.origin|, id, PUBLISH, qos, tick, Queued, packet), |s.origin|)
    ensures var o := Item(|s.origin|, id, PUBLISH, qos, tick, Queued, packet);
            EntryExact(s.origin + [o], s.log + [WriteEntry(|s.origin|, packet, n, false)], |s.log|)
  {
    StoreKeeps(s, id, PUBLISH, qos, packet, tick);
    WriteIsExact(Enqueued(s, id, PUBLISH, qos, packet, tick), |s.items|, n, false);
  }

  lemma PublishExact(s: State, cfg: Config, topic: seq<Byte>, payload: seq<Byte>, qos: nat, retain: int, id: Counter,
                     times: PublishTimes, before: seq<Byte>, n: nat)
    requires Exact(s) && (qos > 0 ==> Fresh(s, id) && Stops(s, cfg, topic, payload, qos))
    ensures var t := Publish(s, cfg, topic, payload, qos, retain, id, times, before, n); AllExact(t.origin, t.log)
  {
    var t := Publish(s, cfg, topic, payload, qos, retain, id, times, before, n);
    if qos > 0 && s.connected && !OverLimit(s, cfg, |payload|) && Buildable(cfg, topic, payload, qos) {
      var packet := PublishPacket(topic, payload, qos, retain, id);
      PublishOrigin(s, id, qos, topic, payload, retain, times.enqueue);
      NewWriteIsExact(s, id, qos, packet, times.enqueue, n);
      assert Wire(s, cfg, topic, payload, qos, retain, id, before) == packet;
      ExactWrites(s, t, WriteEntry(|s.origin|, packet, n, false));
    } else {
      ExactSilent(s, t);
    }
  }

  lemma RequestExact(s: State, cfg: Config, typ: nat, body: seq<Byte>, tick: int, n: nat)
    requires Exact(s) && typ in {SUBSCRIBE, UNSUBSCRIBE} && Fresh(s, s.lastId)
    ensures var t := Request(s, cfg, typ, body, tick, n); AllExact(t.origin, t.log)
  {
    var t := Request(s, cfg, typ, body, tick, n);
    var packet := Printed(s.frag, FirstByte(typ, 0, 1, 0), body);
    if BodyFits(cfg.capacity, body) && packet != [] {
      var printed := s.(frag := AfterPrinting(s.frag, |body|));
      StoreMarkedKeeps(printed, typ, packet, tick);
      var marked := Marked(Enqueued(printed, s.lastId, typ, s.pendingQos, packet, tick), s.lastId, Transmitted);
      WriteIsExact(marked, |s.items|, n, false);
      ExactWrites(s, t, WriteEntry(|s.origin|, packet, n, false));
    } else {
      ExactSilent(s, t);
    }
  }

  lemma ResendExact(s: State, i: nat, n: nat, queued: bool)
    requires Exact(s) && i < |s.items| && s.items[i].pending in {Queued, Transmitted}
    ensures AllExact(s.origin, Resend(s, i, n, queued).log)
  {
    WriteIsExact(s, i, n, queued);
    ExactWrites(s, Resend(s, i, n, queued), WriteEntry(s.items[i].handle, ResendData(s.items[i]), n, queued));
  }

  lemma TransmitExact(s: State, cfg: Config, times: TaskTimes, n: nat)
    requires Exact(s)
    ensures AllExact(s.origin, Transmit(s, cfg, times, n).log) && Transmit(s, cfg, times, n).origin == s.origin
  {
    var i := First(s.items, HasPending(Queued));
    if i < |s.items| {
      ResendExact(s, i, n, true);
    } else {
      var t := s.(lastRetransmit := times.transmit);
      var j := First(t.items, HasPending(Transmitted));
      if j < |t.items| {
        ResendExact(t, j, n, false);
      }
    }
  }

  lemma ReceiveExact(s: State, r: Reception, now: int)
    requires Exact(s)
    ensures Exact(Receive(s, r, now))
  {
    if r.Handled? {
      DispatchKeeps(s, r.msg, r.delivered, now);
      DispatchLeaves(s, r.msg, r.delivered, now);
      ExactSilent(s, Receive(s, r, now));
    }
  }

  lemma ExpireExact(s: State, now: int)
    requires Exact(s)
    ensures Exact(Expire(s, now))
  {
    ExpiryKeeps(s.items, s.origin, s.log, Expired(now, EXPIRED_TIMEOUT_MS), TimedOut);
    ExactSilent(s, Expire(s, now));
  }

  lemma IterateExact(s: State, cfg: Config, env: Environment)
    requires Exact(s)
    ensures var t := Iterate(s, cfg, env); AllExact(t.origin, t.log)
  {
    var received := Receive(s, env.reception, env.times.receive);
    ReceiveExact(s, env.reception, env.times.receive);
    var started := if received.lastRetransmit == 0 then received.(lastRetransmit := env.times.start) else received;
    ExpireExact(started, env.times.expire);
    TransmitExact(Expire(started, env.times.expire), cfg, env.times, env.written);
    MaintainLeaves(Serve(received, cfg, env.times, env.written), cfg, env.times, env.pinged);
  }

  lemma ApplyExact(s: State, cfg: Config, op: Op)
    requires Exact(s) && Allowed(s, cfg, op) && PublishStops(s, cfg, op)
    ensures Exact(Apply(s, cfg, op))
  {
    ApplyKeeps(s, cfg, op);
    match op
    case Publishing(topic, payload, qos, retain, id, times, before, n) =>
      PublishExact(s, cfg, topic, payload, qos, retain, id, times, before, n);
    case Enqueueing(_, _, _, _, _, _, _) => ExactSilent(s, Apply(s, cfg, op));
    case Subscribing(topics, id, tick, n) => RequestExact(s.(lastId := id), cfg, SUBSCRIBE, SubscribeBody(topics, id), tick, n);
    case Unsubscribing(topic, id, tick, n) => RequestExact(s.(lastId := id), cfg, UNSUBSCRIBE, UnsubscribeBody(topic, id), tick, n);
    case Iterating(env) => IterateExact(s, cfg, env);
    case Connecting(_, _, _, _) =>
    case Losing =>
    case Stopping => ExactSilent(s, Stop(s));
  }

  lemma {:induction false} RunExact(s: State, cfg: Config, ops: seq<Op>)
    requires Exact(s) && Legal(s, cfg, ops) && AllStop(s, cfg, ops)
    ensures Exact(Run(s, cfg, ops))
    decreases |ops|
  {
    if ops != [] {
      ApplyExact(s, cfg, ops[0]);
      RunExact(Apply(s, cfg, ops[0]), cfg, ops[1..]);
    }
  }

  lemma DupBits(data: seq<Byte>)
    ensures data != [] && GetDup(data[0]) == 0 ==> WithDup(data) != data && GetDup(WithDup(data)[0]) == 1
    ensures data != [] ==> WithDup(data)[1..] == data[1..]
  {
  }

  /** A complete write of a QoS > 0 message carries DUP exactly when the same message was completely written before,
      and apart from that bit it is the packet that was stored (MQTT 3.1.1, section 3.3.1.1). */
  lemma DupMarksResends(cfg: Config, ops: seq<Op>, k: nat)
    requires Legal(Initial, cfg, ops) && AllStop(Initial, cfg, ops)
    requires var s := Run(Initial, cfg, ops);
             k < |s.log| && s.log[k].Wrote? && s.log[k].complete && s.log[k].handle < |s.origin| && Reliable(s.origin[s.log[k].handle])
    ensures var s := Run(Initial, cfg, ops);
            var h, bytes := s.log[k].handle, s.log[k].bytes;
            && bytes != [] && s.origin[h].data != []
            && (GetDup(bytes[0]) == 1 <==> exists j :: 0 <= j < k && IsSent(s.log[j], h))
            && bytes[1..] == s.origin[h].data[1..]
            && SetDup(bytes[0]) == SetDup(s.origin[h].data[0])
  {
    RunExact(Initial, cfg, ops);
    var s := Run(Initial, cfg, ops);
    var h := s.log[k].handle;
    assert EntryExact(s.origin, s.log, k) && OriginItemOk(s.origin[h], h);
    DupBits(s.origin[h].data);
    assert Sent(s.log[..k], h) <==> exists j :: 0 <= j < k && IsSent(s.log[j], h) by {
      assert forall j :: 0 <= j < k ==> s.log[..k][j] == s.log[j];
    }
  }

  /** Incomplete writes sent a proper prefix of what a complete one would have sent. */
  lemma BrokenWritesArePrefixes(cfg: Config, ops: seq<Op>, k: nat)
    requires Legal(Initial, cfg, ops) && AllStop(Initial, cfg, ops)
    requires var s := Run(Initial, cfg, ops); k < |s.log| && s.log[k].Wrote? && !s.log[k].complete
    ensures var s := Run(Initial, cfg, ops);
            && s.log[k].handle < |s.origin|
            && s.log[k].bytes < Expected(s.origin[s.log[k].handle], Sent(s.log[..k], s.log[k].handle))
  {
    RunExact(Initial, cfg, ops);
    var s := Run(Initial, cfg, ops);
    assert EntryExact(s.origin, s.log, k);
  }
}
