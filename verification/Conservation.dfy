/** What holds of the outbox over every run, whatever ids its messages get and whatever fragment fields they meet. */
module Conservation {
  import opened Bytes
  import opened MqttMsg
  import opened Outbox
  import opened ClientModel
  import opened Steps
  import opened Ledger
  import opened Runs

  ghost predicate InBooks(s: State) { Booked(s.items, s.origin, s.log) }

  // ---------- each operation keeps the books ----------

  lemma {:induction false} DepartureBooked(items: seq<Item>, origin: seq<Item>, log: seq<Entry>, p: Item -> bool, cause: Cause)
    requires Booked(items, origin, log)
    ensures Booked(Kept(items, p), origin, log + Departures(Dropped(items, p), cause))
    decreases |items|
  {
    var i := First(items, p);
    KeptSkips(items, p);
    if i == |items| {
      assert log + [] == log;
    } else {
      BookedLoses(items, origin, log, i, cause);
      DepartureBooked(Removed(items, i), origin, log + [Left(items[i].handle, cause)], p, cause);
      DeparturesFollow(log, items[i], Dropped(Removed(items, i), p), cause);
    }
  }

  lemma {:induction false} StopBooked(items: seq<Item>, origin: seq<Item>, log: seq<Entry>)
    requires Booked(items, origin, log)
    ensures Booked([], origin, log + Departures(items, Stopped))
    decreases |items|
  {
    if items == [] {
      assert log + [] == log;
    } else {
      BookedLoses(items, origin, log, 0, Stopped);
      assert Removed(items, 0) == items[1..];
      StopBooked(items[1..], origin, log + [Left(items[0].handle, Stopped)]);
      DeparturesFollow(log, items[0], items[1..], Stopped);
      assert [items[0]] + items[1..] == items;
    }
  }

  /** A write of a stored message, of its bytes and perhaps more. */
  lemma WriteBooked(s: State, i: nat, bytes: seq<Byte>, n: nat, queued: bool)
    requires InBooks(s) && i < |s.items| && ResendData(s.items[i]) <= bytes
    ensures InBooks(Logged(s, WriteEntry(s.items[i].handle, bytes, n, queued)))
  {
    var item := s.items[i];
    var e := WriteEntry(item.handle, bytes, n, queued);
    assert Stored(item, s.origin, s.log) && (s.log + [e])[..|s.log|] == s.log;
    DupTwice(s.origin[item.handle].data);
    PartOrMore(ResendData(item), bytes, n);
    BookedNotes(s.items, s.origin, s.log, e);
  }

  lemma MarkBooked(s: State, id: int, pending: Pending)
    requires InBooks(s)
    ensures InBooks(Marked(s, id, pending))
  {
    BookedRelabels(s.items, WithPending(s.items, id, pending), s.origin, s.log);
  }

  lemma AfterStoringBooked(s: State, wire: seq<Byte>, qos: nat, id: nat, times: PublishTimes, n: nat)
    requires InBooks(s)
    requires qos > 0 ==> s.items != [] && var x := s.items[|s.items| - 1];
                         x.handle == |s.origin| - 1 && x.pending == Queued && x.data <= wire
    ensures InBooks(AfterStoring(s, wire, qos, id, times, n))
  {
    if !s.connected {
      DepartureBooked(s.items, s.origin, s.log, Expired(times.expire, EXPIRED_TIMEOUT_MS), TimedOut);
    } else if qos > 0 {
      WriteBooked(s, |s.items| - 1, wire, n, false);
      MarkSentBooked(Logged(s, WriteEntry(|s.origin| - 1, wire, n, false)), id, times.sent);
    }
  }

  lemma MarkSentBooked(s: State, id: int, tick: int)
    requires InBooks(s)
    ensures InBooks(Marked(s.(items := WithTick(s.items, id, tick)), id, Transmitted))
  {
    BookedRelabels(s.items, WithTick(s.items, id, tick), s.origin, s.log);
    MarkBooked(s.(items := WithTick(s.items, id, tick)), id, Transmitted);
  }

  lemma PublishBooked(s: State, cfg: Config, topic: seq<Byte>, payload: seq<Byte>, qos: nat, retain: int, id: Counter,
                      times: PublishTimes, before: seq<Byte>, n: nat)
    requires InBooks(s)
    ensures InBooks(Publish(s, cfg, topic, payload, qos, retain, id, times, before, n))
  {
    var msgId := if qos > 0 then id else 0;
    var packet := PublishPacket(topic, payload, qos, retain, msgId);
    var stored := Built(s, cfg, topic, payload, qos, id);
    if qos > 0 {
      BookedGains(s.items, s.origin, s.log, Item(|s.origin|, id, PUBLISH, qos, times.enqueue, Queued, packet));
      stored := Enqueued(stored.(pendingQos := qos), id, PUBLISH, qos, packet, times.enqueue);
    }
    AfterStoringBooked(stored, Wire(s, cfg, topic, payload, qos, retain, msgId, before), qos, msgId, times, n);
  }

  lemma EnqueueBooked(s: State, cfg: Config, topic: seq<Byte>, payload: seq<Byte>, qos: nat, retain: int, store: bool,
                      id: Counter, tick: int)
    requires InBooks(s)
    ensures InBooks(EnqueueOnly(s, cfg, topic, payload, qos, retain, store, id, tick))
  {
    var msgId := if qos > 0 then id else 0;
    var packet := PublishPacket(topic, payload, qos, retain, msgId);
    BookedGains(s.items, s.origin, s.log, Item(|s.origin|, msgId, PUBLISH, qos, tick, Queued, packet));
  }

  lemma RequestBooked(s: State, cfg: Config, typ: nat, body: seq<Byte>, tick: int, n: nat)
    requires InBooks(s) && typ in {SUBSCRIBE, UNSUBSCRIBE}
    ensures InBooks(Request(s, cfg, typ, body, tick, n))
  {
    var packet := Printed(s.frag, FirstByte(typ, 0, 1, 0), body);
    var printed := s.(frag := AfterPrinting(s.frag, |body|));
    BookedGains(s.items, s.origin, s.log, Item(|s.origin|, s.lastId, typ, s.pendingQos, tick, Queued, packet));
    LastWriteBooked(Enqueued(printed, s.lastId, typ, s.pendingQos, packet, tick), s.lastId, n);
  }

  lemma LastWriteBooked(s: State, id: int, n: nat)
    requires InBooks(s) && s.items != [] && s.items[|s.items| - 1].msgType != PUBLISH
    ensures var x := s.items[|s.items| - 1]; InBooks(Logged(Marked(s, id, Transmitted), WriteEntry(x.handle, x.data, n, false)))
  {
    MarkBooked(s, id, Transmitted);
    StateAside(s.items, id, Transmitted, |s.items| - 1);
    WriteBooked(Marked(s, id, Transmitted), |s.items| - 1, s.items[|s.items| - 1].data, n, false);
  }

  /** Marking changes the state of items, nothing else. */
  lemma StateAside(items: seq<Item>, id: int, pending: Pending, i: nat)
    requires i < |items|
    ensures var after := WithPending(items, id, pending);
            |after| == |items| && after[i] == items[i].(pending := after[i].pending)
  {
  }

  lemma RemovalBooked(s: State, typ: nat, id: nat, publishedEvent: bool)
    requires InBooks(s) && (publishedEvent ==> typ == PUBLISH) && typ < 256
    ensures InBooks(Removal(s, typ, id, publishedEvent))
  {
    var i := First(s.items, HasIdAndType(id, typ));
    if i < |s.items| {
      var item, e := s.items[i], Left(s.items[i].handle, Acked);
      assert Stored(item, s.origin, s.log);
      BookedLoses(s.items, s.origin, s.log, i, Acked);
      if publishedEvent {
        BookedNotes(Removed(s.items, i), s.origin, s.log + [e], Published(id));
      } else {
        assert s.log + [e] + [] == s.log + [e];
      }
    }
  }

  lemma DispatchBooked(s: State, msg: Incoming, delivered: bool, now: int)
    requires InBooks(s)
    ensures InBooks(Dispatch(s, msg, delivered, now))
  {
    if msg.typ == SUBACK {
      RemovalBooked(s, SUBSCRIBE, msg.id, false);
    } else if msg.typ == UNSUBACK {
      RemovalBooked(s, UNSUBSCRIBE, msg.id, false);
    } else if msg.typ == PUBACK || msg.typ == PUBCOMP {
      RemovalBooked(s, PUBLISH, msg.id, true);
    } else if msg.typ == PUBREC {
      var i := First(s.items, HasId(msg.id));
      if i < |s.items| {
        PubrecBooked(s, msg.id, i);
      }
    }
  }

  lemma PubrecBooked(s: State, id: int, i: nat)
    requires InBooks(s) && i < |s.items|
    ensures InBooks(Logged(Marked(s, id, Acknowledged), Received(s.items[i].handle)))
  {
    var e := Received(s.items[i].handle);
    assert Stored(s.items[i], s.origin, s.log) && (s.log + [e])[..|s.log|] == s.log;
    MarkBooked(s, id, Acknowledged);
    BookedNotes(WithPending(s.items, id, Acknowledged), s.origin, s.log, e);
  }

  lemma ResendBooked(s: State, i: nat, n: nat, queued: bool)
    requires InBooks(s) && i < |s.items|
    ensures InBooks(Resend(s, i, n, queued))
  {
    var item := s.items[i];
    var data := ResendData(item);
    WriteBooked(s, i, data, n, queued);
    var written := Logged(s, WriteEntry(item.handle, data, n, queued));
    var items := s.items[i := item.(data := data)];
    BookedRelabels(s.items, items, s.origin, written.log);
    HandlesDifferAt(items, i, |s.origin|);
    BookedLoses(items, s.origin, written.log, i, SentOnce);
  }

  lemma TransmitBooked(s: State, cfg: Config, times: TaskTimes, n: nat)
    requires InBooks(s)
    ensures InBooks(Transmit(s, cfg, times, n))
  {
    var i := First(s.items, HasPending(Queued));
    if i < |s.items| {
      ResendBooked(s, i, n, true);
      MarkBooked(Resend(s, i, n, true), s.items[i].msgId, Transmitted);
    } else {
      var t := s.(lastRetransmit := times.transmit);
      var j := First(t.items, HasPending(Transmitted));
      if j < |t.items| {
        ResendBooked(t, j, n, false);
      }
    }
  }

  lemma IterateBooked(s: State, cfg: Config, env: Environment)
    requires InBooks(s)
    ensures InBooks(Iterate(s, cfg, env))
  {
    var received := Receive(s, env.reception, env.times.receive);
    if env.reception.Handled? {
      DispatchBooked(s, env.reception.msg, env.reception.delivered, env.times.receive);
    }
    var started := if received.lastRetransmit == 0 then received.(lastRetransmit := env.times.start) else received;
    DepartureBooked(started.items, started.origin, started.log, Expired(env.times.expire, EXPIRED_TIMEOUT_MS), TimedOut);
    TransmitBooked(Expire(started, env.times.expire), cfg, env.times, env.written);
    MaintainLeaves(Serve(received, cfg, env.times, env.written), cfg, env.times, env.pinged);
  }

  lemma ApplyBooked(s: State, cfg: Config, op: Op)
    requires InBooks(s)
    ensures InBooks(Apply(s, cfg, op))
  {
    match op
    case Publishing(topic, payload, qos, retain, id, times, before, n) =>
      PublishBooked(s, cfg, topic, payload, qos, retain, id, times, before, n);
    case Enqueueing(topic, payload, qos, retain, store, id, tick) =>
      EnqueueBooked(s, cfg, topic, payload, qos, retain, store, id, tick);
    case Subscribing(topics, id, tick, n) => RequestBooked(s.(lastId := id), cfg, SUBSCRIBE, SubscribeBody(topics, id), tick, n);
    case Unsubscribing(topic, id, tick, n) => RequestBooked(s.(lastId := id), cfg, UNSUBSCRIBE, UnsubscribeBody(topic, id), tick, n);
    case Iterating(env) => IterateBooked(s, cfg, env);
    case Connecting(_, _, _, _) =>
    case Losing =>
    case Stopping => StopBooked(s.items, s.origin, s.log);
  }

  lemma {:induction false} RunBooked(s: State, cfg: Config, ops: seq<Op>)
    requires InBooks(s)
    ensures InBooks(Run(s, cfg, ops))
    decreases |ops|
  {
    if ops != [] {
      ApplyBooked(s, cfg, ops[0]);
      RunBooked(Apply(s, cfg, ops[0]), cfg, ops[1..]);
    }
  }

  // ---------- conservation ----------

  /** Every message ever enqueued is stored or has left, not both, and left at most once. */
  lemma Conserved(cfg: Config, ops: seq<Op>, h: nat)
    requires h < |Run(Initial, cfg, ops).origin|
    ensures var s := Run(Initial, cfg, ops);
            && (Live(s.items, h) <==> !Gone(s.log, h))
            && forall j, k :: 0 <= j < |s.log| && 0 <= k < |s.log| && IsLeft(s.log[j], h) && IsLeft(s.log[k], h) ==> j == k
  {
    RunBooked(Initial, cfg, ops);
    var s := Run(Initial, cfg, ops);
    if Live(s.items, h) {
      var i :| 0 <= i < |s.items| && s.items[i].handle == h;
      assert Stored(s.items[i], s.origin, s.log);
    }
    forall j, k | 0 <= j < |s.log| && 0 <= k < |s.log| && IsLeft(s.log[j], h) && IsLeft(s.log[k], h)
      ensures j == k
    {
      LeavesOnce(s, j, k, h);
      LeavesOnce(s, k, j, h);
    }
  }

  lemma LeavesOnce(s: State, j: nat, k: nat, h: nat)
    requires InBooks(s) && j < |s.log| && k < |s.log| && IsLeft(s.log[j], h) && IsLeft(s.log[k], h)
    ensures j >= k
  {
    assert EntryStands(s.origin, s.log, k);
    if j < k {
      GoneBefore(s.log, j, k, h);
    }
  }

  lemma GoneBefore(log: seq<Entry>, j: nat, k: nat, h: nat)
    requires j < k <= |log| && IsLeft(log[j], h)
    ensures Gone(log[..k], h)
  {
  }

  /** What is stored is stored in enqueue order, and with the content it came with but for DUP. */
  lemma SurvivorsKeepOrder(cfg: Config, ops: seq<Op>, i: nat, j: nat)
    requires i < j < |Run(Initial, cfg, ops).items|
    ensures var s := Run(Initial, cfg, ops);
            s.items[i].handle < s.items[j].handle < |s.origin|
            && CopyOf(s.items[i], s.origin[s.items[i].handle]) && CopyOf(s.items[j], s.origin[s.items[j].handle])
  {
    RunBooked(Initial, cfg, ops);
    var s := Run(Initial, cfg, ops);
    assert Stored(s.items[i], s.origin, s.log) && Stored(s.items[j], s.origin, s.log);
  }

  /** Nothing is written for a message that has left the outbox. */
  lemma NoWriteAfterRemoval(cfg: Config, ops: seq<Op>, j: nat, k: nat)
    requires var s := Run(Initial, cfg, ops); j < k < |s.log| && s.log[j].Left?
    ensures var s := Run(Initial, cfg, ops); !(s.log[k].Wrote? && s.log[k].handle == s.log[j].handle)
  {
    var s := Run(Initial, cfg, ops);
    RunBooked(Initial, cfg, ops);
    assert EntryStands(s.origin, s.log, k);
    assert IsLeft(s.log[..k][j], s.log[j].handle);
  }

  /** What is written for a message begins with its packet, with or without DUP; if the write broke off, as far as it got. */
  lemma WritesCarryTheirPacket(cfg: Config, ops: seq<Op>, k: nat)
    requires var s := Run(Initial, cfg, ops); k < |s.log| && s.log[k].Wrote?
    ensures var s := Run(Initial, cfg, ops);
            s.log[k].handle < |s.origin| && Carries(s.origin[s.log[k].handle], s.log[k].bytes, s.log[k].complete)
  {
    var s := Run(Initial, cfg, ops);
    RunBooked(Initial, cfg, ops);
    assert EntryStands(s.origin, s.log, k);
  }

  /** Every PUBLISHED event follows the removal, by an acknowledgement, of a PUBLISH with that id, and no two events
      share a removal. */
  lemma PublishedEventsAreRemovals(cfg: Config, ops: seq<Op>, j: nat, k: nat)
    requires var s := Run(Initial, cfg, ops); j < |s.log| && k < |s.log| && s.log[j].Published? && s.log[k].Published?
    ensures var s := Run(Initial, cfg, ops);
            && k > 0 && s.log[k - 1].Left? && s.log[k - 1].cause == Acked && s.log[k - 1].handle < |s.origin|
            && s.origin[s.log[k - 1].handle].msgId == s.log[k].id && s.origin[s.log[k - 1].handle].msgType == PUBLISH
            && j > 0 && s.log[j - 1].Left?
            && (j != k ==> s.log[j - 1].handle != s.log[k - 1].handle)
  {
    var s := Run(Initial, cfg, ops);
    RunBooked(Initial, cfg, ops);
    assert EntryStands(s.origin, s.log, k) && EntryStands(s.origin, s.log, j);
    if j != k && s.log[j - 1].handle == s.log[k - 1].handle {
      Conserved(cfg, ops, s.log[k - 1].handle);
      assert IsLeft(s.log[j - 1], s.log[k - 1].handle) && IsLeft(s.log[k - 1], s.log[k - 1].handle);
    }
  }
}
