/** What the steps of a task pass leave alone. */
module Steps {
  import opened MqttMsg
  import opened Outbox
  import opened ClientModel

  /** No message arrives, and the log grows. */
  ghost predicate Grows(s: State, t: State) {
    t.origin == s.origin && s.log <= t.log
  }

  /** A step that builds no message: expiry, transmission. It may end the connection. */
  ghost predicate OnlyStored(s: State, t: State) {
    && Grows(s, t) && t.frag == s.frag && t.lastId == s.lastId && t.keepaliveTick == s.keepaliveTick
    && (t.connected ==> s.connected && t.waitPing == s.waitPing)
  }

  lemma ResendLeaves(s: State, i: nat, n: nat, queued: bool)
    requires i < |s.items|
    ensures OnlyStored(s, Resend(s, i, n, queued))
  {
  }

  lemma TransmitLeaves(s: State, cfg: Config, times: TaskTimes, n: nat)
    ensures OnlyStored(s, Transmit(s, cfg, times, n))
  {
    var i := First(s.items, HasPending(Queued));
    if i < |s.items| {
      ResendLeaves(s, i, n, true);
    } else {
      var t := s.(lastRetransmit := times.transmit);
      var j := First(t.items, HasPending(Transmitted));
      if j < |t.items| {
        ResendLeaves(t, j, n, false);
      }
    }
  }

  lemma ServeLeaves(s: State, cfg: Config, times: TaskTimes, n: nat)
    ensures OnlyStored(s, Serve(s, cfg, times, n))
  {
    var started := if s.lastRetransmit == 0 then s.(lastRetransmit := times.start) else s;
    TransmitLeaves(Expire(started, times.expire), cfg, times, n);
  }

  /** Keepalive and refresh touch no message; they may print a ping. */
  lemma MaintainLeaves(s: State, cfg: Config, times: TaskTimes, n: nat)
    ensures var t := Maintain(s, cfg, times, n);
            && t.items == s.items && t.origin == s.origin && t.log == s.log
            && t.lastId == s.lastId && t.keepaliveTick == s.keepaliveTick && t.frag in {s.frag, AfterPrinting(s.frag, 0)}
  {
  }

  predicate NoWrites(before: seq<Entry>, after: seq<Entry>) {
    forall k :: |before| <= k < |after| ==> !after[k].Wrote?
  }

  lemma RemovalLeaves(s: State, typ: nat, id: nat, publishedEvent: bool)
    ensures var t := Removal(s, typ, id, publishedEvent);
            OnlyStored(s, t) && t.connected == s.connected && t.waitPing == s.waitPing && NoWrites(s.log, t.log)
  {
  }

  /** Reception logs no write. It may print an answer, with a new id at most, and only a PINGRESP touches the keepalive. */
  lemma DispatchLeaves(s: State, msg: Incoming, delivered: bool, now: int)
    ensures var t := Dispatch(s, msg, delivered, now);
            && Grows(s, t) && NoWrites(s.log, t.log)
            && t.frag in {s.frag, AfterPrinting(s.frag, 2)} && t.lastId in {s.lastId, NextId(s.lastId)}
            && t.connected == s.connected
            && (t.keepaliveTick, t.waitPing) == if msg.typ == PINGRESP then (now, false) else (s.keepaliveTick, s.waitPing)
  {
    if msg.typ == SUBACK {
      RemovalLeaves(s, SUBSCRIBE, msg.id, false);
    } else if msg.typ == UNSUBACK {
      RemovalLeaves(s, UNSUBSCRIBE, msg.id, false);
    } else if msg.typ == PUBACK || msg.typ == PUBCOMP {
      RemovalLeaves(s, PUBLISH, msg.id, true);
    }
  }
}
