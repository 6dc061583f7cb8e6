/** What a packet from the broker does to the stored messages, and the bytes it is answered with. */
module Receptions {
  import opened Bytes
  import opened MqttMsg
  import opened Outbox
  import opened ClientModel
  import opened Ledger
  import opened History
  import opened Runs
  import Conservation
  import Guarantees
  import Varint

  /** No message in front of the i-th has this id. Stored ids other than zero are distinct. */
  predicate FirstWithId(items: seq<Item>, i: nat, id: int) {
    && i < |items| && items[i].msgId == id
    && (id == 0 ==> forall j :: 0 <= j < i ==> items[j].msgId != 0)
  }

  lemma TypesFit(s: State, i: nat)
    requires Good(s) && i < |s.items|
    ensures s.items[i].msgType % 256 == s.items[i].msgType
    ensures forall j :: 0 <= j < |s.items| && j != i ==> s.items[j].handle != s.items[i].handle
  {
    assert Stored(s.items[i], s.origin, s.log);
  }

  /** The one message with its id is the first with its id and type. */
  lemma FirstOfType(s: State, i: nat, typ: int)
    requires Good(s) && i < |s.items| && FirstWithId(s.items, i, s.items[i].msgId) && s.items[i].msgType == typ
    ensures First(s.items, HasIdAndType(s.items[i].msgId, typ)) == i
    ensures First(s.items, HasId(s.items[i].msgId)) == i
  {
    TypesFit(s, i);
  }

  // ---------- acknowledgements ----------

  /** A PUBACK or PUBCOMP ends the message it names: it is stored no longer, and the application hears of it. Nothing
      else changes. */
  lemma PublishAcknowledged(s: State, msg: Incoming, delivered: bool, now: int, i: nat)
    requires Good(s) && msg.typ in {PUBACK, PUBCOMP}
    requires FirstWithId(s.items, i, msg.id) && s.items[i].msgType == PUBLISH
    ensures var h := s.items[i].handle;
            var t := Dispatch(s, msg, delivered, now);
            && t == s.(items := s.items[..i] + s.items[i + 1..], log := s.log + [Left(h, Acked), Published(msg.id)])
            && Live(s.items, h) && !Live(t.items, h)
  {
    FirstOfType(s, i, PUBLISH);
    TypesFit(s, i);
  }

  /** So do SUBACK and UNSUBACK with the request they answer. */
  lemma RequestAcknowledged(s: State, msg: Incoming, delivered: bool, now: int, i: nat)
    requires Good(s) && FirstWithId(s.items, i, msg.id)
    requires (msg.typ == SUBACK && s.items[i].msgType == SUBSCRIBE) || (msg.typ == UNSUBACK && s.items[i].msgType == UNSUBSCRIBE)
    ensures var h := s.items[i].handle;
            var t := Dispatch(s, msg, delivered, now);
            && t == s.(items := s.items[..i] + s.items[i + 1..], log := s.log + [Left(h, Acked)])
            && Live(s.items, h) && !Live(t.items, h)
  {
    FirstOfType(s, i, s.items[i].msgType);
    TypesFit(s, i);
  }

  /** What they answer. */
  predicate Answers(typ: nat, x: Item) {
    || (typ in {PUBACK, PUBCOMP} && x.msgType == PUBLISH)
    || (typ == SUBACK && x.msgType == SUBSCRIBE)
    || (typ == UNSUBACK && x.msgType == UNSUBSCRIBE)
  }

  /** An acknowledgement of nothing that is stored changes nothing. */
  lemma StrayAcknowledgement(s: State, msg: Incoming, delivered: bool, now: int)
    requires Good(s) && msg.typ in {PUBACK, PUBCOMP, SUBACK, UNSUBACK}
    requires forall x :: x in s.items && x.msgId == msg.id ==> !Answers(msg.typ, x)
    ensures Dispatch(s, msg, delivered, now) == s
  {
    var typ := if msg.typ == SUBACK then SUBSCRIBE else if msg.typ == UNSUBACK then UNSUBSCRIBE else PUBLISH;
    forall i | 0 <= i < |s.items|
      ensures !(s.items[i].msgId == msg.id && s.items[i].msgType % 256 == typ)
    {
      TypesFit(s, i);
      assert s.items[i] in s.items;
    }
  }

  // ---------- the other packets ----------

  /** A message can be printed: no fragment total is pending that exceeds what a length field holds. */
  predicate Printable(f: Fragment) {
    f.total <= Varint.MAX_VALUE + MAX_FIXED_HEADER_SIZE
  }

  /** The fields that printing an acknowledgement changes. */
  function AfterAnswer(s: State, id: Counter): State {
    s.(frag := AfterPrinting(s.frag, 2), lastId := if id == 0 then NextId(s.lastId) else s.lastId)
  }

  /** A PUBREC makes the message it names ACKNOWLEDGED, where it stands. */
  lemma PubrecReceived(s: State, msg: Incoming, delivered: bool, now: int, i: nat)
    requires Good(s) && msg.typ == PUBREC && FirstWithId(s.items, i, msg.id) && Printable(s.frag)
    ensures Dispatch(s, msg, delivered, now) ==
            AfterAnswer(s, msg.id).(items := s.items[i := s.items[i].(pending := Acknowledged)],
                                    log := s.log + [Received(s.items[i].handle)])
  {
    FirstOfType(s, i, s.items[i].msgType);
  }

  /** Without such a message, or if no PUBREL can be printed, it leaves everything stored as it is. */
  lemma PubrecUnknown(s: State, msg: Incoming, delivered: bool, now: int)
    requires msg.typ == PUBREC && (!Printable(s.frag) || forall x :: x in s.items ==> x.msgId != msg.id)
    ensures Dispatch(s, msg, delivered, now) == AfterAnswer(s, msg.id)
  {
    var i := First(s.items, HasId(msg.id));
    if i < |s.items| {
      assert s.items[i] in s.items;
    }
  }

  /** A PINGRESP ends the wait for it and starts the keepalive period anew. */
  lemma PingrespReceived(s: State, msg: Incoming, delivered: bool, now: int)
    requires msg.typ == PINGRESP
    ensures Dispatch(s, msg, delivered, now) == s.(waitPing := false, keepaliveTick := now)
  {
  }

  /** Any other packet at most draws an answer. */
  lemma NothingStoredChanges(s: State, msg: Incoming, delivered: bool, now: int)
    requires msg.typ !in {PUBACK, PUBCOMP, SUBACK, UNSUBACK, PUBREC, PINGRESP}
    ensures Dispatch(s, msg, delivered, now) ==
            if (msg.typ == PUBLISH && delivered && msg.qos in {1, 2}) || msg.typ == PUBREL then AfterAnswer(s, msg.id) else s
  {
  }

  // ---------- answers ----------

  /** The four bytes of an acknowledgement with this first byte. */
  function AckPacket(first: Byte, id: Counter): seq<Byte> {
    [first, 2, id / 256, id % 256]
  }

  /** Each QoS, and each step of the QoS 2 exchange, gets the answer it asks for, with the id of what it answers. */
  lemma AnswerBytes(s: State, msg: Incoming, delivered: bool)
    requires s.frag.total == 0
    ensures var id := if msg.id == 0 then NextId(s.lastId) else msg.id;
            Answer(s, msg, delivered) ==
            if msg.typ == PUBLISH && delivered && msg.qos == 1 then AckPacket(0x40, id)
            else if msg.typ == PUBLISH && delivered && msg.qos == 2 then AckPacket(0x50, id)
            else if msg.typ == PUBREC then AckPacket(0x62, id)
            else if msg.typ == PUBREL then AckPacket(0x70, id)
            else []
  {
    var id := if msg.id == 0 then NextId(s.lastId) else msg.id;
    PrintedAck(s.frag, Puback, 0x40, id);
    PrintedAck(s.frag, Pubrec, 0x50, id);
    PrintedAck(s.frag, Pubrel, 0x62, id);
    PrintedAck(s.frag, Pubcomp, 0x70, id);
  }

  lemma PrintedAck(f: Fragment, kind: AckKind, first: Byte, id: Counter)
    requires f.total == 0 && first == match kind { case Puback => 0x40 case Pubrec => 0x50 case Pubrel => 0x62 case Pubcomp => 0x70 }
    ensures Printed(f, AckFirstByte(kind), Be16(id)) == AckPacket(first, id)
  {
    FirstOfAck(kind, first);
    AckBytes(first, id);
    PrintedWhole(f, first, Be16(id));
    HighByte(id);
  }

  lemma FirstOfAck(kind: AckKind, first: Byte)
    requires first == match kind { case Puback => 0x40 case Pubrec => 0x50 case Pubrel => 0x62 case Pubcomp => 0x70 }
    ensures AckFirstByte(kind) == first
  {
  }

  lemma PrintedWhole(f: Fragment, first: Byte, body: seq<Byte>)
    requires f.total == 0 && |body| <= Varint.MAX_VALUE
    ensures Printed(f, first, body) == Packet(first, body)
  {
  }

  lemma HighByte(id: Counter)
    ensures Be16(id) == [id / 256, id % 256]
  {
  }

  /** The reception fails exactly if the payload or the return codes cannot be delivered, or if the answer to a PUBLISH
      does not go out whole. */
  lemma ReceptionFails(s: State, msg: Incoming, delivered: bool, n: nat)
    requires s.frag.total == 0 && Good(s)
    ensures !DispatchOk(s, msg, delivered, n) <==>
            || (msg.typ == PUBLISH && (!delivered || (msg.qos in {1, 2} && n < 4)))
            || (msg.typ == SUBACK && !delivered && exists x :: x in s.items && x.msgId == msg.id && x.msgType == SUBSCRIBE)
  {
    AnswerBytes(s, msg, delivered);
    if msg.typ == SUBACK {
      SubscribeStored(s, msg.id);
    }
  }

  lemma SubscribeStored(s: State, id: int)
    requires Good(s)
    ensures First(s.items, HasIdAndType(id, SUBSCRIBE)) < |s.items| <==> exists x :: x in s.items && x.msgId == id && x.msgType == SUBSCRIBE
  {
    var i := First(s.items, HasIdAndType(id, SUBSCRIBE));
    if i < |s.items| {
      TypesFit(s, i);
      assert s.items[i] in s.items;
    }
  }

  // ---------- the pass around it ----------

  /** A pass does what the packet asks for and goes on as one that found none; if the reception fails, or a disconnect is
      asked for, it drops the connection and does nothing else. */
  lemma PassReceives(s: State, cfg: Config, env: Environment)
    requires !env.disconnect && env.reception.Handled?
    ensures var r := env.reception;
            var t := Dispatch(s, r.msg, r.delivered, env.times.receive);
            Iterate(s, cfg, env) ==
            if DispatchOk(s, r.msg, r.delivered, r.answered) then Iterate(t, cfg, env.(reception := Idle))
            else t.(connected := false, waitPing := false)
  {
  }

  lemma PassFails(s: State, cfg: Config, env: Environment)
    requires env.disconnect || env.reception.Failure?
    ensures Iterate(s, cfg, env) ==
            s.(connected := false, waitPing := false, frag := if env.disconnect then AfterPrinting(s.frag, 0) else s.frag)
  {
  }

  // ---------- over a whole run ----------

  /** In any legal run: once a pass handles a PUBACK or PUBCOMP for a stored message, the removal and the event are the
      next two entries of the log, and the message is neither stored nor written ever again. */
  lemma AcknowledgedForGood(cfg: Config, early: seq<Op>, env: Environment, late: seq<Op>, i: nat)
    requires var s := Run(Initial, cfg, early);
             && Legal(Initial, cfg, early + [Iterating(env)] + late)
             && Acknowledges(s, env, i)
    ensures var s := Run(Initial, cfg, early);
            var h, k := s.items[i].handle, |s.log|;
            var t := Run(Initial, cfg, early + [Iterating(env)] + late);
            && k + 1 < |t.log| && t.log[k] == Left(h, Acked) && t.log[k + 1] == Published(env.reception.msg.id)
            && !Live(t.items, h)
            && forall j :: k < j < |t.log| && t.log[j].Wrote? ==> t.log[j].handle != h
  {
    var s, ops := Run(Initial, cfg, early), early + [Iterating(env)] + late;
    AcknowledgedInRun(cfg, early, env, late, i);
    GoneForGood(cfg, ops, |s.log|, s.items[i].handle);
  }

  /** The pass handles an acknowledgement of the i-th message. */
  predicate Acknowledges(s: State, env: Environment, i: nat) {
    && !env.disconnect && env.reception.Handled? && env.reception.msg.typ in {PUBACK, PUBCOMP}
    && FirstWithId(s.items, i, env.reception.msg.id) && s.items[i].msgType == PUBLISH
  }

  lemma GoneForGood(cfg: Config, ops: seq<Op>, k: nat, h: nat)
    requires var t := Run(Initial, cfg, ops); k < |t.log| && IsLeft(t.log[k], h) && h < |t.origin|
    ensures var t := Run(Initial, cfg, ops);
            && !Live(t.items, h)
            && forall j :: k < j < |t.log| && t.log[j].Wrote? ==> t.log[j].handle != h
  {
    var t := Run(Initial, cfg, ops);
    Conservation.Conserved(cfg, ops, h);
    forall j | k < j < |t.log| && t.log[j].Wrote?
      ensures t.log[j].handle != h
    {
      Conservation.NoWriteAfterRemoval(cfg, ops, k, j);
    }
  }

  lemma AcknowledgedInRun(cfg: Config, early: seq<Op>, env: Environment, late: seq<Op>, i: nat)
    requires var s := Run(Initial, cfg, early);
             && Legal(Initial, cfg, early + [Iterating(env)] + late)
             && Acknowledges(s, env, i)
    ensures var s := Run(Initial, cfg, early);
            var t := Run(Initial, cfg, early + [Iterating(env)] + late);
            && s.log + [Left(s.items[i].handle, Acked), Published(env.reception.msg.id)] <= t.log
            && s.items[i].handle < |t.origin|
  {
    var op := Iterating(env);
    Guarantees.RunConcat(Initial, cfg, early + [op], late);
    Guarantees.RunOneMore(Initial, cfg, early, op);
    AcknowledgedNext(cfg, early, env, i);
    Guarantees.RunExtends(Run(Initial, cfg, early + [op]), cfg, late);
    HandleKnown(Run(Initial, cfg, early), i);
    Guarantees.IterateExtends(Run(Initial, cfg, early), cfg, env);
  }

  lemma HandleKnown(s: State, i: nat)
    requires Good(s) && i < |s.items|
    ensures s.items[i].handle < |s.origin|
  {
  }

  lemma AcknowledgedNext(cfg: Config, early: seq<Op>, env: Environment, i: nat)
    requires var s := Run(Initial, cfg, early); Legal(Initial, cfg, early) && s.connected && Acknowledges(s, env, i)
    ensures var s := Run(Initial, cfg, early);
            && Good(s)
            && s.log + [Left(s.items[i].handle, Acked), Published(env.reception.msg.id)] <= Iterate(s, cfg, env).log
  {
    var s, r := Run(Initial, cfg, early), env.reception;
    Guarantees.Reachable(cfg, early);
    PublishAcknowledged(s, r.msg, r.delivered, env.times.receive, i);
    PassReceives(s, cfg, env);
    Guarantees.IterateExtends(Dispatch(s, r.msg, r.delivered, env.times.receive), cfg, env.(reception := Idle));
  }
}
