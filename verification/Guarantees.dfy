/** What every run of the client guarantees whose stored ids are distinct. */
module Guarantees {
  import opened Outbox
  import opened ClientModel
  import opened Steps
  import opened Ledger
  import opened History
  import opened Runs

  lemma Reachable(cfg: Config, ops: seq<Op>)
    requires Legal(Initial, cfg, ops)
    ensures Good(Run(Initial, cfg, ops))
  {
    RunKeeps(Initial, cfg, ops);
  }

  // ---------- histories only grow ----------

  ghost predicate Extends(s: State, t: State) {
    s.log <= t.log && s.origin <= t.origin
  }

  lemma IterateExtends(s: State, cfg: Config, env: Environment)
    ensures Extends(s, Iterate(s, cfg, env))
  {
    var received := Receive(s, env.reception, env.times.receive);
    if env.reception.Handled? {
      DispatchLeaves(s, env.reception.msg, env.reception.delivered, env.times.receive);
    }
    ServeLeaves(received, cfg, env.times, env.written);
    MaintainLeaves(Serve(received, cfg, env.times, env.written), cfg, env.times, env.pinged);
  }

  lemma ApplyExtends(s: State, cfg: Config, op: Op)
    ensures Extends(s, Apply(s, cfg, op))
  {
    if op.Iterating? {
      IterateExtends(s, cfg, op.env);
    }
  }

  lemma {:induction false} RunExtends(s: State, cfg: Config, ops: seq<Op>)
    ensures Extends(s, Run(s, cfg, ops))
    decreases |ops|
  {
    if ops != [] {
      ApplyExtends(s, cfg, ops[0]);
      RunExtends(Apply(s, cfg, ops[0]), cfg, ops[1..]);
    }
  }

  // ---------- the QoS guarantees ----------

  lemma {:induction false} RunConcat(s: State, cfg: Config, a: seq<Op>, b: seq<Op>)
    ensures Run(s, cfg, a + b) == Run(Run(s, cfg, a), cfg, b)
    ensures Legal(s, cfg, a + b) <==> Legal(s, cfg, a) && Legal(Run(s, cfg, a), cfg, b)
    decreases |a|
  {
    if a == [] {
      assert a + b == b;
    } else {
      assert (a + b)[1..] == a[1..] + b;
      RunConcat(Apply(s, cfg, a[0]), cfg, a[1..], b);
    }
  }

  lemma RunOneMore(s: State, cfg: Config, ops: seq<Op>, op: Op)
    ensures Run(s, cfg, ops + [op]) == Apply(Run(s, cfg, ops), cfg, op)
    ensures Legal(s, cfg, ops + [op]) <==> Legal(s, cfg, ops) && Allowed(Run(s, cfg, ops), cfg, op)
  {
    RunConcat(s, cfg, ops, [op]);
    assert [op][1..] == [];
    var t := Run(s, cfg, ops);
    assert Run(t, cfg, [op]) == Run(Apply(t, cfg, op), cfg, []) && Legal(t, cfg, [op]) == Allowed(t, cfg, op);
  }

  /** Between any two moments of any run the state of a QoS > 0 message only moves up, QUEUED to TRANSMITTED to
      ACKNOWLEDGED to removed, and what was removed is never stored again. */
  lemma NeverFallsBack(cfg: Config, early: seq<Op>, late: seq<Op>, h: nat)
    requires Legal(Initial, cfg, early + late)
    requires var s := Run(Initial, cfg, early); h < |s.origin| && Reliable(s.origin[h])
    ensures var s, t := Run(Initial, cfg, early), Run(Initial, cfg, early + late);
            && (forall x, y :: x in s.items && y in t.items && x.handle == h && y.handle == h ==> Rank(x.pending) <= Rank(y.pending))
            && (!Live(s.items, h) ==> !Live(t.items, h))
  {
    RunConcat(Initial, cfg, early, late);
    var s, t := Run(Initial, cfg, early), Run(Initial, cfg, early + late);
    Reachable(cfg, early);
    Reachable(cfg, early + late);
    RunExtends(s, cfg, late);
    StatusRises(s.log, t.log, h);
    assert s.origin[h] == t.origin[h];
    forall x, y | x in s.items && y in t.items && x.handle == h && y.handle == h
      ensures Rank(x.pending) <= Rank(y.pending)
    {
      assert Stored(x, s.origin, s.log) && InStep(x, s.origin, s.log) && InStep(y, t.origin, t.log);
    }
    assert Live(s.items, h) || Gone(s.log, h);
    assert Live(t.items, h) ==> !Gone(t.log, h) by {
      if Live(t.items, h) {
        var i :| 0 <= i < |t.items| && t.items[i].handle == h;
        assert Stored(t.items[i], t.origin, t.log);
      }
    }
  }

  /** Once the PUBREC of a message was processed its PUBLISH is never written again (MQTT 3.1.1, section 4.3.3). */
  lemma NoPublishAfterPubrec(cfg: Config, ops: seq<Op>, j: nat, k: nat)
    requires Legal(Initial, cfg, ops)
    requires var s := Run(Initial, cfg, ops);
             j < k < |s.log| && s.log[j].Received? && s.log[j].handle < |s.origin| && Reliable(s.origin[s.log[j].handle])
    ensures var s := Run(Initial, cfg, ops); !(s.log[k].Wrote? && s.log[k].handle == s.log[j].handle)
  {
    var s := Run(Initial, cfg, ops);
    Reachable(cfg, ops);
    assert EntryInOrder(s.origin, s.log, k);
    assert s.log[..k][j] == s.log[j];
  }

  /** The QoS > 0 messages the task sends out of QUEUED go out in the order they were enqueued (MQTT 3.1.1, section 4.6). */
  lemma FirstTransmissionsInOrder(cfg: Config, ops: seq<Op>, j: nat, k: nat)
    requires Legal(Initial, cfg, ops)
    requires var s := Run(Initial, cfg, ops); j < k < |s.log| && FromQueue(s.origin, s.log[j]) && FromQueue(s.origin, s.log[k])
    ensures var s := Run(Initial, cfg, ops); s.log[j].handle < s.log[k].handle
  {
    Reachable(cfg, ops);
    var s := Run(Initial, cfg, ops);
    assert EntryInOrder(s.origin, s.log, k);
  }

  // ---------- identifiers ----------

  /** In a legal run the updates by id, set_pending, set_tick and delete, reach the message they are meant for. */
  lemma UpdatesReachTheirMessage(cfg: Config, ops: seq<Op>, i: nat)
    requires Legal(Initial, cfg, ops) && i < |Run(Initial, cfg, ops).items|
    ensures var items := Run(Initial, cfg, ops).items;
            items[i].msgId != 0 ==>
              First(items, HasId(items[i].msgId)) == First(items, HasIdAndType(items[i].msgId, items[i].msgType)) == i
  {
    Reachable(cfg, ops);
    if Run(Initial, cfg, ops).items[i].msgId != 0 {
      FoundById(Run(Initial, cfg, ops), i);
    }
  }

  lemma FoundById(s: State, i: nat)
    requires Good(s) && i < |s.items| && s.items[i].msgId != 0
    ensures var x := s.items[i];
            First(s.items, HasId(x.msgId)) == First(s.items, HasIdAndType(x.msgId, x.msgType)) == i
  {
    var x := s.items[i];
    assert Stored(x, s.origin, s.log);
    FindsById(s.items, i);
    assert HasIdAndType(x.msgId, x.msgType)(s.items[i]);
    OtherIds(s.items, i);
  }

  lemma OtherIds(items: seq<Item>, i: nat)
    requires DistinctIds(items) && i < |items| && items[i].msgId != 0
    ensures forall k :: 0 <= k < i ==> !HasIdAndType(items[i].msgId, items[i].msgType)(items[k])
  {
  }
}
