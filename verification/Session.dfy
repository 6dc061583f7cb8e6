/** Any sequence of calls on a client object is a run of its model. */
module Session {
  import opened Bytes
  import opened MqttMsg
  import opened ClientModel
  import opened Runs
  import opened Identifiers
  import opened Guarantees
  import opened Client

  /** What the application, the network and the clock do to the client. */
  datatype Call =
    | PublishCall(topic: seq<Byte>, data: seq<Byte>, len: int, qos: nat, retain: int, times: PublishTimes, before: seq<Byte>)
    | EnqueueCall(topic: seq<Byte>, data: seq<Byte>, len: int, qos: nat, retain: int, store: bool, tick: int)
    | SubscribeCall(topics: seq<Filter>, tick: int)
    | UnsubscribeCall(topic: seq<Byte>, tick: int)
    | PassCall(disconnect: bool, input: Input, clock: TaskTimes)
    | ConnectCall(body: seq<Byte>, accepted: bool, refreshTick: int, keepaliveTick: int)
    | LossCall
    | StopCall

  /** The length fits the data, and all the memory in front of it is there. */
  predicate Sound(call: Call) {
    match call
    case PublishCall(_, data, len, _, _, _, before) => Acceptable(Some(data), len) && |before| >= SIZE_MOD
    case EnqueueCall(_, data, len, _, _, _, _) => Acceptable(Some(data), len)
    case _ => true
  }

  /** The operation is that of the call; what is left open is what the transport and the allocator decide. */
  ghost predicate Carries(call: Call, op: Op)
    requires Sound(call)
  {
    match call
    case PublishCall(topic, data, len, qos, retain, times, before) =>
      && op.Publishing? && op.topic == topic && op.payload == data[..EffectiveLength(Some(data), len)] && op.qos == qos
      && op.retain == retain && op.times == times && op.before == before
    case EnqueueCall(topic, data, len, qos, retain, store, tick) =>
      && op.Enqueueing? && op.topic == topic && op.payload == data[..EffectiveLength(Some(data), len)] && op.qos == qos
      && op.retain == retain && op.store == store && op.tick == tick
    case SubscribeCall(topics, tick) => op.Subscribing? && op.topics == topics && op.tick == tick
    case UnsubscribeCall(topic, tick) => op.Unsubscribing? && op.topic == topic && op.tick == tick
    case PassCall(disconnect, input, times) =>
      && op.Iterating? && op.env.disconnect == disconnect && op.env.times == times
      && (!disconnect ==> ReceptionOf(input, op.env.reception))
    case ConnectCall(body, accepted, refreshTick, keepaliveTick) =>
      && op.Connecting? && op.body == body && (op.accepted ==> accepted)
      && op.refreshTick == refreshTick && op.keepaliveTick == keepaliveTick
    case LossCall => op.Losing?
    case StopCall => op.Stopping?
  }

  lemma MemorySuffices(s: State, cfg: Config, topic: seq<Byte>, payload: seq<Byte>, qos: nat)
    ensures Excess(s, cfg, topic, payload, qos) <= SIZE_MOD + |payload|
  {
  }

  /** A call that submits a message of the application. */
  method PerformMessage(client: Client, call: Call) returns (ghost op: Op)
    requires client.Valid() && Sound(call) && (call.PublishCall? || call.EnqueueCall?)
    modifies client, client.conn, client.conn.buffer, client.outbox, client.transport`sent, client.transport`refused
    ensures client.Valid() && Carries(call, op) && DrawsNext(old(client.Model()), op)
    ensures client.Model() == Apply(old(client.Model()), client.cfg, op)
  {
    ghost var s := client.Model();
    match call {
      case PublishCall(topic, data, len, qos, retain, times, before) =>
        MemorySuffices(s, client.cfg, topic, data[..EffectiveLength(Some(data), len)], qos);
        var _, m := client.Publish(topic, Some(data), len, qos, retain, times, before);
        op := Publishing(topic, data[..EffectiveLength(Some(data), len)], qos, retain, NextId(s.lastId), times, before, m);
      case EnqueueCall(topic, data, len, qos, retain, store, tick) =>
        var _ := client.Enqueue(topic, Some(data), len, qos, retain, store, tick);
        op := Enqueueing(topic, data[..EffectiveLength(Some(data), len)], qos, retain, store, NextId(s.lastId), tick);
    }
  }

  method PerformRequest(client: Client, call: Call) returns (ghost op: Op)
    requires client.Valid() && (call.SubscribeCall? || call.UnsubscribeCall?)
    modifies client, client.conn, client.conn.buffer, client.outbox, client.transport`sent, client.transport`refused
    ensures client.Valid() && Carries(call, op) && DrawsNext(old(client.Model()), op)
    ensures client.Model() == Apply(old(client.Model()), client.cfg, op)
  {
    ghost var s := client.Model();
    match call {
      case SubscribeCall(topics, tick) =>
        var _, m := client.Subscribe(topics, tick);
        op := Subscribing(topics, NextId(s.lastId), tick, m);
      case UnsubscribeCall(topic, tick) =>
        var _, m := client.Unsubscribe(topic, tick);
        op := Unsubscribing(topic, NextId(s.lastId), tick, m);
    }
  }

  /** What the task does, and the calls that start and stop it. */
  method PerformTask(client: Client, call: Call) returns (ghost op: Op)
    requires client.Valid() && (call.PassCall? || call.ConnectCall? || call.LossCall? || call.StopCall?)
    modifies client, client.conn, client.conn.buffer, client.outbox, client.transport`sent, client.transport`refused
    ensures client.Valid() && Carries(call, op)
    ensures client.Model() == Apply(old(client.Model()), client.cfg, op)
  {
    match call {
      case PassCall(disconnect, input, times) =>
        ghost var env := client.Iterate(disconnect, input, times);
        op := Iterating(env);
      case ConnectCall(body, accepted, refreshTick, keepaliveTick) =>
        var ok, m := client.Connect(body, accepted, refreshTick, keepaliveTick);
        op := Connecting(body, ok, refreshTick, keepaliveTick);
      case LossCall =>
        client.Abort();
        op := Losing;
      case StopCall =>
        var _, m := client.Stop();
        op := Stopping;
    }
  }

  /** One call. The task only goes through its CONNECTED branch while the client is connected. */
  method Perform(client: Client, call: Call) returns (ghost op: Op)
    requires client.Valid() && Sound(call) && (call.PassCall? ==> client.connected)
    modifies client, client.conn, client.conn.buffer, client.outbox, client.transport`sent, client.transport`refused
    ensures client.Valid() && Carries(call, op) && DrawsNext(old(client.Model()), op)
    ensures client.Model() == Apply(old(client.Model()), client.cfg, op)
    ensures op.Iterating? ==> old(client.connected)
  {
    if call.PublishCall? || call.EnqueueCall? {
      op := PerformMessage(client, call);
    } else if call.SubscribeCall? || call.UnsubscribeCall? {
      op := PerformRequest(client, call);
    } else {
      op := PerformTask(client, call);
    }
  }

  lemma {:induction false} SequentialConcat(s: State, cfg: Config, a: seq<Op>, op: Op)
    requires Sequential(s, cfg, a) && DrawsNext(Run(s, cfg, a), op)
    ensures Sequential(s, cfg, a + [op]) && Run(s, cfg, a + [op]) == Apply(Run(s, cfg, a), cfg, op)
    decreases |a|
  {
    if a == [] {
      assert [op][1..] == [] && a + [op] == [op];
    } else {
      assert (a + [op])[1..] == a[1..] + [op];
      SequentialConcat(Apply(s, cfg, a[0]), cfg, a[1..], op);
    }
  }

  /** The operations are those of the calls, in their order; only passes that find no connection are left out. */
  ghost predicate CarriedOut(cfg: Config, calls: seq<Call>, ops: seq<Op>)
    requires forall c :: c in calls ==> Sound(c)
    decreases |calls|
  {
    if calls == [] then ops == []
    else
      var last := calls[|calls| - 1];
      (last.PassCall? && !Run(Initial, cfg, ops).connected && CarriedOut(cfg, calls[..|calls| - 1], ops)) ||
      (ops != [] && CarriedOut(cfg, calls[..|calls| - 1], ops[..|ops| - 1]) && Carries(last, ops[|ops| - 1]) &&
       (last.PassCall? ==> Run(Initial, cfg, ops[..|ops| - 1]).connected))
  }

  lemma OneMoreCall(cfg: Config, calls: seq<Call>, i: nat, ops: seq<Op>, op: Op)
    requires i < |calls| && forall c :: c in calls ==> Sound(c)
    requires CarriedOut(cfg, calls[..i], ops) && Carries(calls[i], op)
    requires calls[i].PassCall? ==> Run(Initial, cfg, ops).connected
    ensures CarriedOut(cfg, calls[..i + 1], ops + [op])
  {
    var some := calls[..i + 1];
    assert some[..|some| - 1] == calls[..i] && (ops + [op])[..|ops|] == ops;
  }

  lemma NoPass(cfg: Config, calls: seq<Call>, i: nat, ops: seq<Op>)
    requires i < |calls| && forall c :: c in calls ==> Sound(c)
    requires CarriedOut(cfg, calls[..i], ops) && calls[i].PassCall? && !Run(Initial, cfg, ops).connected
    ensures CarriedOut(cfg, calls[..i + 1], ops)
  {
    var some := calls[..i + 1];
    assert some[..|some| - 1] == calls[..i];
  }

  /** All calls, one after the other: the client ends where the run of the model ends. The run is legal if no message stays
      stored while 65534 more ids are drawn. */
  method Drive(client: Client, calls: seq<Call>) returns (ghost ops: seq<Op>)
    requires client.Valid() && client.Model() == Initial && forall c :: c in calls ==> Sound(c)
    modifies client, client.conn, client.conn.buffer, client.outbox, client.transport`sent, client.transport`refused
    ensures client.Valid() && client.Model() == Run(Initial, client.cfg, ops)
    ensures CarriedOut(client.cfg, calls, ops) && Sequential(Initial, client.cfg, ops)
    ensures AlwaysRecent(Counted(Initial, 0, []), client.cfg, ops) ==> Legal(Initial, client.cfg, ops) && Good(client.Model())
  {
    ops := [];
    for i := 0 to |calls|
      invariant client.Valid() && client.Model() == Run(Initial, client.cfg, ops)
      invariant CarriedOut(client.cfg, calls[..i], ops) && Sequential(Initial, client.cfg, ops)
    {
      if !calls[i].PassCall? || client.connected {
        ghost var op := Perform(client, calls[i]);
        OneMoreCall(client.cfg, calls, i, ops, op);
        SequentialConcat(Initial, client.cfg, ops, op);
        ops := ops + [op];
      } else {
        NoPass(client.cfg, calls, i, ops);
      }
    }
    assert calls[..|calls|] == calls;
    RecentMeansGood(client.cfg, ops);
  }

  lemma RecentMeansGood(cfg: Config, ops: seq<Op>)
    requires Sequential(Initial, cfg, ops)
    ensures AlwaysRecent(Counted(Initial, 0, []), cfg, ops) ==> Legal(Initial, cfg, ops) && Good(Run(Initial, cfg, ops))
  {
    if AlwaysRecent(Counted(Initial, 0, []), cfg, ops) {
      RunsFromStartAreLegal(cfg, ops);
      Reachable(cfg, ops);
    }
  }
}
