/** The incremental allocator over whole runs: when the ids it gives are fresh. */
module Identifiers {
  import opened Bytes
  import opened MqttMsg
  import opened ClientModel
  import opened Steps
  import opened Ledger
  import opened Runs

  /** The id an operation draws, if it comes to that. */
  function Drawn(op: Op): Option<Counter> {
    match op
    case Publishing(_, _, _, _, id, _, _, _) => Some(id)
    case Enqueueing(_, _, _, _, _, id, _) => Some(id)
    case Subscribing(_, id, _, _) => Some(id)
    case Unsubscribing(_, id, _, _) => Some(id)
    case _ => None
  }

  predicate DrawsNext(s: State, op: Op) {
    Drawn(op).Some? ==> Drawn(op).value == NextId(s.lastId)
  }

  /** A run as the incremental allocator makes it. */
  predicate Sequential(s: State, cfg: Config, ops: seq<Op>)
    decreases |ops|
  {
    ops == [] || (DrawsNext(s, ops[0]) && Sequential(Apply(s, cfg, ops[0]), cfg, ops[1..]))
  }

  /** A state with the number of ids drawn so far and, for every message ever stored, how many were drawn before its own. */
  datatype Counted = Counted(s: State, drawn: nat, births: seq<nat>)

  function Count(c: Counted, cfg: Config, op: Op): Counted {
    Recount(c, Apply(c.s, cfg, op))
  }

  function Recount(c: Counted, t: State): Counted {
    Counted(t, c.drawn + if t.lastId != c.s.lastId then 1 else 0,
            c.births + if |t.origin| > |c.s.origin| then [c.drawn] else [])
  }

  /** Since the own id of every stored message was drawn, at most 65533 others were. */
  predicate Recent(c: Counted) {
    forall x :: x in c.s.items && x.msgId != 0 ==> x.handle < |c.births| && c.drawn - c.births[x.handle] <= 65534
  }

  /** At every moment of the run the stored ids stem from the last 65534 allocations, and the task only iterates while
      connected. */
  predicate AlwaysRecent(c: Counted, cfg: Config, ops: seq<Op>)
    decreases |ops|
  {
    Recent(c) && (ops == [] || ((ops[0].Iterating? ==> c.s.connected) && AlwaysRecent(Count(c, cfg, ops[0]), cfg, ops[1..])))
  }

  /** The counter and the ids of all messages are those of the allocator. */
  predicate Tracks(c: Counted) {
    && |c.births| == |c.s.origin|
    && c.s.lastId == (if c.drawn == 0 then 0 else Allocated(0, c.drawn - 1))
    && forall h :: 0 <= h < |c.births| && c.s.origin[h].msgId != 0 ==>
         c.births[h] < c.drawn && c.s.origin[h].msgId == Allocated(0, c.births[h])
  }

  /** What an operation can do to the counter and to the list of messages. */
  ghost predicate OneDraw(s: State, t: State) {
    && t.lastId in {s.lastId, NextId(s.lastId)}
    && s.origin <= t.origin
    && (|t.origin| == |s.origin| ||
        (|t.origin| == |s.origin| + 1 &&
         var id := t.origin[|s.origin|].msgId; id == 0 || (id == t.lastId == NextId(s.lastId))))
  }

  lemma IterateDraws(s: State, cfg: Config, env: Environment)
    ensures OneDraw(s, Iterate(s, cfg, env))
  {
    var received := Receive(s, env.reception, env.times.receive);
    if env.reception.Handled? {
      DispatchLeaves(s, env.reception.msg, env.reception.delivered, env.times.receive);
    }
    ServeLeaves(received, cfg, env.times, env.written);
    MaintainLeaves(Serve(received, cfg, env.times, env.written), cfg, env.times, env.pinged);
  }

  lemma PublishDraws(s: State, cfg: Config, topic: seq<Byte>, payload: seq<Byte>, qos: nat, retain: int,
                     times: PublishTimes, before: seq<Byte>, n: nat)
    ensures OneDraw(s, Publish(s, cfg, topic, payload, qos, retain, NextId(s.lastId), times, before, n))
  {
  }

  lemma OpDraws(s: State, cfg: Config, op: Op)
    requires DrawsNext(s, op)
    ensures OneDraw(s, Apply(s, cfg, op))
  {
    match op
    case Publishing(topic, payload, qos, retain, id, times, before, n) =>
      PublishDraws(s, cfg, topic, payload, qos, retain, times, before, n);
    case Enqueueing(_, _, _, _, _, _, _) =>
    case Subscribing(_, _, _, _) =>
    case Unsubscribing(_, _, _, _) =>
    case Iterating(env) => IterateDraws(s, cfg, env);
    case Connecting(_, _, _, _) =>
    case Losing =>
    case Stopping =>
  }

  lemma CountTracks(c: Counted, cfg: Config, op: Op)
    requires Tracks(c) && DrawsNext(c.s, op)
    ensures Tracks(Count(c, cfg, op))
  {
    OpDraws(c.s, cfg, op);
    RecountTracks(c, Apply(c.s, cfg, op));
  }

  lemma RecountTracks(c: Counted, t: State)
    requires Tracks(c) && OneDraw(c.s, t)
    ensures Tracks(Recount(c, t))
  {
  }

  /** The next id belongs to no stored message while these stem from the last 65534 allocations. */
  lemma NextIdIsFresh(c: Counted)
    requires Good(c.s) && Tracks(c) && Recent(c)
    ensures Fresh(c.s, NextId(c.s.lastId))
  {
    assert NextId(c.s.lastId) == Allocated(0, c.drawn);
    forall x | x in c.s.items
      ensures x.msgId != NextId(c.s.lastId)
    {
      var i :| 0 <= i < |c.s.items| && c.s.items[i] == x;
      assert Stored(x, c.s.origin, c.s.log);
      if x.msgId != 0 {
        AllocationWindow(0, c.births[x.handle], c.drawn);
      }
    }
  }

  /** A run with the incremental allocator is legal if no message stays stored while 65534 more ids are
      drawn. */
  lemma {:induction false} SequentialRunsAreLegal(c: Counted, cfg: Config, ops: seq<Op>)
    requires Good(c.s) && Tracks(c) && Sequential(c.s, cfg, ops) && AlwaysRecent(c, cfg, ops)
    ensures Legal(c.s, cfg, ops)
    decreases |ops|
  {
    if ops != [] {
      NextIdIsFresh(c);
      ApplyKeeps(c.s, cfg, ops[0]);
      CountTracks(c, cfg, ops[0]);
      SequentialRunsAreLegal(Count(c, cfg, ops[0]), cfg, ops[1..]);
    }
  }

  /** In particular from the start. */
  lemma RunsFromStartAreLegal(cfg: Config, ops: seq<Op>)
    requires Sequential(Initial, cfg, ops) && AlwaysRecent(Counted(Initial, 0, []), cfg, ops)
    ensures Legal(Initial, cfg, ops)
  {
    StartTracks(Initial);
    SequentialRunsAreLegal(Counted(Initial, 0, []), cfg, ops);
  }

  lemma StartTracks(s: State)
    requires s.items == [] && s.origin == [] && s.log == [] && s.lastId == 0
    ensures Good(s) && Tracks(Counted(s, 0, []))
  {
  }
}
