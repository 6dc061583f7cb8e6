/** How far the fragment offset drifts in runs that keep no fragmented message back, and what a publish then sends. */
module Drift {
  import opened Arithmetic
  import opened Bytes
  import opened MqttMsg
  import opened ClientModel
  import opened Steps
  import opened Runs
  import opened Resends
  import Varint

  /** A publish whose first write succeeds. It leaves the offset zero. */
  predicate GoesOut(s: State, cfg: Config, op: Op) {
    && op.Publishing? && s.connected
    && !(op.qos > 0 && OverLimit(s, cfg, |op.payload|)) && Buildable(cfg, op.topic, op.payload, op.qos)
    && op.n >= FirstChunk(cfg.capacity, HeaderSize(op.topic, op.qos), |op.payload|)
  }

  /** A fragmented message that is begun but does not go out, or is enqueued. It leaves its own offset. */
  predicate KeepsBack(s: State, cfg: Config, op: Op) {
    match op
    case Publishing(topic, payload, qos, _, _, _, _, _) =>
      && HeaderFits(cfg.capacity, topic, Some(payload), |payload|, qos) && IsCut(cfg.capacity, HeaderSize(topic, qos), |payload|)
      && !(qos > 0 && OverLimit(s, cfg, |payload|)) && !GoesOut(s, cfg, op)
    case Enqueueing(topic, payload, qos, _, _, _, _) =>
      && HeaderFits(cfg.capacity, topic, Some(payload), |payload|, qos) && IsCut(cfg.capacity, HeaderSize(topic, qos), |payload|)
      && !OverLimit(s, cfg, |payload|)
    case _ => false
  }

  predicate NothingKeptBack(s: State, cfg: Config, ops: seq<Op>)
    decreases |ops|
  {
    ops == [] || (!KeepsBack(s, cfg, ops[0]) && NothingKeptBack(Apply(s, cfg, ops[0]), cfg, ops[1..]))
  }

  /** How far the offset moves back from `f` to `g`. */
  function Moved(f: Fragment, g: Fragment): nat {
    (f.offset - g.offset) % SIZE_MOD
  }

  /** How far the messages since the last publish that went out have moved the offset back in all, counted from `d`. */
  function Drifted(s: State, cfg: Config, ops: seq<Op>, d: nat): nat
    decreases |ops|
  {
    if ops == [] then d
    else Drifted(Apply(s, cfg, ops[0]), cfg, ops[1..], NextDrift(s, cfg, ops[0], d))
  }

  function NextDrift(s: State, cfg: Config, op: Op, d: nat): nat {
    if GoesOut(s, cfg, op) then 0 else d + Moved(s.frag, Apply(s, cfg, op).frag)
  }

  // ---------- every message moves it by at most three ----------

  lemma MovesAdd(f: Fragment, g: Fragment, h: Fragment, a: nat, b: nat)
    requires Moved(f, g) <= a && Moved(g, h) <= b && a + b < SIZE_MOD
    ensures Moved(f, h) <= a + b
  {
    var p, q := Moved(f, g), Moved(g, h);
    ModPeriod(p + q, (f.offset - g.offset) / SIZE_MOD + (g.offset - h.offset) / SIZE_MOD, SIZE_MOD);
  }

  lemma PrintingMoves(f: Fragment, body: nat)
    ensures Moved(f, AfterPrinting(f, body)) <= 3 && (f.offset < SIZE_MOD ==> AfterPrinting(f, body).offset < SIZE_MOD)
  {
    if Announced(f, body) <= Varint.MAX_VALUE {
      Varint.EncodedLength(Announced(f, body));
      var e := 4 - |Varint.Encode(Announced(f, body))|;
      ModPeriod(e, (f.offset - e) / SIZE_MOD, SIZE_MOD);
    }
  }

  /** `g` is at most `a` behind `f`. */
  predicate Near(f: Fragment, g: Fragment, a: nat) {
    Moved(f, g) <= a && (f.offset < SIZE_MOD ==> g.offset < SIZE_MOD)
  }

  lemma BuiltMoves(s: State, cfg: Config, topic: seq<Byte>, payload: seq<Byte>, qos: nat, id: Counter)
    requires HeaderFits(cfg.capacity, topic, Some(payload), |payload|, qos) ==> !IsCut(cfg.capacity, HeaderSize(topic, qos), |payload|)
    ensures Near(s.frag, Built(s, cfg, topic, payload, qos, id).frag, 3)
  {
    if HeaderFits(cfg.capacity, topic, Some(payload), |payload|, qos) {
      PrintingMoves(s.frag.(total := 0), HeaderSize(topic, qos) + |payload|);
    }
  }

  lemma PublishMoves(s: State, cfg: Config, op: Op)
    requires op.Publishing? && !KeepsBack(s, cfg, op)
    ensures if GoesOut(s, cfg, op) then Apply(s, cfg, op).frag.offset == 0 else Near(s.frag, Apply(s, cfg, op).frag, 3)
  {
    if !GoesOut(s, cfg, op) && !(op.qos > 0 && OverLimit(s, cfg, |op.payload|)) {
      BuiltMoves(s, cfg, op.topic, op.payload, op.qos, op.id);
    }
  }

  lemma EnqueueMoves(s: State, cfg: Config, op: Op)
    requires op.Enqueueing? && !KeepsBack(s, cfg, op)
    ensures Near(s.frag, Apply(s, cfg, op).frag, 3)
  {
    if !OverLimit(s, cfg, |op.payload|) {
      BuiltMoves(s, cfg, op.topic, op.payload, op.qos, op.id);
    }
  }

  lemma ReceiveMoves(s: State, r: Reception, now: int)
    ensures Near(s.frag, Receive(s, r, now).frag, 3)
  {
    PrintingMoves(s.frag, 2);
    if r.Handled? {
      DispatchLeaves(s, r.msg, r.delivered, now);
    }
  }

  lemma WorkMoves(s: State, cfg: Config, env: Environment)
    ensures Near(s.frag, Maintain(Serve(s, cfg, env.times, env.written), cfg, env.times, env.pinged).frag, 3)
  {
    ServeLeaves(s, cfg, env.times, env.written);
    PrintingMoves(s.frag, 0);
    MaintainLeaves(Serve(s, cfg, env.times, env.written), cfg, env.times, env.pinged);
  }

  lemma IterateMoves(s: State, cfg: Config, env: Environment)
    ensures Near(s.frag, Iterate(s, cfg, env).frag, 6)
  {
    PrintingMoves(s.frag, 0);
    var received := Receive(s, env.reception, env.times.receive);
    ReceiveMoves(s, env.reception, env.times.receive);
    WorkMoves(received, cfg, env);
    MovesAdd(s.frag, received.frag, Maintain(Serve(received, cfg, env.times, env.written), cfg, env.times, env.pinged).frag, 3, 3);
  }

  lemma OpMoves(s: State, cfg: Config, op: Op)
    requires !KeepsBack(s, cfg, op)
    ensures if GoesOut(s, cfg, op) then Apply(s, cfg, op).frag.offset == 0 else Near(s.frag, Apply(s, cfg, op).frag, 6)
  {
    match op
    case Publishing(_, _, _, _, _, _, _, _) => PublishMoves(s, cfg, op);
    case Enqueueing(_, _, _, _, _, _, _) => EnqueueMoves(s, cfg, op);
    case Subscribing(topics, id, _, _) => PrintingMoves(s.frag, |SubscribeBody(topics, id)|);
    case Unsubscribing(topic, id, _, _) => PrintingMoves(s.frag, |UnsubscribeBody(topic, id)|);
    case Iterating(env) => IterateMoves(s, cfg, env);
    case Connecting(body, _, _, _) => PrintingMoves(s.frag, |body|);
    case Losing =>
    case Stopping => PrintingMoves(s.frag, 0);
  }

  // ---------- the offset is the drift ----------

  /** The offset is `d` below zero, modulo 2^32. */
  predicate AtDrift(f: Fragment, d: nat) {
    f.offset == (0 - d) % SIZE_MOD
  }

  lemma DriftStep(f: Fragment, g: Fragment, d: nat)
    requires AtDrift(f, d) && g.offset < SIZE_MOD
    ensures AtDrift(g, d + Moved(f, g))
  {
    var m := Moved(f, g);
    var q := (0 - d) / SIZE_MOD + (f.offset - g.offset) / SIZE_MOD;
    assert 0 - (d + m) == g.offset + SIZE_MOD * q;
    ModPeriod(g.offset, q, SIZE_MOD);
  }

  lemma OpDrifts(s: State, cfg: Config, op: Op, d: nat)
    requires AtDrift(s.frag, d) && !KeepsBack(s, cfg, op)
    ensures AtDrift(Apply(s, cfg, op).frag, NextDrift(s, cfg, op, d)) && NextDrift(s, cfg, op, d) <= d + 6
  {
    OpMoves(s, cfg, op);
    if !GoesOut(s, cfg, op) {
      DriftStep(s.frag, Apply(s, cfg, op).frag, d);
    }
  }

  /** While nothing fragmented is kept back the offset is the drift, below zero, modulo 2^32; an operation adds at most six. */
  lemma {:induction false} OffsetIsDrift(s: State, cfg: Config, ops: seq<Op>, d: nat)
    requires AtDrift(s.frag, d) && NothingKeptBack(s, cfg, ops)
    ensures AtDrift(Run(s, cfg, ops).frag, Drifted(s, cfg, ops, d)) && Drifted(s, cfg, ops, d) <= d + 6 * |ops|
    decreases |ops|
  {
    if ops != [] {
      OpDrifts(s, cfg, ops[0], d);
      OffsetIsDrift(Apply(s, cfg, ops[0]), cfg, ops[1..], NextDrift(s, cfg, ops[0], d));
    }
  }

  lemma NegatedMod(d: nat)
    ensures ToInt((0 - d) % SIZE_MOD) == if d % SIZE_MOD <= SIZE_MOD / 2 then 0 - d % SIZE_MOD else SIZE_MOD - d % SIZE_MOD
  {
    var e := d % SIZE_MOD;
    assert 0 - d == 0 - e + SIZE_MOD * (0 - d / SIZE_MOD);
    ModPeriod(0 - e, 0 - d / SIZE_MOD, SIZE_MOD);
  }

  /** With a drift, an unfragmented publish sends its packet and nothing more exactly while the drift is well below 2^31, or
      so large that it comes around. */
  lemma DriftDecides(f: Fragment, d: nat, capacity: nat, header: nat, payload: nat)
    requires AtDrift(f, d) && header + payload < 0x3000_0000
    ensures var reach := MAX_FIXED_HEADER_SIZE + header;
            Surplus(f, capacity, header, payload) == 0 <==>
            || IsCut(capacity, header, payload)
            || d % SIZE_MOD < SIZE_MOD / 2 - reach - payload || d % SIZE_MOD >= SIZE_MOD - reach
  {
    SurplusExactly(f, capacity, header, payload);
    NegatedMod(d);
  }

  /** The same over runs. */
  lemma RunDriftDecides(cfg: Config, ops: seq<Op>, topic: seq<Byte>, payload: seq<Byte>, qos: nat)
    requires NothingKeptBack(Initial, cfg, ops) && HeaderSize(topic, qos) + |payload| < 0x3000_0000
    ensures var reach := MAX_FIXED_HEADER_SIZE + HeaderSize(topic, qos);
            var d := Drifted(Initial, cfg, ops, 0) % SIZE_MOD;
            Excess(Run(Initial, cfg, ops), cfg, topic, payload, qos) == 0 <==>
            || IsCut(cfg.capacity, HeaderSize(topic, qos), |payload|)
            || d < SIZE_MOD / 2 - reach - |payload| || d >= SIZE_MOD - reach
  {
    OffsetIsDrift(Initial, cfg, ops, 0);
    DriftDecides(Run(Initial, cfg, ops).frag, Drifted(Initial, cfg, ops, 0), cfg.capacity, HeaderSize(topic, qos), |payload|);
  }

  /** What a drift has to stay below for every publish that can be built. */
  const DRIFT_LIMIT := SIZE_MOD / 2 - MAX_FIXED_HEADER_SIZE - Varint.MAX_VALUE

  predicate DriftStays(s: State, cfg: Config, ops: seq<Op>, d: nat)
    decreases |ops|
  {
    d < DRIFT_LIMIT && (ops == [] || DriftStays(Apply(s, cfg, ops[0]), cfg, ops[1..], NextDrift(s, cfg, ops[0], d)))
  }

  lemma SmallDriftStops(s: State, cfg: Config, op: Op, d: nat)
    requires AtDrift(s.frag, d) && d < DRIFT_LIMIT
    ensures PublishStops(s, cfg, op)
  {
    if op.Publishing? && Buildable(cfg, op.topic, op.payload, op.qos) {
      DriftDecides(s.frag, d, cfg.capacity, HeaderSize(op.topic, op.qos), |op.payload|);
    }
  }

  /** No publish is misled in a run that keeps nothing fragmented back and whose drift stays below the limit. */
  lemma {:induction false} SmallDriftMeansStops(s: State, cfg: Config, ops: seq<Op>, d: nat)
    requires AtDrift(s.frag, d) && NothingKeptBack(s, cfg, ops) && DriftStays(s, cfg, ops, d)
    ensures AllStop(s, cfg, ops)
    decreases |ops|
  {
    if ops != [] {
      SmallDriftStops(s, cfg, ops[0], d);
      OpDrifts(s, cfg, ops[0], d);
      SmallDriftMeansStops(Apply(s, cfg, ops[0]), cfg, ops[1..], NextDrift(s, cfg, ops[0], d));
    }
  }

  /** An operation drifts by at most six, so 300 million operations stay below it, whether or not a publish goes out. */
  lemma {:induction false} FewOperationsDriftLittle(s: State, cfg: Config, ops: seq<Op>, d: nat)
    requires AtDrift(s.frag, d) && NothingKeptBack(s, cfg, ops) && d + 6 * |ops| < DRIFT_LIMIT
    ensures DriftStays(s, cfg, ops, d)
    decreases |ops|
  {
    if ops != [] {
      OpDrifts(s, cfg, ops[0], d);
      FewOperationsDriftLittle(Apply(s, cfg, ops[0]), cfg, ops[1..], NextDrift(s, cfg, ops[0], d));
    }
  }
}
