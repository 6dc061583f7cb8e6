/** The keepalive deadline over whole runs (MQTT 3.1.1, section 3.1.2.10). */
module KeepaliveDeadline {
  import opened ClientModel
  import opened Steps
  import opened MqttMsg
  import opened Runs

  /** The wrapping comparison of has_timed_out is a comparison of elapsed times, as long as these stay below 2^63. */
  lemma HasTimedOutMeansElapsed(lastTick: int, timeout: nat, now: int)
    requires lastTick <= now && now - lastTick < TICK_MOD / 2 && timeout < TICK_MOD / 2
    ensures HasTimedOut(lastTick, timeout, now) <==> now - lastTick >= timeout
  {
  }

  /** At time `t` a connection is younger than half a period since the connect or the last PINGRESP, or than the whole
      period if a ping is pending. */
  predicate WithinDeadline(s: State, cfg: Config, t: int) {
    s.connected ==>
      && s.keepaliveTick <= t
      && (!s.waitPing ==> t - s.keepaliveTick < cfg.keepaliveMs / 2)
      && (s.waitPing ==> t - s.keepaliveTick < cfg.keepaliveMs)
  }

  /** Passes of the task follow each other, and a connect, within `d`; clocks do not run backwards. `t` is the time of
      the last keepalive check or connect. */
  predicate Timely(ops: seq<Op>, t: int, d: nat)
    decreases |ops|
  {
    ops == [] ||
    match ops[0]
    case Iterating(env) => t <= env.times.receive <= env.times.keepalive <= t + d && Timely(ops[1..], env.times.keepalive, d)
    case Connecting(_, _, _, keepaliveTick) => t <= keepaliveTick && Timely(ops[1..], keepaliveTick, d)
    case _ => Timely(ops[1..], t, d)
  }

  /** The task goes through its CONNECTED branch only while connected. */
  predicate PassesConnected(s: State, cfg: Config, ops: seq<Op>)
    decreases |ops|
  {
    ops == [] || ((ops[0].Iterating? ==> s.connected) && PassesConnected(Apply(s, cfg, ops[0]), cfg, ops[1..]))
  }

  /** The time of the last check or connect. */
  function LastCheck(ops: seq<Op>, t: int): int
    decreases |ops|
  {
    if ops == [] then t
    else
      match ops[0]
      case Iterating(env) => LastCheck(ops[1..], env.times.keepalive)
      case Connecting(_, _, _, keepaliveTick) => LastCheck(ops[1..], keepaliveTick)
      case _ => LastCheck(ops[1..], t)
  }

  lemma ReceiveKeepalive(s: State, r: Reception, now: int)
    ensures var t := Receive(s, r, now);
            && t.connected == s.connected
            && (t.keepaliveTick, t.waitPing) ==
               if r.Handled? && r.msg.typ == PINGRESP then (now, false) else (s.keepaliveTick, s.waitPing)
  {
    if r.Handled? {
      DispatchLeaves(s, r.msg, r.delivered, now);
    }
  }

  /** Before its keepalive step a pass may find the connection older than half a period, but not than a whole one. */
  lemma MaintainKeepsDeadline(s: State, cfg: Config, times: TaskTimes, n: nat)
    requires cfg.keepaliveMs > 0 && cfg.keepaliveMs % 2 == 0 && cfg.keepaliveMs < TICK_MOD / 2
    requires s.connected ==> s.keepaliveTick <= times.keepalive && times.keepalive - s.keepaliveTick < TICK_MOD / 2
    requires s.connected && !s.waitPing ==> times.keepalive - s.keepaliveTick < cfg.keepaliveMs
    ensures WithinDeadline(Maintain(s, cfg, times, n), cfg, times.keepalive)
  {
    CheckKeepsDeadline(s, cfg, times.keepalive, n);
  }

  lemma CheckKeepsDeadline(s: State, cfg: Config, now: int, n: nat)
    requires cfg.keepaliveMs > 0 && cfg.keepaliveMs % 2 == 0 && cfg.keepaliveMs < TICK_MOD / 2
    requires s.connected ==> s.keepaliveTick <= now && now - s.keepaliveTick < TICK_MOD / 2
    requires s.connected && !s.waitPing ==> now - s.keepaliveTick < cfg.keepaliveMs
    ensures WithinDeadline(Keepalive(s, cfg, now, n).0, cfg, now)
  {
    if s.connected {
      HasTimedOutMeansElapsed(s.keepaliveTick, cfg.keepaliveMs / 2, now);
      HasTimedOutMeansElapsed(s.keepaliveTick, cfg.keepaliveMs, now);
    }
  }

  /** One pass: what is connected at its end is within the deadline. */
  lemma PassKeepsDeadline(s: State, cfg: Config, env: Environment, t: int, d: nat)
    requires s.connected && WithinDeadline(s, cfg, t)
    requires cfg.keepaliveMs > 0 && cfg.keepaliveMs % 2 == 0 && 2 * d <= cfg.keepaliveMs < TICK_MOD / 4
    requires t <= env.times.receive <= env.times.keepalive <= t + d
    ensures WithinDeadline(Iterate(s, cfg, env), cfg, env.times.keepalive)
  {
    var received := Receive(s, env.reception, env.times.receive);
    ReceiveKeepalive(s, env.reception, env.times.receive);
    var served := Serve(received, cfg, env.times, env.written);
    ServeLeaves(received, cfg, env.times, env.written);
    MaintainKeepsDeadline(served, cfg, env.times, env.pinged);
  }

  lemma OtherOpsKeepDeadline(s: State, cfg: Config, op: Op, t: int)
    requires WithinDeadline(s, cfg, t) && !op.Iterating? && !op.Connecting?
    ensures WithinDeadline(Apply(s, cfg, op), cfg, t)
  {
  }

  /** With a period of K ms and passes at most K/2 apart: whatever else happens, a connection that stands after a pass is
      younger than K/2 since its connect or last PINGRESP if no ping is pending, and younger than K if one is. */
  lemma {:induction false} DeadlineHolds(s: State, cfg: Config, ops: seq<Op>, t: int, d: nat)
    requires WithinDeadline(s, cfg, t) && PassesConnected(s, cfg, ops) && Timely(ops, t, d)
    requires cfg.keepaliveMs > 0 && cfg.keepaliveMs % 2 == 0 && 2 * d <= cfg.keepaliveMs < TICK_MOD / 4
    ensures WithinDeadline(Run(s, cfg, ops), cfg, LastCheck(ops, t))
    decreases |ops|
  {
    if ops != [] {
      var s' := Apply(s, cfg, ops[0]);
      match ops[0]
      case Iterating(env) =>
        PassKeepsDeadline(s, cfg, env, t, d);
        DeadlineHolds(s', cfg, ops[1..], env.times.keepalive, d);
      case Connecting(_, _, _, keepaliveTick) => DeadlineHolds(s', cfg, ops[1..], keepaliveTick, d);
      case _ =>
        OtherOpsKeepDeadline(s, cfg, ops[0], t);
        DeadlineHolds(s', cfg, ops[1..], t, d);
    }
  }

  /** The broker says nothing and no new connection is made. */
  predicate Silent(op: Op) {
    !op.Connecting? && (op.Iterating? && op.env.reception.Handled? ==> op.env.reception.msg.typ != PINGRESP)
  }

  lemma SilenceKeepsTick(s: State, cfg: Config, op: Op)
    requires Silent(op)
    ensures Apply(s, cfg, op).keepaliveTick == s.keepaliveTick
  {
    if op.Iterating? {
      var env := op.env;
      ReceiveKeepalive(s, env.reception, env.times.receive);
      var received := Receive(s, env.reception, env.times.receive);
      ServeLeaves(received, cfg, env.times, env.written);
      MaintainLeaves(Serve(received, cfg, env.times, env.written), cfg, env.times, env.pinged);
    }
  }

  lemma {:induction false} SilentRunKeepsTick(s: State, cfg: Config, ops: seq<Op>)
    requires forall op :: op in ops ==> Silent(op)
    ensures Run(s, cfg, ops).keepaliveTick == s.keepaliveTick
    decreases |ops|
  {
    if ops != [] {
      SilenceKeepsTick(s, cfg, ops[0]);
      SilentRunKeepsTick(Apply(s, cfg, ops[0]), cfg, ops[1..]);
    }
  }

  /** A broker that stays silent is dropped by the first pass K ms after the connect or its last PINGRESP: with passes at
      most D apart, within K + D. */
  lemma SilentBrokerIsDropped(s: State, cfg: Config, ops: seq<Op>, t: int, d: nat)
    requires WithinDeadline(s, cfg, t) && PassesConnected(s, cfg, ops) && Timely(ops, t, d)
    requires cfg.keepaliveMs > 0 && cfg.keepaliveMs % 2 == 0 && 2 * d <= cfg.keepaliveMs < TICK_MOD / 4
    requires forall op :: op in ops ==> Silent(op)
    requires LastCheck(ops, t) >= s.keepaliveTick + cfg.keepaliveMs
    ensures !Run(s, cfg, ops).connected
  {
    DeadlineHolds(s, cfg, ops, t, d);
    SilentRunKeepsTick(s, cfg, ops);
  }
}
