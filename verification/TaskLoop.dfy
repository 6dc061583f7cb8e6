/** The receiver and the client together: passes of the task over a stream of packets. */
module TaskLoop {
  import opened Bytes
  import opened MqttMsg
  import opened MqttParse
  import opened ClientModel
  import opened Runs
  import opened Guarantees
  import opened Client
  import opened Framing
  import opened Receiver

  /** A packet as the switch of mqtt_process_receive sees it. */
  function Seen(p: seq<Byte>): Incoming
    requires WellFormed(p)
  {
    Incoming(GetType(p[0]), GetQos(p[0]), IdOf(p, |p|))
  }

  /** deliver_suback needs a byte behind the id; deliver_publish tells for itself. */
  function DeliveredOf(a: Arrival): bool {
    if a.typ == SUBACK then |a.excerpt| > 4 else a.delivered
  }

  function InputOf(arrival: Option<Arrival>, failed: bool): (input: Input)
    requires arrival.Some? ==> arrival.value.id < 65536
  {
    if arrival.Some? then Arrived(Incoming(arrival.value.typ, arrival.value.qos, arrival.value.id), DeliveredOf(arrival.value))
    else if failed then Failed
    else NoPacket
  }

  lemma IdFits(a: Arrival, p: seq<Byte>, capacity: nat)
    requires Receivable(p, capacity) && ArrivalOf(a, p, capacity)
    ensures a.id < 65536 && Incoming(a.typ, a.qos, a.id) == Seen(p)
  {
  }

  ghost predicate Together(client: Client, receiver: Receiver)
    reads client, client.conn, client.outbox, receiver
  {
    client.Valid() && receiver.Valid() && receiver.inBuffer != client.conn.buffer
  }

  /** The pass handles the packet that arrived, or is idle, or fails. */
  ghost predicate PassOf(env: Environment, times: TaskTimes, arrived: bool, failed: bool, broken: bool, packet: seq<Byte>)
    requires WellFormed(packet)
  {
    && !env.disconnect && env.times == times
    && if arrived then
         && env.reception.Handled? && env.reception.msg == Seen(packet)
         && env.reception.msg == Incoming(packet[0] / 16, packet[0] / 2 % 4, IdOf(packet, |packet|))
         && env.reception.delivered == if GetType(packet[0]) == SUBACK then |packet| > 4 else !broken
       else
         env.reception == if failed then Failure else Idle
  }

  /** One pass, with whatever the transport brings. It fails if the transport does, or if a pass in mid-packet brings
      nothing; a pass that finds nothing to read is idle. */
  method Pass(client: Client, receiver: Receiver, times: TaskTimes, ghost packets: seq<seq<Byte>>, ghost k: nat)
    returns (arrival: Option<Arrival>, failed: bool, lost: bool, ghost env: Environment)
    requires Together(client, receiver) && client.connected && !receiver.transport.broken
    requires AllReceivable(packets, receiver.inBuffer.Length) && k < |packets| && receiver.AtPacket(packets, k)
    requires SafeAt(packets[k], receiver.readLen)
    modifies client, client.outbox, client.conn, client.conn.buffer, client.transport`sent, client.transport`refused
    modifies receiver, receiver.inBuffer, receiver.transport`incoming, receiver.transport`short, receiver.transport`broken
    ensures Together(client, receiver)
    ensures failed <==> receiver.transport.broken || (arrival.None? && old(receiver.readLen) > 0 && receiver.readLen == old(receiver.readLen))
    ensures (arrival.None? && !receiver.transport.broken) || lost ==> receiver.transport.short > old(receiver.transport.short)
    ensures receiver.transport.short >= old(receiver.transport.short)
    ensures client.Model() == Iterate(old(client.Model()), client.cfg, env)
    ensures PassOf(env, times, arrival.Some?, failed, receiver.transport.broken, packets[k])
    ensures arrival.Some? ==> ArrivalOf(arrival.value, packets[k], receiver.inBuffer.Length)
    ensures arrival.Some? && !failed && !lost ==> Delivers(arrival.value, packets[k])
    ensures !failed && !lost ==> receiver.AtPacket(packets, if arrival.Some? then k + 1 else k)
  {
    arrival, failed, lost := receiver.ReceiveRound(packets, k);
    if arrival.Some? {
      IdFits(arrival.value, packets[k], receiver.inBuffer.Length);
    }
    env := client.Iterate(false, InputOf(arrival, failed), times);
  }

  /** The same, counting what has arrived. */
  method PassMore(client: Client, receiver: Receiver, times: TaskTimes, ghost packets: seq<seq<Byte>>, arrivals: seq<Arrival>)
    returns (more: seq<Arrival>, failed: bool, lost: bool, ghost env: Environment)
    requires Together(client, receiver) && client.connected && !receiver.transport.broken
    requires AllReceivable(packets, receiver.inBuffer.Length) && |arrivals| < |packets| && receiver.AtPacket(packets, |arrivals|)
    requires SafeAt(packets[|arrivals|], receiver.readLen) && AllArrived(arrivals, packets, receiver.inBuffer.Length, |arrivals|)
    modifies client, client.outbox, client.conn, client.conn.buffer, client.transport`sent, client.transport`refused
    modifies receiver, receiver.inBuffer, receiver.transport`incoming, receiver.transport`short, receiver.transport`broken
    ensures Together(client, receiver)
    ensures failed <==> receiver.transport.broken ||
                        (|more| == |arrivals| && old(receiver.readLen) > 0 && receiver.readLen == old(receiver.readLen))
    ensures receiver.transport.short >= old(receiver.transport.short) +
                                        if (|more| == |arrivals| && !receiver.transport.broken) || lost then 1 else 0
    ensures client.Model() == Iterate(old(client.Model()), client.cfg, env)
    ensures PassOf(env, times, |more| > |arrivals|, failed, receiver.transport.broken, packets[|arrivals|])
    ensures AllArrived(more, packets, receiver.inBuffer.Length, if failed || lost then |more| - 1 else |more|)
    ensures |more| == if env.reception.Handled? then |arrivals| + 1 else |arrivals|
    ensures !failed && !lost ==> receiver.AtPacket(packets, |more|)
  {
    var arrival;
    arrival, failed, lost, env := Pass(client, receiver, times, packets, |arrivals|);
    more := if arrival.Some? then arrivals + [arrival.value] else arrivals;
    ArrivesOrNot(arrivals, packets, receiver.inBuffer.Length, arrival, !failed && !lost);
  }

  /** The run of these passes. */
  function Passes(envs: seq<Environment>): (ops: seq<Op>)
    ensures |ops| == |envs|
  {
    if envs == [] then [] else Passes(envs[..|envs| - 1]) + [Iterating(envs[|envs| - 1])]
  }

  /** The packets that these passes handled. */
  function Messages(envs: seq<Environment>): seq<Incoming> {
    if envs == [] then []
    else
      var last := envs[|envs| - 1];
      Messages(envs[..|envs| - 1]) + if last.reception.Handled? then [last.reception.msg] else []
  }

  function AllSeen(packets: seq<seq<Byte>>, k: nat): seq<Incoming>
    requires k <= |packets| && forall i :: 0 <= i < |packets| ==> WellFormed(packets[i])
  {
    if k == 0 then [] else AllSeen(packets, k - 1) + [Seen(packets[k - 1])]
  }

  lemma {:induction false} AllSeenExactly(packets: seq<seq<Byte>>, k: nat)
    requires k <= |packets| && forall i :: 0 <= i < |packets| ==> WellFormed(packets[i])
    ensures |AllSeen(packets, k)| == k
    ensures forall i :: 0 <= i < k ==>
              AllSeen(packets, k)[i] == Incoming(packets[i][0] / 16, packets[i][0] / 2 % 4, IdOf(packets[i], |packets[i]|))
  {
    if k > 0 {
      AllSeenExactly(packets, k - 1);
    }
  }

  lemma {:induction false} PassesExactly(envs: seq<Environment>)
    ensures forall i :: 0 <= i < |envs| ==> Passes(envs)[i] == Iterating(envs[i])
  {
    if envs != [] {
      PassesExactly(envs[..|envs| - 1]);
    }
  }

  lemma OneMorePass(s: State, cfg: Config, envs: seq<Environment>, env: Environment)
    requires Run(s, cfg, Passes(envs)).connected && Legal(s, cfg, Passes(envs))
    ensures Run(s, cfg, Passes(envs + [env])) == Iterate(Run(s, cfg, Passes(envs)), cfg, env)
    ensures Legal(s, cfg, Passes(envs + [env]))
    ensures Messages(envs + [env]) == Messages(envs) + if env.reception.Handled? then [env.reception.msg] else []
  {
    assert (envs + [env])[..|envs|] == envs;
    RunOneMore(s, cfg, Passes(envs), Iterating(env));
  }

  /** The passes are legal, at their times, and handled the first `count` packets. */
  ghost predicate Handles(s: State, cfg: Config, envs: seq<Environment>, clock: seq<TaskTimes>, packets: seq<seq<Byte>>, count: nat)
    requires count <= |packets| && forall i :: 0 <= i < |packets| ==> WellFormed(packets[i])
  {
    && Legal(s, cfg, Passes(envs))
    && |envs| <= |clock| && (forall i :: 0 <= i < |envs| ==> envs[i].times == clock[i])
    && Messages(envs) == AllSeen(packets, count)
  }

  lemma HandlesMore(s: State, cfg: Config, envs: seq<Environment>, clock: seq<TaskTimes>, packets: seq<seq<Byte>>, count: nat,
                    env: Environment)
    requires count < |packets| && forall i :: 0 <= i < |packets| ==> WellFormed(packets[i])
    requires Handles(s, cfg, envs, clock, packets, count) && Run(s, cfg, Passes(envs)).connected
    requires |envs| < |clock| && env.times == clock[|envs|]
    requires env.reception.Handled? ==> env.reception.msg == Seen(packets[count])
    ensures Handles(s, cfg, envs + [env], clock, packets, if env.reception.Handled? then count + 1 else count)
    ensures Run(s, cfg, Passes(envs + [env])) == Iterate(Run(s, cfg, Passes(envs)), cfg, env)
  {
    OneMorePass(s, cfg, envs, env);
  }

  /** The client is where the passes lead from `s`, and the receiver is at the packet after the arrivals. */
  ghost predicate Along(client: Client, receiver: Receiver, s: State, envs: seq<Environment>, clock: seq<TaskTimes>,
                        packets: seq<seq<Byte>>, count: nat)
    reads client, client.conn, client.outbox, receiver
  {
    && Together(client, receiver) && AllReceivable(packets, receiver.inBuffer.Length) && count <= |packets|
    && client.Model() == Run(s, client.cfg, Passes(envs))
    && Handles(s, client.cfg, envs, clock, packets, count)
  }

  /** The next pass of such a run. */
  method NextPass(client: Client, receiver: Receiver, times: TaskTimes, packets: seq<seq<Byte>>, arrivals: seq<Arrival>,
                  ghost s: State, ghost envs: seq<Environment>, ghost clock: seq<TaskTimes>)
    returns (more: seq<Arrival>, failed: bool, lost: bool, ghost env: Environment)
    requires Along(client, receiver, s, envs, clock, packets, |arrivals|) && receiver.AtPacket(packets, |arrivals|)
    requires AllArrived(arrivals, packets, receiver.inBuffer.Length, |arrivals|)
    requires client.connected && !receiver.transport.broken && |envs| < |clock| && clock[|envs|] == times && |arrivals| < |packets|
    requires SafeAt(packets[|arrivals|], receiver.readLen)
    modifies client, client.outbox, client.conn, client.conn.buffer, client.transport`sent, client.transport`refused
    modifies receiver, receiver.inBuffer, receiver.transport`incoming, receiver.transport`short, receiver.transport`broken
    ensures Along(client, receiver, s, envs + [env], clock, packets, |more|)
    ensures AllArrived(more, packets, receiver.inBuffer.Length, if lost || failed then |more| - 1 else |more|)
    ensures !failed && !lost ==> receiver.AtPacket(packets, |more|)
    ensures |arrivals| <= |more| <= |arrivals| + 1
    ensures PassOf(env, times, |more| > |arrivals|, failed, receiver.transport.broken, packets[|arrivals|])
    ensures failed <==> receiver.transport.broken ||
                        (|more| == |arrivals| && old(receiver.readLen) > 0 && receiver.readLen == old(receiver.readLen))
    ensures receiver.transport.short >= old(receiver.transport.short) +
                                        if (|more| == |arrivals| && !receiver.transport.broken) || lost then 1 else 0
  {
    more, failed, lost, env := PassMore(client, receiver, times, packets, arrivals);
    HandlesMore(s, client.cfg, envs, clock, packets, |arrivals|, env);
  }

  lemma SafeNext(packets: seq<seq<Byte>>, i: nat, capacity: nat, k: nat)
    requires AllReceivable(packets, capacity) && i < |packets| && k < Portion(packets[i], capacity)
    ensures (forall p :: p in packets ==> Immune(p)) ==> SafeAt(packets[i], k)
  {
    assert Receivable(packets[i], capacity);
    SafeIfImmune(packets, i, k);
  }

  ghost predicate NeverFails(envs: seq<Environment>) {
    forall e :: e in envs ==> !e.reception.Failure?
  }

  /** As many passes as there are clock readings, while the connection stands, or until all packets are in: the client ends
      where a legal run ends whose passes handle the packets of the stream, each once, in order and nothing else, however
      the transport cuts the stream up; and the events are those of the packets. All other passes are idle, and in each of
      these a read brought less than it asked for; the connection is given up for what was read only if the transport broke,
      or a pass in mid-packet brought nothing. */
  method RunTask(client: Client, receiver: Receiver, clock: seq<TaskTimes>, packets: seq<seq<Byte>>)
    returns (arrivals: seq<Arrival>, failed: bool, safe: bool, lost: bool, ghost envs: seq<Environment>)
    requires Together(client, receiver) && !receiver.transport.broken
    requires AllReceivable(packets, receiver.inBuffer.Length) && receiver.AtPacket(packets, 0)
    modifies client, client.outbox, client.conn, client.conn.buffer, client.transport`sent, client.transport`refused
    modifies receiver, receiver.inBuffer, receiver.transport`incoming, receiver.transport`short, receiver.transport`broken
    ensures Along(client, receiver, old(client.Model()), envs, clock, packets, |arrivals|)
    ensures AllArrived(arrivals, packets, receiver.inBuffer.Length, if lost || failed then |arrivals| - 1 else |arrivals|)
    ensures !lost && !failed ==> receiver.AtPacket(packets, |arrivals|)
    ensures !lost && !failed && safe ==> |envs| == |clock| || !client.connected || |arrivals| == |packets|
    ensures (forall p :: p in packets ==> Immune(p)) ==> safe
    ensures !failed ==> NeverFails(envs)
    ensures failed ==> receiver.transport.broken || (receiver.readLen > 0 && |arrivals| < |packets|)
    ensures |envs| <= |arrivals| + receiver.transport.short - old(receiver.transport.short) + if receiver.transport.broken then 1 else 0
    ensures lost || (failed && !receiver.transport.broken) ==> receiver.transport.short > old(receiver.transport.short)
  {
    arrivals, failed, safe, lost, envs := [], false, true, false, [];
    ghost var s := client.Model();
    for i := 0 to |clock|
      invariant Along(client, receiver, s, envs, clock, packets, |arrivals|) && receiver.AtPacket(packets, |arrivals|)
      invariant AllArrived(arrivals, packets, receiver.inBuffer.Length, |arrivals|)
      invariant !receiver.transport.broken && !failed && safe && !lost && |envs| == i
      invariant NeverFails(envs)
      invariant i <= |arrivals| + receiver.transport.short - old(receiver.transport.short)
      invariant receiver.transport.short >= old(receiver.transport.short)
    {
      if |arrivals| == |packets| || !client.connected {
        return;
      }
      SafeNext(packets, |arrivals|, receiver.inBuffer.Length, receiver.readLen);
      if !SafeAt(packets[|arrivals|], receiver.readLen) {
        safe := false;
        return;
      }
      ghost var env;
      arrivals, failed, lost, env := NextPass(client, receiver, clock[i], packets, arrivals, s, envs, clock);
      envs := envs + [env];
      if failed || lost {
        return;
      }
    }
  }
}
