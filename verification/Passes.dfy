/** What a pass of the client task does to the stored messages and to the connection: who expires, who is written, who
    is written again, and when the connection ends. */
module Passes {
  import opened Bytes
  import opened MqttMsg
  import opened Outbox
  import opened ClientModel
  import opened Ledger
  import opened History
  import opened Runs
  import KeepaliveDeadline
  import Limits

  // ---------- expiry ----------

  lemma {:induction false} SplitByAge(items: seq<Item>, p: Item -> bool)
    ensures forall x :: x in Kept(items, p) <==> x in items && !p(x)
    ensures forall x :: x in Dropped(items, p) <==> x in items && p(x)
  {
    if items != [] {
      SplitByAge(items[1..], p);
      assert forall x :: x in items <==> x == items[0] || x in items[1..];
    }
  }

  lemma {:induction false} DepartureOf(gone: seq<Item>, e: Entry, cause: Cause)
    ensures e in Departures(gone, cause) <==> exists x :: x in gone && e == Left(x.handle, cause)
  {
    var r := Departures(gone, cause);
    if e in r {
      var k :| 0 <= k < |r| && r[k] == e;
      assert gone[k] in gone;
    }
    forall x | x in gone && e == Left(x.handle, cause)
      ensures e in r
    {
      var k :| 0 <= k < |gone| && gone[k] == x;
      assert r[k] == e;
    }
  }

  /** Exactly the messages older than thirty seconds leave, each with its entry in the log; the others stay in order. */
  lemma ExpiryExactly(s: State, now: int)
    requires SortedHandles(s.items, |s.origin|)
    ensures var t := Expire(s, now);
            && t == s.(items := t.items, log := t.log)
            && SortedHandles(t.items, |s.origin|)
            && (forall x :: x in t.items <==> x in s.items && now - x.tick <= 30_000)
            && s.log <= t.log && |t.log| - |s.log| == |s.items| - |t.items|
            && forall e :: e in t.log[|s.log|..] <==> exists x :: x in s.items && now - x.tick > 30_000 && e == Left(x.handle, TimedOut)
  {
    var p := Expired(now, EXPIRED_TIMEOUT_MS);
    var t, gone := Expire(s, now), Dropped(s.items, p);
    SplitByAge(s.items, p);
    KeptKeepsHandles(s.items, p, |s.origin|);
    KeptCounts(s.items, p);
    assert t.log[|s.log|..] == Departures(gone, TimedOut);
    forall e
      ensures e in t.log[|s.log|..] <==> exists x :: x in s.items && now - x.tick > 30_000 && e == Left(x.handle, TimedOut)
    {
      DepartureOf(gone, e, TimedOut);
    }
  }

  // ---------- one write ----------

  /** The packet with the DUP bit set. */
  predicate DupOf(again: seq<Byte>, data: seq<Byte>) {
    |again| == |data| && (data != [] ==> again[0] == (if data[0] / 8 % 2 == 1 then data[0] else data[0] + 8) && again[1..] == data[1..])
  }

  /** What the log says of a write. */
  function Writing(h: nat, bytes: seq<Byte>, n: nat, queued: bool): Entry {
    Wrote(h, if n >= |bytes| then bytes else bytes[..n], n >= |bytes|, queued)
  }

  lemma DupSet(data: seq<Byte>)
    ensures DupOf(WithDup(data), data)
  {
  }

  lemma SameItem(items: seq<Item>, i: nat, data: seq<Byte>, next: nat)
    requires SortedHandles(items, next) && i < |items|
    ensures var after := items[i := items[i].(data := data)];
            First(after, HasHandle(items[i].handle)) == i && Removed(after, i) == items[..i] + items[i + 1..]
  {
    var after := items[i := items[i].(data := data)];
    assert after[i].handle == items[i].handle && forall j :: 0 <= j < i ==> after[j].handle < items[i].handle;
    assert after[..i] == items[..i] && after[i + 1..] == items[i + 1..];
  }

  // ---------- quiet passes ----------

  /** A pass that receives nothing and in which no message expires. */
  predicate Quiet(s: State, env: Environment) {
    !env.disconnect && env.reception.Idle? && forall x :: x in s.items ==> env.times.expire - x.tick <= 30_000
  }

  /** The i-th message is the first in this state. */
  predicate FirstIn(items: seq<Item>, i: nat, pending: Pending) {
    i < |items| && items[i].pending == pending && forall j :: 0 <= j < i ==> items[j].pending != pending
  }

  /** The state with the time of the last retransmission set. */
  function Started(s: State, times: TaskTimes): State {
    if s.lastRetransmit == 0 then s.(lastRetransmit := times.start) else s
  }

  lemma QuietServes(s: State, cfg: Config, env: Environment)
    requires Quiet(s, env)
    ensures Iterate(s, cfg, env) == Maintain(Transmit(Started(s, env.times), cfg, env.times, env.written), cfg, env.times, env.pinged)
  {
    Limits.NothingExpires(Started(s, env.times), env.times.expire);
  }

  /** Times that do not run backwards, of a connection younger than 2^63 milliseconds, and no fragment total pending. */
  predicate InOrder(s: State, cfg: Config, times: TaskTimes) {
    && s.frag.total == 0
    && 0 <= times.keepalive - s.keepaliveTick < 0x8000_0000_0000_0000 && cfg.keepaliveMs < 0x8000_0000_0000_0000
    && 0 <= times.refresh - s.refreshTick < 0x8000_0000_0000_0000 && cfg.refreshMs < 0x8000_0000_0000_0000
  }

  predicate PingIsDue(s: State, cfg: Config, now: int) {
    cfg.keepaliveMs > 0 && !s.waitPing && now - s.keepaliveTick >= cfg.keepaliveMs / 2
  }

  predicate PingIsLost(s: State, cfg: Config, now: int) {
    cfg.keepaliveMs > 0 && s.waitPing && now - s.keepaliveTick >= cfg.keepaliveMs
  }

  predicate RefreshIsDue(s: State, cfg: Config, now: int) {
    cfg.refreshMs > 0 && now - s.refreshTick >= cfg.refreshMs
  }

  lemma PingBytes(s: State)
    requires s.frag.total == 0
    ensures Empty(s, PINGREQ) == [0xC0, 0]
  {
    EmptyBytes(s.frag, 0xC0);
    assert FirstByte(PINGREQ, 0, 0, 0) == 0xC0;
  }

  lemma EmptyBytes(f: Fragment, first: Byte)
    requires f.total == 0
    ensures Printed(f, first, []) == [first, 0]
  {
  }

  /** The end of a pass: after half a keepalive period the two bytes of a PINGREQ go out; if they do not go out whole, or
      if no PINGRESP came for a whole period, or if the connection is as old as the refresh time, it ends, and otherwise
      it stands. */
  lemma MaintenanceExactly(s: State, cfg: Config, times: TaskTimes, n: nat)
    requires InOrder(s, cfg, times)
    ensures var t := Maintain(s, cfg, times, n);
            var due := PingIsDue(s, cfg, times.keepalive);
            var ends := (due && n < 2) || PingIsLost(s, cfg, times.keepalive) || RefreshIsDue(s, cfg, times.refresh);
            t == s.(connected := s.connected && !ends, waitPing := (s.waitPing || due) && !ends,
                    frag := if due then AfterPrinting(s.frag, 0) else s.frag)
  {
    PingBytes(s);
    KeepaliveDeadline.HasTimedOutMeansElapsed(s.keepaliveTick, cfg.keepaliveMs / 2, times.keepalive);
    KeepaliveDeadline.HasTimedOutMeansElapsed(s.keepaliveTick, cfg.keepaliveMs, times.keepalive);
    KeepaliveDeadline.HasTimedOutMeansElapsed(s.refreshTick, cfg.refreshMs, times.refresh);
  }

  /** process_keepalive succeeds unless a ping that is due does not go out whole, or is lost. */
  lemma KeepaliveSucceeds(s: State, cfg: Config, times: TaskTimes, n: nat)
    requires InOrder(s, cfg, times)
    ensures Keepalive(s, cfg, times.keepalive, n).1 <==>
            !(PingIsDue(s, cfg, times.keepalive) && n < 2) && !PingIsLost(s, cfg, times.keepalive)
  {
    PingBytes(s);
    KeepaliveDeadline.HasTimedOutMeansElapsed(s.keepaliveTick, cfg.keepaliveMs / 2, times.keepalive);
    KeepaliveDeadline.HasTimedOutMeansElapsed(s.keepaliveTick, cfg.keepaliveMs, times.keepalive);
  }

  /** Does the connection outlive the end of the pass? */
  predicate Outlives(s: State, cfg: Config, env: Environment) {
    && !(PingIsDue(s, cfg, env.times.keepalive) && env.pinged < 2)
    && !PingIsLost(s, cfg, env.times.keepalive)
    && !RefreshIsDue(s, cfg, env.times.refresh)
  }

  /** A pass that receives nothing is a quiet one after the expiry. */
  lemma PassExpires(s: State, cfg: Config, env: Environment)
    requires !env.disconnect && env.reception.Idle?
    ensures var kept := Expire(Started(s, env.times), env.times.expire);
            Iterate(s, cfg, env) == Iterate(kept, cfg, env) && Quiet(kept, env)
  {
    var kept := Expire(Started(s, env.times), env.times.expire);
    SplitByAge(s.items, Expired(env.times.expire, EXPIRED_TIMEOUT_MS));
    QuietServes(kept, cfg, env);
  }

  lemma ResendKeepsClocks(s: State, i: nat, n: nat, queued: bool)
    requires i < |s.items|
    ensures ClocksKept(s, Resend(s, i, n, queued))
  {
  }

  predicate ClocksKept(s: State, t: State) {
    && t.frag == s.frag && t.keepaliveTick == s.keepaliveTick && t.refreshTick == s.refreshTick
    && t.origin == s.origin && t.lastId == s.lastId
    && (t.connected ==> s.connected && t.waitPing == s.waitPing)
  }

  lemma TransmitKeepsClocks(s: State, cfg: Config, times: TaskTimes, n: nat)
    ensures ClocksKept(s, Transmit(s, cfg, times, n))
  {
    var i := First(s.items, HasPending(Queued));
    if i < |s.items| {
      ResendKeepsClocks(s, i, n, true);
    } else {
      var t := s.(lastRetransmit := times.transmit);
      var j := First(t.items, HasPending(Transmitted));
      if j < |t.items| {
        ResendKeepsClocks(t, j, n, false);
      }
    }
  }

  /** What no idle pass touches, but for a ping. */
  predicate RestStays(s: State, t: State, cfg: Config, env: Environment) {
    && t.origin == s.origin && t.lastId == s.lastId && t.keepaliveTick == s.keepaliveTick && t.refreshTick == s.refreshTick
    && (t.connected ==> t.waitPing == (s.waitPing || PingIsDue(s, cfg, env.times.keepalive)))
  }

  /** A quiet pass: what was transmitted, and then the end of the pass. */
  lemma QuietPass(s: State, cfg: Config, env: Environment)
    requires Quiet(s, env) && InOrder(s, cfg, env.times)
    ensures var u := Transmit(Started(s, env.times), cfg, env.times, env.written);
            var t := Iterate(s, cfg, env);
            && t.items == u.items && t.log == u.log && t.lastRetransmit == u.lastRetransmit && t.pendingQos == u.pendingQos
            && (t.connected <==> u.connected && Outlives(s, cfg, env)) && RestStays(s, t, cfg, env)
  {
    QuietServes(s, cfg, env);
    TransmitKeepsClocks(Started(s, env.times), cfg, env.times, env.written);
    MaintenanceExactly(Transmit(Started(s, env.times), cfg, env.times, env.written), cfg, env.times, env.pinged);
  }

  // ---------- what goes out ----------

  /** A QoS 0 publish. */
  predicate Unreliable(x: Item) { x.msgType == PUBLISH && x.qos == 0 }

  /** The first QUEUED message goes out as it was stored. If it goes out whole it becomes TRANSMITTED; if not, it stays
      QUEUED and the connection ends. Nothing else changes. */
  lemma QueuedGoesOut(s: State, cfg: Config, env: Environment, i: nat)
    requires Good(s) && s.connected && Quiet(s, env) && InOrder(s, cfg, env.times)
    requires FirstIn(s.items, i, Queued) && !Unreliable(s.items[i])
    ensures var x := s.items[i];
            var whole := env.written >= |x.data|;
            var t := Iterate(s, cfg, env);
            && t.log == s.log + [Writing(x.handle, x.data, env.written, true)]
            && t.items == (if whole then s.items[i := x.(pending := Transmitted)] else s.items)
            && t.lastRetransmit == Started(s, env.times).lastRetransmit && t.pendingQos == x.qos
            && (t.connected <==> whole && Outlives(s, cfg, env))
  {
    QuietPass(s, cfg, env);
    QueuedWritten(Started(s, env.times), i, env.written);
    TransmitsFirst(Started(s, env.times), cfg, env.times, i, env.written);
  }

  lemma TransmitsFirst(s: State, cfg: Config, times: TaskTimes, i: nat, n: nat)
    requires FirstIn(s.items, i, Queued)
    ensures Transmit(s, cfg, times, n) == TransmitQueued(s, i, n)
  {
    assert First(s.items, HasPending(Queued)) == i;
  }

  lemma QueuedWritten(s: State, i: nat, n: nat)
    requires Good(s) && i < |s.items| && s.items[i].pending == Queued && !Unreliable(s.items[i])
    ensures var x := s.items[i];
            var whole := n >= |x.data|;
            TransmitQueued(s, i, n) ==
            s.(items := if whole then s.items[i := x.(pending := Transmitted)] else s.items,
               log := s.log + [Writing(x.handle, x.data, n, true)], pendingQos := x.qos,
               connected := s.connected && whole, waitPing := s.waitPing && whole)
  {
    var x := s.items[i];
    assert s.items[i := x.(data := x.data)] == s.items;
    IdOfReliable(s, i);
    FindsById(s.items, i);
  }

  lemma IdOfReliable(s: State, i: nat)
    requires Good(s) && i < |s.items| && !Unreliable(s.items[i])
    ensures s.items[i].msgId != 0
  {
    var x := s.items[i];
    assert Stored(x, s.origin, s.log) && OriginItemOk(s.origin[x.handle], x.handle);
  }

  /** A QoS 0 publish leaves with its write. What was enqueued with id zero, too, and comes first among the rest is then
      TRANSMITTED; nothing else changes. */
  lemma UnreliableGoesOut(s: State, cfg: Config, env: Environment, i: nat)
    requires Good(s) && s.connected && Quiet(s, env) && InOrder(s, cfg, env.times)
    requires FirstIn(s.items, i, Queued) && Unreliable(s.items[i])
    ensures var x, rest := s.items[i], s.items[..i] + s.items[i + 1..];
            var whole := env.written >= |x.data|;
            var t := Iterate(s, cfg, env);
            && t.log == s.log + [Writing(x.handle, x.data, env.written, true)] + (if whole then [Left(x.handle, SentOnce)] else [])
            && (t.connected <==> whole && Outlives(s, cfg, env))
            && if whole then |t.items| == |rest| && forall k :: 0 <= k < |rest| ==> t.items[k] == MarkedAt(rest, k) else t.items == s.items
  {
    QuietPass(s, cfg, env);
    UnreliableWritten(Started(s, env.times), i, env.written);
    TransmitsFirst(Started(s, env.times), cfg, env.times, i, env.written);
  }

  /** The k-th message, TRANSMITTED if it is the first with id zero. */
  function MarkedAt(items: seq<Item>, k: nat): Item
    requires k < |items|
  {
    if items[k].msgId == 0 && forall j :: 0 <= j < k ==> items[j].msgId != 0 then items[k].(pending := Transmitted) else items[k]
  }

  lemma MarkedThere(items: seq<Item>)
    ensures forall k :: 0 <= k < |items| ==> WithPending(items, 0, Transmitted)[k] == MarkedAt(items, k)
  {
  }

  lemma UnreliableWritten(s: State, i: nat, n: nat)
    requires Good(s) && i < |s.items| && s.items[i].pending == Queued && Unreliable(s.items[i])
    ensures var x, rest := s.items[i], s.items[..i] + s.items[i + 1..];
            var whole := n >= |x.data|;
            var t := TransmitQueued(s, i, n);
            && t == s.(items := t.items, log := t.log, pendingQos := 0, connected := s.connected && whole, waitPing := s.waitPing && whole)
            && t.log == s.log + [Writing(x.handle, x.data, n, true)] + (if whole then [Left(x.handle, SentOnce)] else [])
            && if whole then |t.items| == |rest| && forall k :: 0 <= k < |rest| ==> t.items[k] == MarkedAt(rest, k) else t.items == s.items
  {
    var x, rest := s.items[i], s.items[..i] + s.items[i + 1..];
    assert s.items[i := x.(data := x.data)] == s.items;
    SameItem(s.items, i, x.data, |s.origin|);
    MarkedThere(rest);
    IdOfUnreliable(s, i);
  }

  lemma QosOfReliable(s: State, i: nat)
    requires Good(s) && i < |s.items| && !Unreliable(s.items[i])
    ensures s.items[i].msgType == PUBLISH ==> s.items[i].qos > 0
  {
    var x := s.items[i];
    assert Stored(x, s.origin, s.log) && OriginItemOk(s.origin[x.handle], x.handle);
  }

  lemma IdOfUnreliable(s: State, i: nat)
    requires Good(s) && i < |s.items| && Unreliable(s.items[i])
    ensures s.items[i].msgId == 0
  {
    var x := s.items[i];
    assert Stored(x, s.origin, s.log) && OriginItemOk(s.origin[x.handle], x.handle);
  }

  // ---------- what goes out again ----------

  /** When the first TRANSMITTED message is written again: at least `retransmitMs` after the last retransmission and more
      than that after its own tick. */
  predicate IsDueAgain(s: State, cfg: Config, times: TaskTimes, x: Item) {
    var last := if s.lastRetransmit == 0 then times.start else s.lastRetransmit;
    times.check - last >= cfg.retransmitMs && times.transmit - x.tick > cfg.retransmitMs
  }

  /** What then counts as the time of the last retransmission. */
  function NextRetransmit(s: State, cfg: Config, times: TaskTimes): int {
    var last := if s.lastRetransmit == 0 then times.start else s.lastRetransmit;
    if times.check - last >= cfg.retransmitMs then times.transmit else last
  }

  predicate RetransmissionInOrder(s: State, cfg: Config, times: TaskTimes) {
    var last := if s.lastRetransmit == 0 then times.start else s.lastRetransmit;
    && 0 <= times.check - last < 0x8000_0000_0000_0000 && cfg.retransmitMs < 0x8000_0000_0000_0000
    && forall x :: x in s.items ==> 0 <= times.transmit - x.tick < 0x1_0000_0000_0000_0000
  }

  /** With nothing QUEUED a pass writes the first TRANSMITTED message again exactly if both times have run out: a PUBLISH
      with DUP, as far as it goes. The connection ends if it does not go out whole. Nothing else changes. */
  lemma TransmittedGoesOutAgain(s: State, cfg: Config, env: Environment, i: nat)
    requires Good(s) && s.connected && Quiet(s, env) && InOrder(s, cfg, env.times) && RetransmissionInOrder(s, cfg, env.times)
    requires (forall x :: x in s.items ==> x.pending != Queued) && FirstIn(s.items, i, Transmitted) && !Unreliable(s.items[i])
    ensures var x := s.items[i];
            var t := Iterate(s, cfg, env);
            t.lastRetransmit == NextRetransmit(s, cfg, env.times) &&
            if IsDueAgain(s, cfg, env.times, x) then
              && |t.items| == |s.items|
              && var again := t.items[i].data;
              && (if x.msgType == PUBLISH then DupOf(again, x.data) else again == x.data)
              && t.items == s.items[i := x.(data := again)]
              && t.log == s.log + [Writing(x.handle, again, env.written, false)] && t.pendingQos == x.qos
              && (t.connected <==> env.written >= |x.data| && Outlives(s, cfg, env))
            else
              t.items == s.items && t.log == s.log && (t.connected <==> Outlives(s, cfg, env))
  {
    QuietPass(s, cfg, env);
    QosOfReliable(s, i);
    AgainOrNot(Started(s, env.times), cfg, env.times, i, env.written);
  }

  /** Of what Transmit does with nothing QUEUED, the two comparisons decide. */
  lemma Decides(s: State, cfg: Config, times: TaskTimes, i: nat, n: nat)
    requires RetransmissionInOrder(s, cfg, times) && s.lastRetransmit == Started(s, times).lastRetransmit
    requires (forall x :: x in s.items ==> x.pending != Queued) && FirstIn(s.items, i, Transmitted)
    ensures var t := s.(lastRetransmit := times.transmit);
            Transmit(s, cfg, times, n) ==
            if IsDueAgain(s, cfg, times, s.items[i]) then Resend(t, i, n, false)
            else s.(lastRetransmit := NextRetransmit(s, cfg, times))
  {
    assert First(s.items, HasPending(Queued)) == |s.items|;
    KeepaliveDeadline.HasTimedOutMeansElapsed(s.lastRetransmit, cfg.retransmitMs, times.check);
    assert s.items[i] in s.items;
    OldEnough(s, cfg, times.transmit, i, n);
  }

  lemma OldEnough(s: State, cfg: Config, now: int, i: nat, n: nat)
    requires FirstIn(s.items, i, Transmitted) && 0 <= now - s.items[i].tick < 0x1_0000_0000_0000_0000
    ensures var t := s.(lastRetransmit := now);
            Retransmit(s, cfg, now, n) == if now - s.items[i].tick > cfg.retransmitMs then Resend(t, i, n, false) else t
  {
    assert First(s.items, HasPending(Transmitted)) == i;
  }

  lemma AgainOrNot(s: State, cfg: Config, times: TaskTimes, i: nat, n: nat)
    requires RetransmissionInOrder(s, cfg, times) && s.lastRetransmit == Started(s, times).lastRetransmit
    requires (forall x :: x in s.items ==> x.pending != Queued) && FirstIn(s.items, i, Transmitted)
    requires s.items[i].msgType == PUBLISH ==> s.items[i].qos > 0
    ensures var t := Transmit(s, cfg, times, n);
            && t.lastRetransmit == NextRetransmit(s, cfg, times)
            && if IsDueAgain(s, cfg, times, s.items[i]) then WrittenAgain(s, t, i, n)
               else t.items == s.items && t.log == s.log && t.connected == s.connected
  {
    Decides(s, cfg, times, i, n);
    WritesAgain(s.(lastRetransmit := times.transmit), i, n);
  }

  /** A QoS 0 publish that was marked TRANSMITTED unsent goes out at the same moment, but as it was stored, and leaves. */
  lemma UnreliableGoesOutAgain(s: State, cfg: Config, env: Environment, i: nat)
    requires Good(s) && s.connected && Quiet(s, env) && InOrder(s, cfg, env.times) && RetransmissionInOrder(s, cfg, env.times)
    requires (forall x :: x in s.items ==> x.pending != Queued) && FirstIn(s.items, i, Transmitted) && Unreliable(s.items[i])
    ensures var x, t := s.items[i], Iterate(s, cfg, env);
            var whole := env.written >= |x.data|;
            if IsDueAgain(s, cfg, env.times, x) then
              && t.items == (if whole then s.items[..i] + s.items[i + 1..] else s.items)
              && t.log == s.log + [Writing(x.handle, x.data, env.written, false)] + (if whole then [Left(x.handle, SentOnce)] else [])
              && (t.connected <==> whole && Outlives(s, cfg, env))
            else
              t.items == s.items && t.log == s.log && (t.connected <==> Outlives(s, cfg, env))
  {
    QuietPass(s, cfg, env);
    LeavesOrNot(Started(s, env.times), cfg, env.times, i, env.written);
  }

  lemma LeavesOrNot(s: State, cfg: Config, times: TaskTimes, i: nat, n: nat)
    requires RetransmissionInOrder(s, cfg, times) && s.lastRetransmit == Started(s, times).lastRetransmit
    requires SortedHandles(s.items, |s.origin|)
    requires (forall x :: x in s.items ==> x.pending != Queued) && FirstIn(s.items, i, Transmitted) && Unreliable(s.items[i])
    ensures var t := Transmit(s, cfg, times, n);
            if IsDueAgain(s, cfg, times, s.items[i]) then t == Resend(s.(lastRetransmit := times.transmit), i, n, false)
            else t.items == s.items && t.log == s.log && t.connected == s.connected
    ensures LeftAgain(s, Resend(s.(lastRetransmit := times.transmit), i, n, false), i, n)
  {
    Decides(s, cfg, times, i, n);
    LeavesAgain(s.(lastRetransmit := times.transmit), i, n);
  }

  /** The i-th message was written again, and has left if that went out whole. */
  predicate LeftAgain(s: State, t: State, i: nat, n: nat)
    requires i < |s.items|
  {
    var x := s.items[i];
    var whole := n >= |x.data|;
    && t.items == (if whole then s.items[..i] + s.items[i + 1..] else s.items)
    && t.log == s.log + [Writing(x.handle, x.data, n, false)] + (if whole then [Left(x.handle, SentOnce)] else [])
    && t.connected == (s.connected && whole)
  }

  lemma LeavesAgain(s: State, i: nat, n: nat)
    requires SortedHandles(s.items, |s.origin|) && i < |s.items| && Unreliable(s.items[i])
    ensures LeftAgain(s, Resend(s, i, n, false), i, n)
  {
    var x := s.items[i];
    assert s.items[i := x.(data := x.data)] == s.items;
    SameItem(s.items, i, x.data, |s.origin|);
  }

  /** With nothing QUEUED and nothing TRANSMITTED a pass writes nothing, and what is stored stays. */
  lemma NothingGoesOut(s: State, cfg: Config, env: Environment)
    requires Quiet(s, env) && InOrder(s, cfg, env.times) && RetransmissionInOrder(s, cfg, env.times)
    requires forall x :: x in s.items ==> x.pending != Queued && x.pending != Transmitted
    ensures var t := Iterate(s, cfg, env);
            && t.items == s.items && t.log == s.log && (t.connected <==> s.connected && Outlives(s, cfg, env))
            && t.lastRetransmit == NextRetransmit(s, cfg, env.times)
  {
    QuietPass(s, cfg, env);
    var u := Started(s, env.times);
    KeepaliveDeadline.HasTimedOutMeansElapsed(u.lastRetransmit, cfg.retransmitMs, env.times.check);
    assert First(u.items, HasPending(Transmitted)) == |u.items| && First(u.items, HasPending(Queued)) == |u.items|;
  }

  /** The i-th message was written again. */
  predicate WrittenAgain(s: State, t: State, i: nat, n: nat)
    requires i < |s.items|
  {
    var x := s.items[i];
    && |t.items| == |s.items|
    && var again := t.items[i].data;
    && (if x.msgType == PUBLISH then DupOf(again, x.data) else again == x.data)
    && t.items == s.items[i := x.(data := again)]
    && t.log == s.log + [Writing(x.handle, again, n, false)] && t.pendingQos == x.qos
    && (t.connected <==> s.connected && n >= |x.data|)
  }

  lemma WritesAgain(s: State, i: nat, n: nat)
    requires i < |s.items| && s.items[i].pending == Transmitted && (s.items[i].msgType == PUBLISH ==> s.items[i].qos > 0)
    ensures WrittenAgain(s, Resend(s, i, n, false), i, n)
  {
    DupSet(s.items[i].data);
  }

  // ---------- whatever is stored ----------

  /** All writes after `from` went out whole. */
  predicate AllWhole(log: seq<Entry>, from: nat) {
    forall k :: from <= k < |log| && log[k].Wrote? ==> log[k].complete
  }

  /** Writing ends the connection exactly if it breaks off. */
  predicate EndsIfCut(s: State, t: State) {
    s.log <= t.log && (t.connected <==> s.connected && AllWhole(t.log, |s.log|))
  }

  lemma ResendEndsIfCut(s: State, i: nat, n: nat, queued: bool)
    requires i < |s.items|
    ensures EndsIfCut(s, Resend(s, i, n, queued))
  {
    var t, data := Resend(s, i, n, queued), ResendData(s.items[i]);
    assert t.log[|s.log|] == Writing(s.items[i].handle, data, n, queued);
  }

  lemma TransmitEndsIfCut(s: State, cfg: Config, times: TaskTimes, n: nat)
    ensures EndsIfCut(s, Transmit(s, cfg, times, n))
  {
    var i := First(s.items, HasPending(Queued));
    if i < |s.items| {
      ResendEndsIfCut(s, i, n, true);
    } else {
      var t := s.(lastRetransmit := times.transmit);
      var j := First(t.items, HasPending(Transmitted));
      if j < |t.items| {
        ResendEndsIfCut(t, j, n, false);
      }
    }
  }

  /** A pass that receives nothing keeps the connection, whatever is stored, exactly if what it writes goes out whole and
      neither keepalive nor refresh ends it. */
  lemma IdlePassStands(s: State, cfg: Config, env: Environment)
    requires !env.disconnect && env.reception.Idle? && InOrder(s, cfg, env.times)
    ensures var t := Iterate(s, cfg, env);
            && s.log <= t.log && (t.connected <==> s.connected && AllWhole(t.log, |s.log|) && Outlives(s, cfg, env))
            && RestStays(s, t, cfg, env)
  {
    var kept := Expire(Started(s, env.times), env.times.expire);
    PassExpires(s, cfg, env);
    QuietPass(kept, cfg, env);
    TransmitEndsIfCut(Started(kept, env.times), cfg, env.times, env.written);
  }
}
