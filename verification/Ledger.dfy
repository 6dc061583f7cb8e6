/** What the log of a client records about its outbox, whatever ids the messages have. */
module Ledger {
  import opened Bytes
  import opened MqttMsg
  import opened Outbox
  import opened ClientModel

  /** A PUBLISH whose delivery the client is responsible for. */
  predicate Reliable(o: Item) {
    o.msgType == PUBLISH && o.qos > 0
  }

  predicate IsSent(e: Entry, h: nat) { e.Wrote? && e.handle == h && e.complete }

  predicate IsLeft(e: Entry, h: nat) { e.Left? && e.handle == h }

  /** The message was written whole at least once. */
  ghost predicate Sent(log: seq<Entry>, h: nat) {
    exists k :: 0 <= k < |log| && IsSent(log[k], h)
  }

  /** Its PUBREC was processed. */
  ghost predicate Got(log: seq<Entry>, h: nat) {
    exists k :: 0 <= k < |log| && log[k] == Received(h)
  }

  /** It is no longer stored. */
  ghost predicate Gone(log: seq<Entry>, h: nat) {
    exists k :: 0 <= k < |log| && IsLeft(log[k], h)
  }

  predicate Live(items: seq<Item>, h: nat) {
    exists i :: 0 <= i < |items| && items[i].handle == h
  }

  /** A write of `data`: all of it and perhaps more, or the beginning of that. */
  predicate WroteOf(data: seq<Byte>, bytes: seq<Byte>, complete: bool) {
    data <= bytes || (!complete && bytes <= data)
  }

  /** What was written for a message is its packet, with or without DUP, as far as the write went. */
  predicate Carries(o: Item, bytes: seq<Byte>, complete: bool) {
    WroteOf(o.data, bytes, complete) || (Reliable(o) && WroteOf(WithDup(o.data), bytes, complete))
  }

  ghost predicate EntryStands(origin: seq<Item>, log: seq<Entry>, k: nat)
    requires k < |log|
  {
    match log[k]
    case Wrote(h, bytes, complete, _) => h < |origin| && !Gone(log[..k], h) && Carries(origin[h], bytes, complete)
    case Received(h) => h < |origin| && !Gone(log[..k], h)
    case Left(h, _) => h < |origin| && !Gone(log[..k], h)
    case Published(id) =>
      k > 0 && log[k - 1].Left? && log[k - 1].cause == Acked && log[k - 1].handle < |origin|
      && origin[log[k - 1].handle].msgId == id && origin[log[k - 1].handle].msgType == PUBLISH
  }

  ghost predicate AllStand(origin: seq<Item>, log: seq<Entry>) {
    forall k :: 0 <= k < |log| ==> EntryStands(origin, log, k)
  }

  /** The stored copy is the message as it was enqueued, but for DUP. */
  predicate CopyOf(x: Item, o: Item) {
    && x.msgId == o.msgId && x.msgType == o.msgType && x.qos == o.qos
    && (x.data == o.data || (Reliable(o) && x.data == WithDup(o.data)))
  }

  ghost predicate Stored(x: Item, origin: seq<Item>, log: seq<Entry>) {
    x.handle < |origin| && 0 <= x.msgType < 256 && CopyOf(x, origin[x.handle]) && !Gone(log, x.handle)
  }

  ghost predicate AllStored(items: seq<Item>, origin: seq<Item>, log: seq<Entry>) {
    forall i :: 0 <= i < |items| ==> Stored(items[i], origin, log)
  }

  /** Nothing is lost: what was enqueued is stored or has left. */
  ghost predicate Accounted(items: seq<Item>, origin: seq<Item>, log: seq<Entry>) {
    forall h :: 0 <= h < |origin| ==> Live(items, h) || Gone(log, h)
  }

  ghost predicate Booked(items: seq<Item>, origin: seq<Item>, log: seq<Entry>) {
    && SortedHandles(items, |origin|)
    && AllStored(items, origin, log)
    && AllStand(origin, log)
    && Accounted(items, origin, log)
  }

  // ---------- the log grows ----------

  lemma Appended(log: seq<Entry>, e: Entry, h: nat)
    ensures Sent(log + [e], h) <==> Sent(log, h) || IsSent(e, h)
    ensures Got(log + [e], h) <==> Got(log, h) || e == Received(h)
    ensures Gone(log + [e], h) <==> Gone(log, h) || IsLeft(e, h)
  {
    var longer := log + [e];
    assert longer[|log|] == e;
    assert forall k :: 0 <= k < |log| ==> longer[k] == log[k];
  }

  lemma StandGrows(origin: seq<Item>, log: seq<Entry>, e: Entry)
    requires AllStand(origin, log) && EntryStands(origin, log + [e], |log|)
    ensures AllStand(origin, log + [e])
  {
    var longer := log + [e];
    forall k | 0 <= k < |longer|
      ensures EntryStands(origin, longer, k)
    {
      if k < |log| {
        assert EntryStands(origin, log, k);
        assert longer[..k] == log[..k];
      }
    }
  }

  lemma AccountedGrows(items: seq<Item>, origin: seq<Item>, log: seq<Entry>, e: Entry)
    requires Accounted(items, origin, log)
    ensures Accounted(items, origin, log + [e])
  {
    forall h | 0 <= h < |origin|
      ensures Live(items, h) || Gone(log + [e], h)
    {
      Appended(log, e, h);
    }
  }

  /** Entries only speak of messages that were enqueued before. */
  lemma NotYetLogged(origin: seq<Item>, log: seq<Entry>, h: nat)
    requires AllStand(origin, log) && h >= |origin|
    ensures !Sent(log, h) && !Got(log, h) && !Gone(log, h)
    ensures forall k :: 0 <= k < |log| && !log[k].Published? ==> log[k].handle < |origin|
  {
    forall k | 0 <= k < |log|
      ensures log[k].Published? || log[k].handle < |origin|
    {
      assert EntryStands(origin, log, k);
    }
  }

  lemma StandWithMore(origin: seq<Item>, o: Item, log: seq<Entry>)
    requires AllStand(origin, log)
    ensures AllStand(origin + [o], log)
  {
    forall k | 0 <= k < |log|
      ensures EntryStands(origin + [o], log, k)
    {
      assert EntryStands(origin, log, k);
    }
  }

  // ---------- the steps on the outbox ----------

  lemma HandlesDiffer(items: seq<Item>, next: nat, i: nat, j: nat)
    requires SortedHandles(items, next) && i < |items| && j < |items| && i != j
    ensures items[i].handle != items[j].handle
  {
  }

  lemma DupTwice(data: seq<Byte>)
    ensures WithDup(WithDup(data)) == WithDup(data)
  {
  }

  /** The same messages with other states, other ticks, or DUP set. */
  predicate Relabelled(items: seq<Item>, after: seq<Item>) {
    && |after| == |items|
    && forall j :: 0 <= j < |items| ==> after[j].handle == items[j].handle && CopyOf(after[j], items[j])
  }

  lemma BookedRelabels(items: seq<Item>, after: seq<Item>, origin: seq<Item>, log: seq<Entry>)
    requires Booked(items, origin, log) && Relabelled(items, after)
    ensures Booked(after, origin, log)
  {
    forall j | 0 <= j < |after|
      ensures Stored(after[j], origin, log)
    {
      assert Stored(items[j], origin, log);
      DupTwice(origin[items[j].handle].data);
    }
    forall h | 0 <= h < |origin|
      ensures Live(after, h) || Gone(log, h)
    {
      if Live(items, h) {
        var i :| 0 <= i < |items| && items[i].handle == h;
        assert after[i].handle == h;
      }
    }
  }

  /** An entry that removes nothing. */
  lemma BookedNotes(items: seq<Item>, origin: seq<Item>, log: seq<Entry>, e: Entry)
    requires Booked(items, origin, log) && !e.Left? && EntryStands(origin, log + [e], |log|)
    ensures Booked(items, origin, log + [e])
  {
    StandGrows(origin, log, e);
    AccountedGrows(items, origin, log, e);
    forall j | 0 <= j < |items|
      ensures Stored(items[j], origin, log + [e])
    {
      assert Stored(items[j], origin, log);
      Appended(log, e, items[j].handle);
    }
  }

  /** Removing the i-th item together with the entry that says so. */
  lemma BookedLoses(items: seq<Item>, origin: seq<Item>, log: seq<Entry>, i: nat, cause: Cause)
    requires Booked(items, origin, log) && i < |items|
    ensures Booked(Removed(items, i), origin, log + [Left(items[i].handle, cause)])
  {
    var after, e := Removed(items, i), Left(items[i].handle, cause);
    assert Stored(items[i], origin, log);
    assert (log + [e])[..|log|] == log;
    StandGrows(origin, log, e);
    RemovedSorted(items, i, |origin|);
    forall j | 0 <= j < |after|
      ensures Stored(after[j], origin, log + [e])
    {
      var j' := if j < i then j else j + 1;
      assert Stored(items[j'], origin, log);
      HandlesDiffer(items, |origin|, i, j');
      Appended(log, e, items[j'].handle);
    }
    StillAccounted(items, origin, log, i, cause);
  }

  lemma StillAccounted(items: seq<Item>, origin: seq<Item>, log: seq<Entry>, i: nat, cause: Cause)
    requires Accounted(items, origin, log) && i < |items|
    ensures Accounted(Removed(items, i), origin, log + [Left(items[i].handle, cause)])
  {
    var after, e := Removed(items, i), Left(items[i].handle, cause);
    forall h | 0 <= h < |origin|
      ensures Live(after, h) || Gone(log + [e], h)
    {
      Appended(log, e, h);
      if Live(items, h) {
        var j :| 0 <= j < |items| && items[j].handle == h;
        if j != i {
          assert after[if j < i then j else j - 1].handle == h;
        }
      }
    }
  }

  /** A message at the tail. */
  lemma BookedGains(items: seq<Item>, origin: seq<Item>, log: seq<Entry>, o: Item)
    requires Booked(items, origin, log) && o.handle == |origin| && 0 <= o.msgType < 256
    ensures Booked(items + [o], origin + [o], log)
  {
    var after, origin' := items + [o], origin + [o];
    AppendSorted(items, o, |origin|);
    StandWithMore(origin, o, log);
    NotYetLogged(origin, log, |origin|);
    forall j | 0 <= j < |after|
      ensures Stored(after[j], origin', log)
    {
      if j < |items| {
        assert Stored(items[j], origin, log);
      }
    }
    forall h | 0 <= h < |origin'|
      ensures Live(after, h) || Gone(log, h)
    {
      if h == |origin| {
        assert after[|items|].handle == h;
      } else if Live(items, h) {
        var j :| 0 <= j < |items| && items[j].handle == h;
        assert after[j].handle == h;
      }
    }
  }
}
