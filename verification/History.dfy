/** How far each message has come, and the invariant that ties this to the outbox while stored ids are distinct. */
module History {
  import opened MqttMsg
  import opened Outbox
  import opened ClientModel
  import opened Ledger

  /** How far a message has come: queued, transmitted, acknowledged, removed. */
  ghost function Status(log: seq<Entry>, h: nat): (n: nat)
    ensures n <= 3
  {
    if Gone(log, h) then 3 else if Got(log, h) then 2 else if Sent(log, h) then 1 else 0
  }

  function Rank(p: Pending): nat {
    match p
    case Queued => 0
    case Transmitted => 1
    case Acknowledged => 2
    case Confirmed => 3
  }

  /** A first transmission made by the client task. */
  predicate FromQueue(origin: seq<Item>, e: Entry) {
    e.Wrote? && e.complete && e.queued && e.handle < |origin| && Reliable(origin[e.handle])
  }

  /** A PUBLISH is not written after its PUBREC, and first transmissions come in the order of their handles. */
  ghost predicate EntryInOrder(origin: seq<Item>, log: seq<Entry>, k: nat)
    requires k < |log|
  {
    var e := log[k];
    e.Wrote? ==>
      && e.handle < |origin|
      && (Reliable(origin[e.handle]) ==> !Got(log[..k], e.handle))
      && (FromQueue(origin, e) ==> forall j :: 0 <= j < k && FromQueue(origin, log[j]) ==> log[j].handle < e.handle)
  }

  ghost predicate AllInOrder(origin: seq<Item>, log: seq<Entry>) {
    forall k :: 0 <= k < |log| ==> EntryInOrder(origin, log, k)
  }

  /** Everything the task sent out of the queue so far was enqueued before `h`. */
  ghost predicate QueuedBehind(h: nat, origin: seq<Item>, log: seq<Entry>) {
    forall k :: 0 <= k < |log| && FromQueue(origin, log[k]) ==> log[k].handle < h
  }

  /** The state of a stored message agrees with what the log says about it. */
  ghost predicate InStep(x: Item, origin: seq<Item>, log: seq<Entry>) {
    x.handle < |origin| &&
    (Reliable(origin[x.handle]) ==>
       && Rank(x.pending) == Status(log, x.handle)
       && (x.pending == Queued ==> x.data == origin[x.handle].data && QueuedBehind(x.handle, origin, log)))
  }

  ghost predicate AllInStep(items: seq<Item>, origin: seq<Item>, log: seq<Entry>) {
    forall i :: 0 <= i < |items| ==> InStep(items[i], origin, log)
  }

  /** What enqueue may store: handles in order, PUBLISH packets with DUP clear, id zero exactly for QoS 0. */
  predicate OriginOk(origin: seq<Item>) {
    forall h :: 0 <= h < |origin| ==> OriginItemOk(origin[h], h)
  }

  predicate OriginItemOk(o: Item, h: nat) {
    && o.handle == h && o.pending == Queued
    && 0 <= o.msgType < 256
    && (o.msgType == PUBLISH ==> o.qos >= 0 && o.data != [] && GetType(o.data[0]) == PUBLISH && GetDup(o.data[0]) == 0)
    && (o.msgId == 0 <==> o.msgType == PUBLISH && o.qos == 0)
  }

  predicate DistinctIds(items: seq<Item>) {
    forall i, j :: 0 <= i < j < |items| && items[i].msgId != 0 ==> items[i].msgId != items[j].msgId
  }

  ghost predicate Inv(items: seq<Item>, origin: seq<Item>, log: seq<Entry>) {
    && Booked(items, origin, log)
    && DistinctIds(items)
    && OriginOk(origin)
    && AllInStep(items, origin, log)
    && AllInOrder(origin, log)
  }

  // ---------- the log grows ----------

  /** No message ever falls back. */
  lemma StatusRises(log: seq<Entry>, later: seq<Entry>, h: nat)
    requires log <= later
    ensures Status(log, h) <= Status(later, h)
  {
  }

  lemma OrderGrows(origin: seq<Item>, log: seq<Entry>, e: Entry)
    requires AllInOrder(origin, log) && EntryInOrder(origin, log + [e], |log|)
    ensures AllInOrder(origin, log + [e])
  {
    var longer := log + [e];
    forall k | 0 <= k < |longer|
      ensures EntryInOrder(origin, longer, k)
    {
      if k < |log| {
        assert EntryInOrder(origin, log, k);
        assert longer[..k] == log[..k];
      }
    }
  }

  /** An entry about another message leaves an item in step. */
  lemma ItemStays(x: Item, origin: seq<Item>, log: seq<Entry>, e: Entry)
    requires InStep(x, origin, log)
    requires e.Published? || e.handle != x.handle
    requires x.pending == Queued && FromQueue(origin, e) ==> e.handle < x.handle
    ensures InStep(x, origin, log + [e])
  {
    Appended(log, e, x.handle);
    var longer := log + [e];
    assert longer[|log|] == e && forall k :: 0 <= k < |log| ==> longer[k] == log[k];
  }

  // ---------- the steps on the outbox ----------

  /** Rewriting the i-th item together with an entry about it. */
  lemma ItemMoves(items: seq<Item>, origin: seq<Item>, log: seq<Entry>, i: nat, x: Item, e: Entry)
    requires Inv(items, origin, log) && i < |items|
    requires x.handle == items[i].handle && CopyOf(x, items[i])
    requires (e.Wrote? || e.Received?) && e.handle == x.handle
    requires EntryStands(origin, log + [e], |log|) && EntryInOrder(origin, log + [e], |log|) && InStep(x, origin, log + [e])
    requires FromQueue(origin, e) ==> forall j :: 0 <= j < i ==> items[j].pending != Queued
    ensures Inv(items[i := x], origin, log + [e])
  {
    var after := items[i := x];
    BookedRelabels(items, after, origin, log);
    BookedNotes(after, origin, log, e);
    OrderGrows(origin, log, e);
    forall j | 0 <= j < |after|
      ensures InStep(after[j], origin, log + [e])
    {
      if j != i {
        assert InStep(items[j], origin, log);
        HandlesDiffer(items, |origin|, i, j);
        ItemStays(items[j], origin, log, e);
      }
    }
  }

  /** Rewriting the i-th item without an entry: the state of a message that is not reliable. */
  lemma ItemChanges(items: seq<Item>, origin: seq<Item>, log: seq<Entry>, i: nat, x: Item)
    requires Inv(items, origin, log) && i < |items|
    requires x.handle == items[i].handle && CopyOf(x, items[i]) && InStep(x, origin, log)
    ensures Inv(items[i := x], origin, log)
  {
    BookedRelabels(items, items[i := x], origin, log);
  }

  /** Removing the i-th item together with the entry that says so. */
  lemma ItemLeaves(items: seq<Item>, origin: seq<Item>, log: seq<Entry>, i: nat, cause: Cause)
    requires Inv(items, origin, log) && i < |items|
    ensures Inv(Removed(items, i), origin, log + [Left(items[i].handle, cause)])
  {
    var after, e := Removed(items, i), Left(items[i].handle, cause);
    BookedLoses(items, origin, log, i, cause);
    OrderGrows(origin, log, e);
    forall j | 0 <= j < |after|
      ensures InStep(after[j], origin, log + [e])
    {
      var j' := if j < i then j else j + 1;
      assert InStep(items[j'], origin, log);
      HandlesDiffer(items, |origin|, i, j');
      ItemStays(items[j'], origin, log, e);
    }
    RemovedDistinct(items, i);
  }

  lemma RemovedDistinct(items: seq<Item>, i: nat)
    requires DistinctIds(items) && i < |items|
    ensures DistinctIds(Removed(items, i))
  {
  }

  /** A fresh message at the tail. */
  lemma ItemArrives(items: seq<Item>, origin: seq<Item>, log: seq<Entry>, o: Item)
    requires Inv(items, origin, log) && OriginItemOk(o, |origin|)
    requires o.msgId != 0 ==> forall j :: 0 <= j < |items| ==> items[j].msgId != o.msgId
    ensures Inv(items + [o], origin + [o], log)
  {
    var after, origin' := items + [o], origin + [o];
    BookedGains(items, origin, log, o);
    OrderWithMore(origin, o, log);
    NotYetLogged(origin, log, |origin|);
    forall j | 0 <= j < |after|
      ensures InStep(after[j], origin', log)
    {
      if j < |items| {
        assert InStep(items[j], origin, log);
        assert after[j] == items[j];
      }
    }
  }

  lemma OrderWithMore(origin: seq<Item>, o: Item, log: seq<Entry>)
    requires AllInOrder(origin, log) && AllStand(origin, log)
    ensures AllInOrder(origin + [o], log)
    ensures forall k :: 0 <= k < |log| ==> FromQueue(origin + [o], log[k]) == FromQueue(origin, log[k])
  {
    NotYetLogged(origin, log, |origin|);
    forall k | 0 <= k < |log|
      ensures FromQueue(origin + [o], log[k]) == FromQueue(origin, log[k])
    {
    }
    forall k | 0 <= k < |log|
      ensures EntryInOrder(origin + [o], log, k)
    {
      assert EntryInOrder(origin, log, k);
    }
  }
}
