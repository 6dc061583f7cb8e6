/** The queue of unacknowledged messages, lib/mqtt_outbox.c. */
module Outbox {
  import opened Bytes

  datatype Pending = Queued | Transmitted | Acknowledged | Confirmed

  /** outbox_item. `handle` stands for the item's address: the serial number of its allocation. */
  datatype Item = Item(handle: nat, msgId: int, msgType: int, qos: int, tick: int, pending: Pending, data: seq<Byte>)

  /** outbox_message: what enqueue copies, in two stretches. */
  datatype Message = Message(data: seq<Byte>, remaining: seq<Byte>, msgId: int, msgType: int, qos: int)

  // ---------- the queue as a sequence ----------

  function First(items: seq<Item>, p: Item -> bool): (i: nat)
    ensures i <= |items|
    ensures forall j :: 0 <= j < i ==> !p(items[j])
    ensures i < |items| ==> p(items[i])
  {
    if items == [] || p(items[0]) then 0 else 1 + First(items[1..], p)
  }

  function Removed(items: seq<Item>, i: nat): (r: seq<Item>)
    ensures i < |items| ==> |r| == |items| - 1
  {
    if i < |items| then items[..i] + items[i + 1..] else items
  }

  function Kept(items: seq<Item>, p: Item -> bool): seq<Item> {
    if items == [] then []
    else if p(items[0]) then Kept(items[1..], p)
    else [items[0]] + Kept(items[1..], p)
  }

  function HasId(id: int): Item -> bool { (x: Item) => x.msgId == id }

  function HasHandle(h: nat): Item -> bool { (x: Item) => x.handle == h }

  function HasIdAndType(id: int, typ: int): Item -> bool { (x: Item) => x.msgId == id && x.msgType % 256 == typ }

  function HasPending(s: Pending): Item -> bool { (x: Item) => x.pending == s }

  function Expired(now: int, timeout: int): Item -> bool { (x: Item) => now - x.tick > timeout }

  function WithPending(items: seq<Item>, id: int, s: Pending): (r: seq<Item>)
    ensures |r| == |items|
  {
    var i := First(items, HasId(id));
    if i < |items| then items[i := items[i].(pending := s)] else items
  }

  function WithTick(items: seq<Item>, id: int, tick: int): (r: seq<Item>)
    ensures |r| == |items|
  {
    var i := First(items, HasId(id));
    if i < |items| then items[i := items[i].(tick := tick)] else items
  }

  function TotalLength(items: seq<Item>): nat {
    if items == [] then 0 else |items[0].data| + TotalLength(items[1..])
  }

  // ---------- the queue ----------

  class Outbox {
    var items: seq<Item>
    var size: int
    var nextHandle: nat

    ghost predicate Valid()
      reads this
    {
      size == TotalLength(items)
    }

    constructor ()
      ensures Valid() && items == [] && nextHandle == 0
    {
      items, size, nextHandle := [], 0, 0;
    }

    /** outbox_enqueue: the item is the two stretches joined, not yet transmitted, at the tail. */
    method Enqueue(message: Message, tick: int) returns (handle: nat)
      requires Valid()
      modifies this
      ensures Valid() && handle == old(nextHandle) && nextHandle == handle + 1
      ensures items == old(items) +
                       [Item(handle, message.msgId, message.msgType, message.qos, tick, Queued, message.data + message.remaining)]
    {
      handle := nextHandle;
      var item := Item(handle, message.msgId, message.msgType, message.qos, tick, Queued, message.data + message.remaining);
      TotalLengthSplits(items, [item]);
      items := items + [item];
      size := size + |message.data| + |message.remaining|;
      nextHandle := nextHandle + 1;
    }

    /** The search loop of outbox_get and outbox_dequeue. */
    method Find(p: Item -> bool) returns (i: nat)
      ensures i == First(items, p)
    {
      i := 0;
      while i < |items| && !p(items[i])
        invariant i <= |items|
        invariant i + First(items[i..], p) == First(items, p)
      {
        i := i + 1;
      }
    }

    /** outbox_dequeue looks without removing. */
    method Dequeue(pending: Pending) returns (item: Option<Item>)
      ensures var i := First(items, HasPending(pending));
              item == if i < |items| then Some(items[i]) else None
    {
      var i := Find(HasPending(pending));
      return if i < |items| then Some(items[i]) else None;
    }

    /** Unlinks the i-th item and takes its length off the size. */
    method Unlink(i: nat)
      requires Valid() && i < |items|
      modifies this`items, this`size
      ensures Valid() && items == Removed(old(items), i)
    {
      TotalLengthSplits(items[..i], items[i..]);
      assert items == items[..i] + items[i..];
      size := size - |items[i].data|;
      TotalLengthSplits(items[..i], items[i + 1..]);
      items := items[..i] + items[i + 1..];
    }

    /** outbox_delete_item. */
    method DeleteItem(handle: nat) returns (ok: bool)
      requires Valid()
      modifies this`items, this`size
      ensures Valid() && items == Removed(old(items), First(old(items), HasHandle(handle)))
      ensures ok <==> exists x :: x in old(items) && x.handle == handle
    {
      var i := Find(HasHandle(handle));
      ok := i < |items|;
      if ok {
        assert items[i] in items;
        Unlink(i);
      }
    }

    /** outbox_delete. */
    method Delete(id: int, typ: int) returns (ok: bool)
      requires Valid()
      modifies this`items, this`size
      ensures Valid() && items == Removed(old(items), First(old(items), HasIdAndType(id, typ)))
      ensures ok <==> First(old(items), HasIdAndType(id, typ)) < |old(items)|
    {
      var i := Find(HasIdAndType(id, typ));
      ok := i < |items|;
      if ok {
        Unlink(i);
      }
    }

    /** outbox_set_pending. */
    method SetPending(id: int, pending: Pending) returns (ok: bool)
      requires Valid()
      modifies this`items
      ensures Valid() && items == WithPending(old(items), id, pending)
      ensures ok <==> First(old(items), HasId(id)) < |old(items)|
    {
      var i := Find(HasId(id));
      ok := i < |items|;
      if ok {
        UpdateKeepsLength(items, i, items[i].(pending := pending));
        items := items[i := items[i].(pending := pending)];
      }
    }

    /** outbox_set_tick. */
    method SetTick(id: int, tick: int) returns (ok: bool)
      requires Valid()
      modifies this`items
      ensures Valid() && items == WithTick(old(items), id, tick)
      ensures ok <==> First(old(items), HasId(id)) < |old(items)|
    {
      var i := Find(HasId(id));
      ok := i < |items|;
      if ok {
        UpdateKeepsLength(items, i, items[i].(tick := tick));
        items := items[i := items[i].(tick := tick)];
      }
    }

    /** mqtt_set_dup on an item's own buffer. */
    method ReplaceData(handle: nat, data: seq<Byte>)
      requires Valid()
      requires var i := First(items, HasHandle(handle)); i < |items| && |items[i].data| == |data|
      modifies this`items
      ensures Valid()
      ensures var i := First(old(items), HasHandle(handle)); items == old(items)[i := old(items)[i].(data := data)]
    {
      var i := Find(HasHandle(handle));
      UpdateKeepsLength(items, i, items[i].(data := data));
      items := items[i := items[i].(data := data)];
    }

    /** outbox_delete_single_expired: the id of the first expired item, or -1. */
    method DeleteSingleExpired(now: int, timeout: int) returns (msgId: int)
      requires Valid()
      modifies this`items, this`size
      ensures Valid()
      ensures var i := First(old(items), Expired(now, timeout));
              && items == Removed(old(items), i)
              && msgId == if i < |old(items)| then old(items)[i].msgId else -1
    {
      var i := Find(Expired(now, timeout));
      if i < |items| {
        msgId := items[i].msgId;
        Unlink(i);
      } else {
        msgId := -1;
      }
    }

    /** outbox_delete_expired: the loop goes on from the saved successor after each removal. */
    method DeleteExpired(now: int, timeout: int) returns (deleted: nat)
      requires Valid()
      modifies this`items, this`size
      ensures Valid()
      ensures items == Kept(old(items), Expired(now, timeout))
      ensures deleted == |old(items)| - |items|
    {
      var i := 0;
      deleted := 0;
      while i < |items|
        invariant Valid() && i <= |items|
        invariant deleted == |old(items)| - |items|
        invariant items[..i] + Kept(items[i..], Expired(now, timeout)) == Kept(old(items), Expired(now, timeout))
        decreases |items| - i
      {
        ghost var tail := items[i..];
        if Expired(now, timeout)(items[i]) {
          ghost var before := items;
          Unlink(i);
          deleted := deleted + 1;
          assert items[..i] == before[..i] && items[i..] == tail[1..];
        } else {
          assert tail[1..] == items[i + 1..] && items[..i + 1] == items[..i] + [tail[0]];
          i := i + 1;
        }
      }
      assert items[..i] == items;
    }

    /** outbox_delete_all_items. */
    method DeleteAllItems()
      requires Valid()
      modifies this`items, this`size
      ensures items == [] && size == 0
    {
      while items != []
        invariant Valid()
        decreases |items|
      {
        Unlink(0);
      }
    }

    /** mqtt_delete_expired_messages with MQTT_REPORT_DELETED_MESSAGES: one removal and one event at a time. */
    method DeleteExpiredReporting(now: int, timeout: int) returns (reported: seq<int>)
      requires Valid()
      modifies this`items, this`size
      ensures Valid() && items == OneAtATime(old(items), now, timeout).0
      ensures reported == OneAtATime(old(items), now, timeout).1
    {
      reported := [];
      var msgId := DeleteSingleExpired(now, timeout);
      while msgId > 0
        invariant Valid()
        invariant OneAtATime(old(items), now, timeout).0 == if msgId > 0 then OneAtATime(items, now, timeout).0 else items
        invariant OneAtATime(old(items), now, timeout).1 ==
                  reported + if msgId > 0 then [msgId] + OneAtATime(items, now, timeout).1 else []
        decreases |items|, msgId
      {
        reported := reported + [msgId];
        ghost var rest := OneAtATime(items, now, timeout).1;
        assert OneAtATime(old(items), now, timeout).1 == reported + rest;
        msgId := DeleteSingleExpired(now, timeout);
        assert rest == if msgId > 0 then [msgId] + OneAtATime(items, now, timeout).1 else [];
      }
    }
  }

  // ---------- order ----------

  /** Handles grow along the queue and are all below `next`. */
  predicate SortedHandles(items: seq<Item>, next: nat) {
    && (forall i :: 0 <= i < |items| ==> items[i].handle < next)
    && forall i, j :: 0 <= i < j < |items| ==> items[i].handle < items[j].handle
  }

  lemma UpdateSorted(items: seq<Item>, i: nat, item: Item, next: nat)
    requires SortedHandles(items, next) && i < |items| && item.handle == items[i].handle
    ensures SortedHandles(items[i := item], next)
  {
  }

  lemma WithPendingSorted(items: seq<Item>, id: int, pending: Pending, next: nat)
    requires SortedHandles(items, next)
    ensures SortedHandles(WithPending(items, id, pending), next)
  {
  }

  lemma WithTickSorted(items: seq<Item>, id: int, tick: int, next: nat)
    requires SortedHandles(items, next)
    ensures SortedHandles(WithTick(items, id, tick), next)
  {
  }

  lemma AppendSorted(items: seq<Item>, item: Item, next: nat)
    requires SortedHandles(items, next) && item.handle == next
    ensures SortedHandles(items + [item], next + 1)
  {
  }

  lemma RemovedSorted(items: seq<Item>, i: nat, next: nat)
    requires SortedHandles(items, next)
    ensures SortedHandles(Removed(items, i), next)
  {
  }

  lemma {:induction false} KeptMembers(items: seq<Item>, p: Item -> bool)
    ensures forall x :: x in Kept(items, p) ==> x in items && !p(x)
  {
    if items != [] {
      KeptMembers(items[1..], p);
    }
  }

  lemma TailSorted(items: seq<Item>, next: nat)
    requires SortedHandles(items, next) && items != []
    ensures SortedHandles(items[1..], next) && forall x :: x in items[1..] ==> items[0].handle < x.handle
  {
  }

  lemma HeadFirst(first: Item, rest: seq<Item>, next: nat)
    requires SortedHandles(rest, next) && first.handle < next && forall x :: x in rest ==> first.handle < x.handle
    ensures SortedHandles([first] + rest, next)
  {
  }

  lemma {:induction false} KeptKeepsHandles(items: seq<Item>, p: Item -> bool, next: nat)
    requires SortedHandles(items, next)
    ensures SortedHandles(Kept(items, p), next)
    ensures forall x :: x in Kept(items, p) ==> x in items && !p(x)
  {
    KeptMembers(items, p);
    if items != [] {
      TailSorted(items, next);
      KeptKeepsHandles(items[1..], p, next);
      HeadFirst(items[0], Kept(items[1..], p), next);
    }
  }

  lemma HandleFindsItem(items: seq<Item>, item: Item, next: nat)
    requires SortedHandles(items, next) && item in items
    ensures var i := First(items, HasHandle(item.handle)); i < |items| && items[i] == item
  {
  }

  /** Looking an item up by a property and then by its handle finds the same place. */
  lemma FirstHasHandle(items: seq<Item>, p: Item -> bool, next: nat)
    requires SortedHandles(items, next) && First(items, p) < |items|
    ensures First(items, HasHandle(items[First(items, p)].handle)) == First(items, p)
  {
  }

  // ---------- sizes ----------

  lemma {:induction false} TotalLengthSplits(a: seq<Item>, b: seq<Item>)
    ensures TotalLength(a + b) == TotalLength(a) + TotalLength(b)
  {
    if a == [] {
      assert a + b == b;
    } else {
      assert (a + b)[1..] == a[1..] + b;
      TotalLengthSplits(a[1..], b);
    }
  }

  lemma UpdateKeepsLength(items: seq<Item>, i: nat, item: Item)
    requires i < |items| && |item.data| == |items[i].data|
    ensures TotalLength(items[i := item]) == TotalLength(items)
  {
    assert items == items[..i] + ([items[i]] + items[i + 1..]);
    assert items[i := item] == items[..i] + ([item] + items[i + 1..]);
    TotalLengthSplits(items[..i], [items[i]] + items[i + 1..]);
    TotalLengthSplits(items[..i], [item] + items[i + 1..]);
    TotalLengthSplits([items[i]], items[i + 1..]);
    TotalLengthSplits([item], items[i + 1..]);
  }

  // ---------- one at a time and all at once ----------

  /** The queue and the reported ids once the reporting loop stops. It stops after removing an item whose
      id is not positive, without reporting it. */
  function OneAtATime(items: seq<Item>, now: int, timeout: int): (seq<Item>, seq<int>)
    decreases |items|
  {
    var i := First(items, Expired(now, timeout));
    if i == |items| then (items, [])
    else if items[i].msgId <= 0 then (Removed(items, i), [])
    else
      var rest := OneAtATime(Removed(items, i), now, timeout);
      (rest.0, [items[i].msgId] + rest.1)
  }

  function Ids(items: seq<Item>): seq<int> {
    if items == [] then [] else [items[0].msgId] + Ids(items[1..])
  }

  function Dropped(items: seq<Item>, p: Item -> bool): seq<Item> {
    if items == [] then []
    else if p(items[0]) then [items[0]] + Dropped(items[1..], p)
    else Dropped(items[1..], p)
  }

  lemma {:induction false} KeptAll(items: seq<Item>, p: Item -> bool)
    requires First(items, p) == |items|
    ensures Kept(items, p) == items && Dropped(items, p) == []
  {
    if items != [] {
      KeptAll(items[1..], p);
    }
  }

  lemma {:induction false} KeptOne(items: seq<Item>, p: Item -> bool, i: nat)
    requires i == First(items, p) < |items|
    ensures Kept(Removed(items, i), p) == Kept(items, p)
    ensures Dropped(items, p) == [items[i]] + Dropped(Removed(items, i), p)
  {
    if i == 0 {
      assert Removed(items, 0) == items[1..];
    } else {
      KeptOne(items[1..], p, i - 1);
      KeptHead(items[0], Removed(items[1..], i - 1), p);
      assert Removed(items, i) == [items[0]] + Removed(items[1..], i - 1);
    }
  }

  lemma KeptHead(first: Item, rest: seq<Item>, p: Item -> bool)
    requires !p(first)
    ensures Kept([first] + rest, p) == [first] + Kept(rest, p) && Dropped([first] + rest, p) == Dropped(rest, p)
  {
    assert ([first] + rest)[1..] == rest;
  }

  lemma KeptSkips(items: seq<Item>, p: Item -> bool)
    ensures var i := First(items, p);
            if i == |items| then Kept(items, p) == items && Dropped(items, p) == []
            else
              && Kept(Removed(items, i), p) == Kept(items, p)
              && Dropped(items, p) == [items[i]] + Dropped(Removed(items, i), p)
  {
    var i := First(items, p);
    if i == |items| {
      KeptAll(items, p);
    } else {
      KeptOne(items, p, i);
    }
  }

  /** With positive ids the reporting loop leaves what bulk expiry leaves and reports the removed ids in order. */
  lemma {:induction false} ReportingAgrees(items: seq<Item>, now: int, timeout: int)
    requires forall x :: x in items ==> x.msgId > 0
    ensures OneAtATime(items, now, timeout) == (Kept(items, Expired(now, timeout)), Ids(Dropped(items, Expired(now, timeout))))
    decreases |items|
  {
    var i := First(items, Expired(now, timeout));
    KeptSkips(items, Expired(now, timeout));
    if i < |items| {
      ReportingAgrees(Removed(items, i), now, timeout);
    }
  }

  /** In general it leaves the same queue exactly when no expired message with a non-positive id
      (a stored QoS 0 publish) stands before another expired one. */
  lemma {:induction false} ReportingAgreesExactly(items: seq<Item>, now: int, timeout: int)
    ensures var expired := Dropped(items, Expired(now, timeout));
            OneAtATime(items, now, timeout).0 == Kept(items, Expired(now, timeout)) <==>
            forall j :: 0 <= j < |expired| - 1 ==> expired[j].msgId > 0
    decreases |items|
  {
    var p := Expired(now, timeout);
    var i := First(items, p);
    KeptSkips(items, p);
    if i < |items| {
      var rest := Removed(items, i);
      var expired, later := Dropped(items, p), Dropped(rest, p);
      assert expired == [items[i]] + later;
      if items[i].msgId <= 0 {
        KeptCounts(rest, p);
        KeptSkips(rest, p);
        assert rest == Kept(rest, p) <==> later == [];
        assert expired[0] == items[i];
      } else {
        ReportingAgreesExactly(rest, now, timeout);
        PositiveButLast(items[i], later);
      }
    }
  }

  lemma PositiveButLast(first: Item, later: seq<Item>)
    requires first.msgId > 0
    ensures var all := [first] + later;
            (forall j :: 0 <= j < |all| - 1 ==> all[j].msgId > 0) <==> (forall j :: 0 <= j < |later| - 1 ==> later[j].msgId > 0)
  {
    var all := [first] + later;
    if forall j :: 0 <= j < |later| - 1 ==> later[j].msgId > 0 {
      assert forall j :: 0 < j < |all| - 1 ==> all[j] == later[j - 1];
    } else {
      var j :| 0 <= j < |later| - 1 && later[j].msgId <= 0;
      assert all[j + 1] == later[j];
    }
  }

  lemma {:induction false} KeptCounts(items: seq<Item>, p: Item -> bool)
    ensures |Kept(items, p)| + |Dropped(items, p)| == |items|
  {
    if items != [] {
      KeptCounts(items[1..], p);
    }
  }
}
