// The queue of stale units waiting for a build worker: a heap keyed by negative size, then by
// order of submission.
module WorkerQueue {
  import opened SccTable

  datatype QueueItem = QueueItem(sizeKey: int, order: nat, scc: SccId)

  /** Tuple order on (key, order). With distinct order numbers the third component is never compared. */
  predicate Before(a: QueueItem, b: QueueItem) {
    a.sizeKey < b.sizeKey || (a.sizeKey == b.sizeKey && a.order < b.order)
  }

  /** Strictly ascending in the order of Before, so that no two items tie on key and order. */
  ghost predicate InHeapOrder(items: seq<QueueItem>) {
    forall i, j | 0 <= i < j < |items| :: Before(items[i], items[j])
  }

  ghost predicate OrdersDistinct(items: seq<QueueItem>) {
    forall i, j | 0 <= i < j < |items| :: items[i].order != items[j].order
  }

  /** The item for a unit: the heap puts larger units first. */
  function ItemOf(id: SccId, sizeHint: nat, order: nat): QueueItem {
    QueueItem(0 - sizeHint, order, id)
  }

  function TotalSize(items: seq<QueueItem>): int {
    if items == [] then 0 else -items[0].sizeKey + TotalSize(items[1..])
  }

  lemma {:induction false} TotalSizeAppend(a: seq<QueueItem>, b: seq<QueueItem>)
    ensures TotalSize(a + b) == TotalSize(a) + TotalSize(b)
  {
    if a == [] {
      assert a + b == b;
    } else {
      assert (a + b)[1..] == a[1..] + b;
      TotalSizeAppend(a[1..], b);
    }
  }

  /** heappush, with the heap's contents kept in the order in which they would be popped. */
  function Insert(items: seq<QueueItem>, x: QueueItem): (r: seq<QueueItem>)
    ensures |r| == |items| + 1
    ensures forall y :: y in r <==> y == x || y in items
  {
    if items == [] || Before(x, items[0]) then [x] + items
    else [items[0]] + Insert(items[1..], x)
  }

  lemma {:induction false} InsertInOrder(items: seq<QueueItem>, x: QueueItem)
    requires InHeapOrder(items) && OrdersDistinct(items)
    requires forall y | y in items :: y.order != x.order
    ensures InHeapOrder(Insert(items, x)) && OrdersDistinct(Insert(items, x))
    ensures TotalSize(Insert(items, x)) == TotalSize(items) - x.sizeKey
  {
    if items == [] {
    } else if Before(x, items[0]) {
      assert ([x] + items)[1..] == items;
      forall y | y in items
        ensures Before(x, y)
      {
        var j :| 0 <= j < |items| && items[j] == y;
        assert j > 0 ==> Before(items[0], items[j]);
      }
      PrependInOrder(x, items);
    } else {
      var a, rest := items[0], items[1..];
      InsertInOrder(rest, x);
      var r := Insert(rest, x);
      assert ([a] + r)[1..] == r;
      assert a in items;
      forall y | y in r
        ensures Before(a, y) && a.order != y.order
      {
        if y != x {
          TailFollows(items, y);
        }
      }
      PrependInOrder(a, r);
    }
  }

  lemma TailFollows(items: seq<QueueItem>, y: QueueItem)
    requires InHeapOrder(items) && OrdersDistinct(items) && items != [] && y in items[1..]
    ensures Before(items[0], y) && items[0].order != y.order
  {
    var k :| 0 <= k < |items| - 1 && items[1..][k] == y;
    assert items[k + 1] == y;
  }

  lemma PrependInOrder(a: QueueItem, items: seq<QueueItem>)
    requires InHeapOrder(items) && OrdersDistinct(items)
    requires forall y | y in items :: Before(a, y) && a.order != y.order
    ensures InHeapOrder([a] + items) && OrdersDistinct([a] + items)
  {
  }

  lemma BatchGrows(batch: seq<QueueItem>, x: QueueItem, rest: seq<QueueItem>)
    ensures batch + ([x] + rest) == (batch + [x]) + rest
    ensures TotalSize(batch + [x]) == TotalSize(batch) - x.sizeKey
  {
    TotalSizeAppend(batch, [x]);
    assert [x][1..] == [];
  }

  /** The queue after these units have been pushed, in this order, under the sizes given for them. */
  function PushAll(items: seq<QueueItem>, ids: seq<SccId>, sizeHints: map<SccId, nat>, order: nat): seq<QueueItem>
    requires forall i | i in ids :: i in sizeHints
  {
    if ids == [] then items
    else
      var n: nat := |ids| - 1;
      Insert(PushAll(items, ids[..n], sizeHints, order), ItemOf(ids[n], sizeHints[ids[n]], order + n))
  }

  function HintsOf(ids: seq<SccId>, sizeHints: map<SccId, nat>): nat
    requires forall i | i in ids :: i in sizeHints
  {
    if ids == [] then 0 else HintsOf(ids[..|ids| - 1], sizeHints) + sizeHints[ids[|ids| - 1]]
  }

  lemma {:induction false} InsertTotal(items: seq<QueueItem>, x: QueueItem)
    ensures TotalSize(Insert(items, x)) == TotalSize(items) - x.sizeKey
  {
    if items == [] || Before(x, items[0]) {
      assert ([x] + items)[1..] == items;
    } else {
      InsertTotal(items[1..], x);
      assert ([items[0]] + Insert(items[1..], x))[1..] == Insert(items[1..], x);
    }
  }

  /** The total grows by exactly the sizes given. */
  lemma {:induction false} PushAllTotal(items: seq<QueueItem>, ids: seq<SccId>, sizeHints: map<SccId, nat>, order: nat)
    requires forall i | i in ids :: i in sizeHints
    ensures TotalSize(PushAll(items, ids, sizeHints, order)) == TotalSize(items) + HintsOf(ids, sizeHints)
  {
    if ids != [] {
      var n: nat := |ids| - 1;
      assert ids[n] in ids;
      PushAllTotal(items, ids[..n], sizeHints, order);
      InsertTotal(PushAll(items, ids[..n], sizeHints, order), ItemOf(ids[n], sizeHints[ids[n]], order + n));
    }
  }

  // Handing out batches.

  datatype Delivery = Delivery(worker: nat, batch: seq<QueueItem>)

  /** The batch is worth at most one of these equal shares of the total. */
  predicate WithinShare(batch: seq<QueueItem>, shares: nat, total: int) {
    shares * TotalSize(batch) <= total
  }

  /**
   * A batch from the front of the queue: one unit, or several within one of these shares of the total;
   * and the unit that follows, if there is one, would not have been within it.
   */
  predicate FairBatch(batch: seq<QueueItem>, next: seq<QueueItem>, shares: nat, total: int) {
    && batch != [] && (|batch| == 1 || WithinShare(batch, shares, total))
    && (next == [] || !WithinShare(batch + [next[0]], shares, total))
  }

  /** The deliveries take fair batches from the front of the queue, one after the other, and leave the rest. */
  ghost predicate FairShares(items: seq<QueueItem>, sent: seq<Delivery>, rest: seq<QueueItem>, shares: nat,
      total: int) {
    if sent == [] then items == rest
    else
      var batch := sent[0].batch;
      && |batch| <= |items| && items[..|batch|] == batch
      && FairBatch(batch, items[|batch|..], shares, total)
      && FairShares(items[|batch|..], sent[1..], rest, shares, total)
  }

  lemma {:induction false} FairSharesAppend(items: seq<QueueItem>, sent: seq<Delivery>, middle: seq<QueueItem>,
      d: Delivery, rest: seq<QueueItem>, shares: nat, total: int)
    requires FairShares(items, sent, middle, shares, total)
    requires middle == d.batch + rest && FairBatch(d.batch, rest, shares, total)
    ensures FairShares(items, sent + [d], rest, shares, total)
  {
    if sent == [] {
      assert items[|d.batch|..] == rest && items[..|d.batch|] == d.batch;
      assert (sent + [d])[1..] == [];
    } else {
      var n := |sent[0].batch|;
      FairSharesAppend(items[n..], sent[1..], middle, d, rest, shares, total);
      assert (sent + [d])[1..] == sent[1..] + [d] && (sent + [d])[0] == sent[0];
    }
  }

  /** Every delivery is of one unit, or within the share. */
  lemma {:induction false} EachWithinShare(items: seq<QueueItem>, sent: seq<Delivery>, rest: seq<QueueItem>,
      shares: nat, total: int, k: nat)
    requires FairShares(items, sent, rest, shares, total) && k < |sent|
    ensures |sent[k].batch| == 1 || shares * TotalSize(sent[k].batch) <= total
    ensures sent[k].batch != []
  {
    if k > 0 {
      EachWithinShare(items[|sent[0].batch|..], sent[1..], rest, shares, total, k - 1);
    }
  }

  /** Comparing with a rounded-down share is comparing with the share. */
  lemma ShareRounded(size: int, shares: nat, total: int)
    requires shares > 0
    ensures size <= total / shares <==> shares * size <= total
  {
    var q := total / shares;
    assert total == shares * q + total % shares;
    if size <= q {
      assert shares * size <= shares * q;
    } else {
      assert shares * size >= shares * (q + 1);
    }
  }

  /** What GetSccBatch takes with this limit is a fair batch. */
  lemma BatchIsFair(batch: seq<QueueItem>, rest: seq<QueueItem>, shares: nat, total: int)
    requires shares > 0 && batch != []
    requires |batch| <= 1 || TotalSize(batch) <= total / shares
    requires rest == [] || TotalSize(batch) - rest[0].sizeKey > total / shares
    ensures FairBatch(batch, rest, shares, total)
  {
    ShareRounded(TotalSize(batch), shares, total);
    if rest != [] {
      BatchGrows(batch, rest[0], rest[1..]);
      ShareRounded(TotalSize(batch + [rest[0]]), shares, total);
    }
  }

  class SccQueue {
    /** scc_queue as a heap: items[0] is its least element. */
    var items: seq<QueueItem>
    var sizeInQueue: int
    var queueOrder: nat

    ghost predicate Valid()
      reads this
    {
      && InHeapOrder(items) && OrdersDistinct(items)
      && sizeInQueue == TotalSize(items)
      && (forall x | x in items :: x.order < queueOrder && x.sizeKey <= 0)
    }

    constructor ()
      ensures Valid() && items == [] && queueOrder == 0
    {
      items, sizeInQueue, queueOrder := [], 0, 0;
    }

    method Push(id: SccId, sizeHint: nat)
      requires Valid()
      modifies this
      ensures Valid()
      ensures items == Insert(old(items), ItemOf(id, sizeHint, old(queueOrder)))
      ensures queueOrder == old(queueOrder) + 1
      ensures sizeInQueue == old(sizeInQueue) + sizeHint
    {
      var x := ItemOf(id, sizeHint, queueOrder);
      InsertInOrder(items, x);
      items := Insert(items, x);
      sizeInQueue := sizeInQueue + sizeHint;
      queueOrder := queueOrder + 1;
    }

    /** heappop. */
    method Pop() returns (x: QueueItem)
      requires Valid() && items != []
      modifies this`items, this`sizeInQueue
      ensures Valid()
      ensures old(items) == [x] + items
      ensures sizeInQueue == old(sizeInQueue) + x.sizeKey
    {
      x := items[0];
      items := items[1..];
      sizeInQueue := sizeInQueue + x.sizeKey;
    }

    /** Takes units from the front until the next one no longer fits; always takes at least one. */
    method GetSccBatch(maxSizeInBatch: int) returns (batch: seq<QueueItem>)
      requires Valid()
      modifies this`items, this`sizeInQueue
      ensures Valid()
      ensures old(items) == batch + items
      ensures old(items) != [] ==> batch != []
      ensures |batch| <= 1 || TotalSize(batch) <= maxSizeInBatch
      ensures items == [] || TotalSize(batch) - items[0].sizeKey > maxSizeInBatch
      ensures sizeInQueue == old(sizeInQueue) - TotalSize(batch)
    {
      batch := [];
      var sizeInBatch := 0;
      while items != [] && (sizeInBatch - items[0].sizeKey <= maxSizeInBatch || batch == [])
        invariant Valid()
        invariant old(items) == batch + items
        invariant sizeInBatch == TotalSize(batch)
        invariant sizeInQueue == old(sizeInQueue) - sizeInBatch
        invariant |batch| <= 1 || sizeInBatch <= maxSizeInBatch
        decreases |items|
      {
        var x := Pop();
        sizeInBatch := sizeInBatch - x.sizeKey;
        BatchGrows(batch, x, items);
        batch := batch + [x];
      }
    }
  }
}
