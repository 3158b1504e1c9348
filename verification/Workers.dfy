// Build workers: the queue of submitted units, the idle workers, and what each busy worker is doing.
module Workers {
  import opened ImportHash
  import opened Incremental
  import opened SccTable
  import opened Trace
  import opened WorkerQueue

  /** What a busy worker will answer next: interfaces of a batch of units, then errors of their modules. */
  datatype Job = Checking(batch: seq<SccId>) | Implementing(outs: map<ModId, Outcome>)

  datatype Place = Queued | AtWorker(w: nat)

  function IdsOf(items: seq<QueueItem>): (r: seq<SccId>)
    ensures |r| == |items|
  {
    if items == [] then [] else [items[0].scc] + IdsOf(items[1..])
  }

  /** The worker numbers. */
  function Range(n: nat): (r: set<nat>)
    ensures |r| == n && forall w | w in r :: w < n
  {
    if n == 0 then {} else Range(n - 1) + {n - 1}
  }

  /** Every worker is idle or busy. */
  ghost predicate Staffed(all: set<nat>, free: set<nat>, busy: set<nat>) {
    && (forall w :: w in all <==> w in free || w in busy)
    && (forall w | w in free :: w !in busy)
  }

  // Consistency of the pool: every submitted unit is in exactly one place, and every module whose
  // errors are outstanding is held by exactly one worker.

  ghost predicate QueuedOk(queued: seq<SccId>, where: map<SccId, Place>) {
    Distinct(queued) && forall i | i in queued :: i in where && where[i] == Queued
  }

  ghost predicate BatchOk(batch: seq<SccId>, w: nat, where: map<SccId, Place>) {
    Distinct(batch) && forall i | i in batch :: i in where && where[i] == AtWorker(w)
  }

  ghost predicate BatchesOk(busy: map<nat, Job>, where: map<SccId, Place>) {
    forall w | w in busy && busy[w].Checking? :: BatchOk(busy[w].batch, w, where)
  }

  ghost predicate PlaceOk(i: SccId, place: Place, queued: seq<SccId>, busy: map<nat, Job>) {
    if place == Queued then i in queued else place.w in busy && busy[place.w].Checking? && i in busy[place.w].batch
  }

  ghost predicate WhereOk(where: map<SccId, Place>, queued: seq<SccId>, busy: map<nat, Job>) {
    forall i | i in where :: PlaceOk(i, where[i], queued, busy)
  }

  ghost predicate HolderOk(busy: map<nat, Job>, holder: map<ModId, nat>) {
    && (forall w, m {:trigger m in busy[w].outs} | w in busy && busy[w].Implementing?
       && m in busy[w].outs :: m in holder && holder[m] == w)
    && (forall m | m in holder :: holder[m] in busy && busy[holder[m]].Implementing? && m in busy[holder[m]].outs)
  }

  ghost predicate PoolOk(queued: seq<SccId>, busy: map<nat, Job>, where: map<SccId, Place>, holder: map<ModId, nat>) {
    QueuedOk(queued, where) && BatchesOk(busy, where) && WhereOk(where, queued, busy) && HolderOk(busy, holder)
  }

  lemma EnqueueOk(queued: seq<SccId>, busy: map<nat, Job>, where: map<SccId, Place>, holder: map<ModId, nat>,
      id: SccId, queued1: seq<SccId>)
    requires PoolOk(queued, busy, where, holder) && id !in where
    requires Distinct(queued1) && forall i :: i in queued1 <==> i == id || i in queued
    ensures PoolOk(queued1, busy, where[id := Queued], holder)
  {
    var where1 := where[id := Queued];
    forall w | w in busy && busy[w].Checking?
      ensures BatchOk(busy[w].batch, w, where1)
    {
      assert BatchOk(busy[w].batch, w, where);
    }
    forall i | i in where1
      ensures PlaceOk(i, where1[i], queued1, busy)
    {
      if i != id { assert PlaceOk(i, where[i], queued, busy); }
    }
  }

  function Sent(where: map<SccId, Place>, ids: seq<SccId>, w: nat): map<SccId, Place> {
    where + map i | i in ids :: AtWorker(w)
  }

  lemma SendOk(queued: seq<SccId>, busy: map<nat, Job>, where: map<SccId, Place>, holder: map<ModId, nat>,
      ids: seq<SccId>, rest: seq<SccId>, w: nat)
    requires PoolOk(queued, busy, where, holder) && w !in busy
    requires Distinct(ids) && Distinct(rest)
    requires forall i :: i in queued <==> i in ids || i in rest
    requires forall i | i in ids :: i !in rest
    ensures PoolOk(rest, busy[w := Checking(ids)], Sent(where, ids, w), holder)
    ensures Sent(where, ids, w).Keys == where.Keys
  {
    var busy1, where1 := busy[w := Checking(ids)], Sent(where, ids, w);
    forall v | v in busy1 && busy1[v].Checking?
      ensures BatchOk(busy1[v].batch, v, where1)
    {
      if v != w {
        assert BatchOk(busy[v].batch, v, where);
        forall i | i in busy[v].batch
          ensures i !in ids
        {
          assert where[i] == AtWorker(v);
        }
      }
    }
    forall i | i in where1
      ensures PlaceOk(i, where1[i], rest, busy1)
    {
      if i !in ids { assert PlaceOk(i, where[i], queued, busy); }
    }
  }

  function Held(holder: map<ModId, nat>, mods: set<ModId>, w: nat): map<ModId, nat> {
    holder + map m | m in mods :: w
  }

  lemma InterfaceOk(queued: seq<SccId>, busy: map<nat, Job>, where: map<SccId, Place>, holder: map<ModId, nat>,
      w: nat, outs: map<ModId, Outcome>)
    requires PoolOk(queued, busy, where, holder) && w in busy && busy[w].Checking?
    requires forall m | m in outs :: m !in holder
    ensures PoolOk(queued, busy[w := Implementing(outs)], where - IdSet(busy[w].batch), Held(holder, outs.Keys, w))
    ensures IdSet(busy[w].batch) <= where.Keys
  {
    var busy1, where1 := busy[w := Implementing(outs)], where - IdSet(busy[w].batch);
    assert BatchOk(busy[w].batch, w, where);
    forall v | v in busy1 && busy1[v].Checking?
      ensures BatchOk(busy1[v].batch, v, where1)
    {
      assert BatchOk(busy[v].batch, v, where);
    }
    forall i | i in where1
      ensures PlaceOk(i, where1[i], queued, busy1)
    {
      assert PlaceOk(i, where[i], queued, busy);
    }
  }

  lemma HeldKeys(holder: map<ModId, nat>, mods: set<ModId>, w: nat)
    ensures Held(holder, mods, w).Keys == holder.Keys + mods
  {
  }

  lemma ImplementationOk(queued: seq<SccId>, busy: map<nat, Job>, where: map<SccId, Place>, holder: map<ModId, nat>,
      w: nat)
    requires PoolOk(queued, busy, where, holder) && w in busy && busy[w].Implementing?
    ensures PoolOk(queued, busy - {w}, where, holder - busy[w].outs.Keys)
    ensures busy[w].outs.Keys <= holder.Keys
  {
    var busy1 := busy - {w};
    forall v | v in busy1 && busy1[v].Checking?
      ensures BatchOk(busy1[v].batch, v, where)
    {
      assert BatchOk(busy[v].batch, v, where);
    }
    forall i | i in where
      ensures PlaceOk(i, where[i], queued, busy1)
    {
      assert PlaceOk(i, where[i], queued, busy);
    }
    forall v, m | v in busy1 && busy1[v].Implementing? && m in busy1[v].outs
      ensures m in holder && holder[m] == v && m !in busy[w].outs
    {
      assert holder[m] == v;
    }
  }

  class WorkerPool {
    const num: nat
    const all: set<nat>
    const queue: SccQueue
    var free: set<nat>
    var busy: map<nat, Job>
    /** Where each submitted unit waits for its interface to be checked. */
    ghost var where: map<SccId, Place>
    /** The worker that still has to report the errors of a module. */
    ghost var holder: map<ModId, nat>

    ghost predicate Valid()
      reads this, queue
    {
      && queue.Valid() && |all| == num
      && Staffed(all, free, busy.Keys)
      && PoolOk(IdsOf(queue.items), busy, where, holder)
    }

    /** There is something to wait for: queued units, or a worker that is not idle. */
    predicate HasWork()
      reads this, queue
    {
      queue.items != [] || |free| < num
    }

    lemma HasWorkIff()
      requires Valid()
      ensures HasWork() <==> queue.items != [] || busy != map[]
      ensures where != map[] ==> HasWork()
    {
      assert all == free + busy.Keys;
      assert |free + busy.Keys| == |free| + |busy.Keys|;
      if where != map[] {
        var i :| i in where;
        assert PlaceOk(i, where[i], IdsOf(queue.items), busy);
      }
    }

    lemma NoWorkers()
      requires Valid() && num == 0
      ensures busy == map[] && holder == map[]
    {
      assert all == {};
      assert forall w | w in busy :: w in all;
    }

    constructor (num: nat)
      ensures Valid() && fresh(queue) && this.num == num
      ensures where == map[] && holder == map[] && queue.items == [] && busy == map[]
    {
      this.num := num;
      all := Range(num);
      queue := new SccQueue();
      free := Range(num);
      busy, where, holder := map[], map[], map[];
    }

    /** Largest total size of a batch: an equal share of the queue, halved because batches are cheap to send. */
    function MaxBatchSize(): int
      reads this, queue
      requires num > 0
    {
      queue.sizeInQueue / (2 * num)
    }

    /**
     * Queues units and hands out batches while there are idle workers. With an equal share for twice
     * the number of workers, a worker gets one unit or as many, in the order of the queue, as fit its
     * share of all that is queued then.
     */
    method SubmitToWorkers(sccs: seq<SccId>, sizeHints: map<SccId, nat>)
      returns (ghost queued: seq<QueueItem>, ghost sent: seq<Delivery>)
      requires num > 0 && Valid() && Distinct(sccs)
      requires forall i | i in sccs :: i !in where && i in sizeHints
      modifies this`free, this`busy, this`where, queue
      ensures Valid()
      ensures where.Keys == old(where.Keys) + IdSet(sccs)
      ensures queue.items == [] || free == {}
      ensures Started(old(busy), busy)
      ensures sccs == [] ==>
              |queue.items| < |old(queue.items)| || (queue.items == old(queue.items) && busy == old(busy))
      ensures queued == PushAll(old(queue.items), sccs, sizeHints, old(queue.queueOrder))
      ensures TotalSize(queued) == TotalSize(old(queue.items)) + HintsOf(sccs, sizeHints)
      ensures FairShares(queued, sent, queue.items, 2 * num, TotalSize(queued))
      ensures ToIdle(old(busy), sent) && busy == WithJobs(old(busy), sent)
      ensures forall w | w in busy && w !in old(busy) ::
                exists d :: d in sent && d.worker == w && busy[w] == Checking(IdsOf(d.batch))
                            && (|d.batch| == 1 || 2 * num * TotalSize(d.batch) <= TotalSize(queued))
    {
      PushAllTotal(queue.items, sccs, sizeHints, queue.queueOrder);
      EnqueueAll(sccs, sizeHints);
      queued := queue.items;
      sent := SendBatches();
      SharesOfNew(old(busy), busy, queued, sent, queue.items, 2 * num, TotalSize(queued));
    }

    /** The units are queued under the sizes given for them. */
    method EnqueueAll(sccs: seq<SccId>, sizeHints: map<SccId, nat>)
      requires Valid() && Distinct(sccs)
      requires forall i | i in sccs :: i !in where && i in sizeHints
      modifies this`where, queue
      ensures Valid()
      ensures where.Keys == old(where.Keys) + IdSet(sccs)
      ensures queue.items == PushAll(old(queue.items), sccs, sizeHints, old(queue.queueOrder))
    {
      for k := 0 to |sccs|
        invariant Valid()
        invariant forall i :: i in where <==> i in old(where) || i in IdSet(sccs[..k])
        invariant queue.items == PushAll(old(queue.items), sccs[..k], sizeHints, old(queue.queueOrder))
        invariant queue.queueOrder == old(queue.queueOrder) + k
      {
        NextDistinct(sccs, k);
        assert sccs[k] in sccs;
        assert sccs[..k + 1][..k] == sccs[..k];
        Enqueue(sccs[k], sizeHints[sccs[k]]);
      }
      assert sccs[..|sccs|] == sccs;
    }

    /** Hands out batches until there is nothing queued or no idle worker. */
    method SendBatches() returns (ghost sent: seq<Delivery>)
      requires num > 0 && Valid()
      modifies this`free, this`busy, this`where, queue
      ensures Valid()
      ensures where.Keys == old(where.Keys)
      ensures queue.items == [] || free == {}
      ensures Started(old(busy), busy)
      ensures |queue.items| < |old(queue.items)| || (queue.items == old(queue.items) && busy == old(busy))
      ensures FairShares(old(queue.items), sent, queue.items, 2 * num, TotalSize(old(queue.items)))
      ensures ToIdle(old(busy), sent) && busy == WithJobs(old(busy), sent)
    {
      var maxSizeInBatch := MaxBatchSize();
      ghost var total := queue.sizeInQueue;
      sent := [];
      while queue.items != [] && free != {}
        invariant Valid()
        invariant where.Keys == old(where.Keys)
        invariant Started(old(busy), busy)
        invariant |queue.items| < |old(queue.items)| || (queue.items == old(queue.items) && busy == old(busy))
        invariant FairShares(old(queue.items), sent, queue.items, 2 * num, total)
        invariant ToIdle(old(busy), sent) && busy == WithJobs(old(busy), sent)
        decreases |queue.items|
      {
        ghost var before, items := busy, queue.items;
        ghost var d := SendBatch(maxSizeInBatch);
        StartedTransitive(old(busy), before, busy);
        BatchIsFair(d.batch, queue.items, 2 * num, total);
        FairSharesAppend(old(queue.items), sent, items, d, queue.items, 2 * num, total);
        WithOneMore(old(busy), sent, d);
        sent := sent + [d];
      }
    }

    method Enqueue(id: SccId, sizeHint: nat)
      requires Valid() && id !in where
      modifies queue, this`where
      ensures Valid()
      ensures where == old(where)[id := Queued]
      ensures queue.items == Insert(old(queue.items), ItemOf(id, sizeHint, old(queue.queueOrder)))
      ensures queue.queueOrder == old(queue.queueOrder) + 1
    {
      ghost var item := ItemOf(id, sizeHint, queue.queueOrder);
      assert id !in IdsOf(queue.items);
      InsertIds(queue.items, item);
      EnqueueOk(IdsOf(queue.items), busy, where, holder, id, IdsOf(Insert(queue.items, item)));
      queue.Push(id, sizeHint);
      where := where[id := Queued];
    }

    /** Sends the next batch to some idle worker. */
    method SendBatch(maxSizeInBatch: int) returns (ghost sent: Delivery)
      requires Valid() && queue.items != [] && free != {}
      modifies this`free, this`busy, this`where, queue
      ensures Valid()
      ensures where.Keys == old(where.Keys)
      ensures |queue.items| < |old(queue.items)|
      ensures Started(old(busy), busy)
      ensures sent.worker !in old(busy) && busy == old(busy)[sent.worker := Checking(IdsOf(sent.batch))]
      ensures sent.batch != [] && old(queue.items) == sent.batch + queue.items
      ensures |sent.batch| <= 1 || TotalSize(sent.batch) <= maxSizeInBatch
      ensures queue.items == [] || TotalSize(sent.batch) - queue.items[0].sizeKey > maxSizeInBatch
    {
      var idx :| idx in free;
      var batch := queue.GetSccBatch(maxSizeInBatch);
      var ids := IdsOf(batch);
      SplitIds(old(queue.items), batch, queue.items);
      assert |old(queue.items)| == |batch| + |queue.items|;
      HandOver(idx, ids, IdsOf(old(queue.items)));
      sent := Delivery(idx, batch);
    }

    /** Gives an idle worker units that have just left the queue. */
    method HandOver(idx: nat, ids: seq<SccId>, ghost queued: seq<SccId>)
      requires queue.Valid() && |all| == num && Staffed(all, free, busy.Keys) && idx in free
      requires PoolOk(queued, busy, where, holder)
      requires Distinct(ids) && Distinct(IdsOf(queue.items))
      requires forall i :: i in queued <==> i in ids || i in IdsOf(queue.items)
      requires forall i | i in ids :: i !in IdsOf(queue.items)
      modifies this`free, this`busy, this`where
      ensures Valid()
      ensures where.Keys == old(where.Keys)
      ensures Started(old(busy), busy) && idx !in old(busy) && busy == old(busy)[idx := Checking(ids)]
    {
      OutOfIdle(all, free, busy, idx, ids);
      SendOk(queued, busy, where, holder, ids, IdsOf(queue.items), idx);
      free, busy, where := free - {idx}, busy[idx := Checking(ids)], Sent(where, ids, idx);
    }

    /** A worker reports the interfaces of its batch; it goes on with the function bodies. */
    method FinishInterface(idx: nat, outs: map<ModId, Outcome>) returns (batch: seq<SccId>)
      requires Valid() && idx in busy && busy[idx].Checking?
      requires forall m | m in outs :: m !in holder
      modifies this`busy, this`where, this`holder
      ensures Valid()
      ensures batch == old(busy[idx].batch) && Distinct(batch)
      ensures busy == old(busy)[idx := Implementing(outs)]
      ensures IdSet(batch) <= old(where.Keys) && where.Keys == old(where.Keys) - IdSet(batch)
      ensures holder == Held(old(holder), outs.Keys, idx)
    {
      batch := busy[idx].batch;
      assert BatchOk(batch, idx, where);
      InterfaceOk(IdsOf(queue.items), busy, where, holder, idx, outs);
      busy := busy[idx := Implementing(outs)];
      where := where - IdSet(batch);
      holder := Held(holder, outs.Keys, idx);
    }

    /** A worker reports the errors of the modules it checked and becomes idle. */
    method FinishImplementation(idx: nat) returns (outs: map<ModId, Outcome>)
      requires Valid() && idx in busy && busy[idx].Implementing?
      modifies this`busy, this`free, this`holder
      ensures Valid()
      ensures outs == old(busy[idx].outs)
      ensures busy == old(busy) - {idx}
      ensures holder == old(holder) - outs.Keys && outs.Keys <= old(holder.Keys)
      ensures holder.Keys == old(holder.Keys) - outs.Keys
    {
      outs := busy[idx].outs;
      ImplementationOk(IdsOf(queue.items), busy, where, holder, idx);
      BackToIdle(all, free, busy, idx);
      busy, free, holder := busy - {idx}, free + {idx}, holder - outs.Keys;
    }
  }

  /** Some idle workers have started checking a batch. */
  ghost predicate Started(before: map<nat, Job>, after: map<nat, Job>) {
    && before.Keys <= after.Keys
    && forall w | w in after :: if w in before then after[w] == before[w] else after[w].Checking?
  }

  /** The deliveries are to different workers, none of which was busy. */
  ghost predicate ToIdle(busy: map<nat, Job>, sent: seq<Delivery>) {
    sent == []
    || (var n: nat := |sent| - 1; ToIdle(busy, sent[..n]) && sent[n].worker !in WithJobs(busy, sent[..n]))
  }

  /** The jobs of the workers after these deliveries. */
  ghost function WithJobs(busy: map<nat, Job>, sent: seq<Delivery>): map<nat, Job> {
    if sent == [] then busy
    else
      var n: nat := |sent| - 1;
      WithJobs(busy, sent[..n])[sent[n].worker := Checking(IdsOf(sent[n].batch))]
  }

  lemma WithOneMore(busy: map<nat, Job>, sent: seq<Delivery>, d: Delivery)
    requires ToIdle(busy, sent) && d.worker !in WithJobs(busy, sent)
    ensures ToIdle(busy, sent + [d])
    ensures WithJobs(busy, sent + [d]) == WithJobs(busy, sent)[d.worker := Checking(IdsOf(d.batch))]
  {
    assert (sent + [d])[..|sent|] == sent;
  }

  /** A worker that was not busy before has one of the deliveries. */
  lemma {:induction false} NewlyBusy(busy: map<nat, Job>, sent: seq<Delivery>, w: nat) returns (k: nat)
    requires ToIdle(busy, sent) && w in WithJobs(busy, sent) && w !in busy
    ensures k < |sent| && sent[k].worker == w && WithJobs(busy, sent)[w] == Checking(IdsOf(sent[k].batch))
  {
    var n: nat := |sent| - 1;
    if sent[n].worker == w {
      k := n;
    } else {
      k := NewlyBusy(busy, sent[..n], w);
    }
  }

  lemma SharesOfNew(busy: map<nat, Job>, after: map<nat, Job>, items: seq<QueueItem>, sent: seq<Delivery>,
      rest: seq<QueueItem>, shares: nat, total: int)
    requires ToIdle(busy, sent) && after == WithJobs(busy, sent) && FairShares(items, sent, rest, shares, total)
    ensures forall w | w in after && w !in busy ::
              exists d :: d in sent && d.worker == w && after[w] == Checking(IdsOf(d.batch))
                          && (|d.batch| == 1 || shares * TotalSize(d.batch) <= total)
  {
    forall w | w in after && w !in busy
      ensures exists d :: d in sent && d.worker == w && after[w] == Checking(IdsOf(d.batch))
                          && (|d.batch| == 1 || shares * TotalSize(d.batch) <= total)
    {
      var k := NewlyBusy(busy, sent, w);
      EachWithinShare(items, sent, rest, shares, total, k);
      assert sent[k] in sent;
    }
  }

  lemma BackToIdle(all: set<nat>, free: set<nat>, busy: map<nat, Job>, w: nat)
    requires Staffed(all, free, busy.Keys) && w in busy
    ensures Staffed(all, free + {w}, (busy - {w}).Keys)
  {
    assert (busy - {w}).Keys == busy.Keys - {w};
  }

  lemma StartedTransitive(a: map<nat, Job>, b: map<nat, Job>, c: map<nat, Job>)
    requires Started(a, b) && Started(b, c)
    ensures Started(a, c)
  {
  }

  lemma OutOfIdle(all: set<nat>, free: set<nat>, busy: map<nat, Job>, w: nat, ids: seq<SccId>)
    requires Staffed(all, free, busy.Keys) && w in free
    ensures Staffed(all, free - {w}, busy[w := Checking(ids)].Keys) && Started(busy, busy[w := Checking(ids)])
  {
  }

  lemma NextDistinct(ids: seq<SccId>, k: nat)
    requires Distinct(ids) && k < |ids|
    ensures ids[k] !in IdSet(ids[..k]) && IdSet(ids[..k + 1]) == IdSet(ids[..k]) + {ids[k]}
  {
    assert ids[..k + 1] == ids[..k] + [ids[k]];
  }

  lemma DistinctCons(x: SccId, ids: seq<SccId>)
    ensures Distinct([x] + ids) <==> Distinct(ids) && x !in ids
  {
    var all := [x] + ids;
    if Distinct(all) {
      forall i, j | 0 <= i < j < |ids|
        ensures ids[i] != ids[j]
      {
        assert all[i + 1] != all[j + 1];
      }
      forall j | 0 <= j < |ids|
        ensures ids[j] != x
      {
        assert all[0] != all[j + 1];
      }
    }
  }

  lemma {:induction false} InsertIds(items: seq<QueueItem>, x: QueueItem)
    requires Distinct(IdsOf(items)) && x.scc !in IdsOf(items)
    ensures Distinct(IdsOf(Insert(items, x)))
    ensures forall i :: i in IdsOf(Insert(items, x)) <==> i == x.scc || i in IdsOf(items)
  {
    if items == [] || Before(x, items[0]) {
      assert ([x] + items)[1..] == items;
      DistinctCons(x.scc, IdsOf(items));
    } else {
      DistinctCons(items[0].scc, IdsOf(items[1..]));
      InsertIds(items[1..], x);
      assert ([items[0]] + Insert(items[1..], x))[1..] == Insert(items[1..], x);
      DistinctCons(items[0].scc, IdsOf(Insert(items[1..], x)));
    }
  }

  lemma {:induction false} SplitIds(items: seq<QueueItem>, batch: seq<QueueItem>, rest: seq<QueueItem>)
    requires items == batch + rest && Distinct(IdsOf(items))
    ensures Distinct(IdsOf(batch)) && Distinct(IdsOf(rest))
    ensures forall i :: i in IdsOf(items) <==> i in IdsOf(batch) || i in IdsOf(rest)
    ensures forall i | i in IdsOf(batch) :: i !in IdsOf(rest)
    decreases |batch|
  {
    if batch == [] {
      assert items == rest;
    } else {
      assert items[1..] == batch[1..] + rest;
      DistinctCons(items[0].scc, IdsOf(items[1..]));
      SplitIds(items[1..], batch[1..], rest);
      DistinctCons(batch[0].scc, IdsOf(batch[1..]));
    }
  }
}
