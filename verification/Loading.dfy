// Loading what a stale unit needs from the cache before the unit is processed, in the build process
// or in a worker.
module Loading {
  import opened Reach
  import opened ImportHash
  import opened Incremental
  import opened SccTable
  import opened Progress
  import opened Trace
  import opened TopSort
  import opened Components

  /** The units of a list that are in a set, in the order of the list. */
  function Picked(ids: seq<SccId>, wanted: set<SccId>): (r: seq<SccId>)
    ensures forall i :: i in r <==> i in ids && i in wanted
  {
    if ids == [] then []
    else
      var last := ids[|ids| - 1];
      assert ids == ids[..|ids| - 1] + [last];
      Picked(ids[..|ids| - 1], wanted) + if last in wanted then [last] else []
  }

  lemma PickedMore(ids: seq<SccId>, i: SccId, wanted: set<SccId>)
    ensures Picked(ids + [i], wanted) == Picked(ids, wanted) + if i in wanted then [i] else []
  {
    assert (ids + [i])[..|ids|] == ids;
  }

  /** What is in dependency order is closed under dependencies. */
  lemma OrderClosed(deps: Graph<SccId>, ids: seq<SccId>)
    requires InDependencyOrder(deps, ids)
    ensures DownClosed(deps, IdSet(ids))
  {
    forall i | i in IdSet(ids)
      ensures i in deps && deps[i] <= IdSet(ids)
    {
      var k :| 0 <= k < |ids| && ids[k] == i;
      assert IdSet(ids[..k]) <= IdSet(ids);
    }
  }

  // The search for what is missing.

  /** The search stands at `missing`, with the units of `left` to look at. */
  ghost predicate Searching(deps: Graph<SccId>, id: SccId, done: set<SccId>, missing: set<SccId>, left: set<SccId>)
    requires id in deps
  {
    && missing + left <= Closure(deps, id)
    && missing !! done
    && deps[id] <= done + missing + left
    && forall i | i in missing :: i in deps && deps[i] <= done + missing + left
  }

  lemma SearchSkips(deps: Graph<SccId>, id: SccId, done: set<SccId>, missing: set<SccId>, left: set<SccId>,
      i: SccId, left1: set<SccId>)
    requires id in deps && Searching(deps, id, done, missing, left) && i in done + missing && left1 == left - {i}
    ensures Searching(deps, id, done, missing, left1)
  {
    assert done + missing + left1 == done + missing + left - ({i} - done - missing);
  }

  lemma SearchStep(deps: Graph<SccId>, id: SccId, done: set<SccId>, missing: set<SccId>, left: set<SccId>,
      i: SccId, missing1: set<SccId>, left1: set<SccId>)
    requires Closed(deps) && id in deps && Searching(deps, id, done, missing, left) && i in left && i !in done + missing
    requires i in deps && missing1 == missing + {i} && left1 == left - {i} + deps[i]
    ensures Searching(deps, id, done, missing1, left1)
    ensures Closure(deps, id) - missing1 < Closure(deps, id) - missing
  {
    forall j | j in deps[i]
      ensures j in Closure(deps, id)
    {
      EdgeReaches(deps, i, j);
      ReachesTransitive(deps, id, i, j);
    }
    assert i in Closure(deps, id) - missing && i !in Closure(deps, id) - missing1;
    assert done + missing1 + left1 == done + missing + left + deps[i];
  }

  lemma SearchEnds(deps: Graph<SccId>, id: SccId, done: set<SccId>, missing: set<SccId>)
    requires Closed(deps) && id in deps && DownClosed(deps, done) && Searching(deps, id, done, missing, {})
    ensures missing == Closure(deps, id) - done
  {
    ClosureLeast(deps, id, done + missing);
  }

  /** The units a unit can reach that are not loaded; below a loaded unit nothing need be looked at. */
  method FindMissing(deps: Graph<SccId>, id: SccId, doneSccs: set<SccId>) returns (missing: set<SccId>)
    requires Closed(deps) && id in deps && DownClosed(deps, doneSccs)
    ensures missing == Closure(deps, id) - doneSccs
  {
    missing := {};
    var sccsToFind := deps[id];
    ClosureUnfold(deps, id);
    while sccsToFind != {}
      invariant Searching(deps, id, doneSccs, missing, sccsToFind)
      decreases Closure(deps, id) - missing, sccsToFind
    {
      var depScc :| depScc in sccsToFind;
      if depScc in doneSccs || depScc in missing {
        SearchSkips(deps, id, doneSccs, missing, sccsToFind, depScc, sccsToFind - {depScc});
        sccsToFind := sccsToFind - {depScc};
      } else {
        assert depScc in Closure(deps, id);
        var more := sccsToFind - {depScc} + deps[depScc];
        SearchStep(deps, id, doneSccs, missing, sccsToFind, depScc, missing + {depScc}, more);
        missing, sccsToFind := missing + {depScc}, more;
      }
    }
    SearchEnds(deps, id, doneSccs, missing);
  }

  // Loading in dependency order.

  /** The next missing unit of the top order has all its dependencies loaded. */
  lemma LoadNext(deps: Graph<SccId>, topOrder: seq<SccId>, history: seq<SccId>, done: set<SccId>, missing: set<SccId>,
      k: nat)
    requires InDependencyOrder(deps, topOrder) && k < |topOrder| && topOrder[k] in missing
    requires missing !! done && DownClosed(deps, done + missing)
    requires InDependencyOrder(deps, history) && IdSet(history) == done + missing * IdSet(topOrder[..k])
    ensures InDependencyOrder(deps, history + [topOrder[k]])
  {
    var i := topOrder[k];
    assert i in done + missing && deps[i] <= IdSet(topOrder[..k]);
    NotAhead(topOrder, k);
    assert i !in IdSet(topOrder[..k]);
    OrderExtends(deps, history, i);
  }

  lemma PrefixIds(ids: seq<SccId>, k: nat)
    requires k < |ids|
    ensures ids[..k + 1] == ids[..k] + [ids[k]] && IdSet(ids[..k + 1]) == IdSet(ids[..k]) + {ids[k]}
  {
  }

  lemma MissingMore(done: set<SccId>, missing: set<SccId>, picked: set<SccId>, i: SccId)
    ensures done + missing * (picked + {i})
            == if i in missing then (done + missing * picked) + {i} else done + missing * picked
  {
  }

  lemma {:induction false} PrefixInOrder(deps: Graph<SccId>, topOrder: seq<SccId>, history: seq<SccId>,
      done: set<SccId>, missing: set<SccId>, k: nat)
    requires InDependencyOrder(deps, topOrder) && k <= |topOrder|
    requires missing !! done && DownClosed(deps, done + missing)
    requires InDependencyOrder(deps, history) && IdSet(history) == done
    ensures var all := history + Picked(topOrder[..k], missing);
            InDependencyOrder(deps, all) && IdSet(all) == done + missing * IdSet(topOrder[..k])
  {
    if k == 0 {
      assert history + Picked(topOrder[..0], missing) == history;
    } else {
      PrefixInOrder(deps, topOrder, history, done, missing, k - 1);
      var i, before := topOrder[k - 1], history + Picked(topOrder[..k - 1], missing);
      PrefixIds(topOrder, k - 1);
      PickedMore(topOrder[..k - 1], i, missing);
      MissingMore(done, missing, IdSet(topOrder[..k - 1]), i);
      if i in missing {
        LoadNext(deps, topOrder, before, done, missing, k - 1);
        assert history + Picked(topOrder[..k], missing) == before + [i];
      } else {
        assert history + Picked(topOrder[..k], missing) == before;
      }
    }
  }

  /** Everything that is missing is loaded once, after what it depends on. */
  lemma PickedInOrder(deps: Graph<SccId>, topOrder: seq<SccId>, history: seq<SccId>, done: set<SccId>,
      missing: set<SccId>)
    requires InDependencyOrder(deps, topOrder) && IdSet(topOrder) == deps.Keys
    requires missing !! done && missing <= deps.Keys && DownClosed(deps, done + missing)
    requires InDependencyOrder(deps, history) && IdSet(history) == done
    ensures var all := history + Picked(topOrder, missing);
            InDependencyOrder(deps, all) && IdSet(all) == done + missing
    ensures IdSet(Picked(topOrder, missing)) == missing
  {
    PrefixInOrder(deps, topOrder, history, done, missing, |topOrder|);
    assert topOrder[..|topOrder|] == topOrder;
    assert missing * deps.Keys == missing;
  }

  lemma NotAhead(topOrder: seq<SccId>, k: nat)
    requires Distinct(topOrder) && k < |topOrder|
    ensures topOrder[k] !in topOrder[..k]
  {
  }

  /** Adding what a unit needs to a set that is closed leaves it closed, even with the unit itself. */
  lemma StillClosed(deps: Graph<SccId>, done: set<SccId>, id: SccId)
    requires Closed(deps) && DownClosed(deps, done) && id in deps
    ensures DownClosed(deps, done + Closure(deps, id)) && DownClosed(deps, done + Closure(deps, id) + {id})
  {
    ClosureUnfold(deps, id);
    forall i | i in Closure(deps, id)
      ensures deps[i] <= Closure(deps, id)
    {
      ClosureUnfold(deps, i);
      ClosureTransitive(deps, id, i);
    }
  }

  ghost function FromStore(store: map<ModId, Hash>, mods: set<ModId>): map<ModId, Hash> {
    map m | m in mods && m in store :: store[m]
  }

  lemma MoreLoaded(t: Table, store: map<ModId, Hash>, before: map<ModId, Hash>, missing: set<SccId>, taken: set<SccId>,
      id: SccId, now: map<ModId, Hash>)
    requires id in t.members && id in missing && now == before + FromStore(store, ModulesOf(t, taken))
    ensures t.members[id] <= ModulesOf(t, missing)
    ensures now + FromStore(store, t.members[id]) == before + FromStore(store, ModulesOf(t, taken + {id}))
  {
    assert ModulesOf(t, taken + {id}) == ModulesOf(t, taken) + t.members[id];
  }

  lemma AllLoaded(t: Table, done: set<SccId>, missing: set<SccId>, before: map<ModId, Hash>, store: map<ModId, Hash>)
    requires ModulesOf(t, missing) <= store.Keys && missing <= done && before.Keys == ModulesOf(t, done - missing)
    ensures (before + FromStore(store, ModulesOf(t, missing))).Keys == ModulesOf(t, done)
  {
    assert ModulesOf(t, done) == ModulesOf(t, done - missing) + ModulesOf(t, missing);
  }

  lemma OneMore(t: Table, done: set<SccId>, id: SccId)
    requires id in t.members
    ensures ModulesOf(t, done + {id}) == ModulesOf(t, done) + t.members[id]
  {
  }

  lemma NeedsItsDeps(deps: Graph<SccId>, id: SccId)
    requires Closed(deps) && Acyclic(deps) && id in deps
    ensures deps[id] <= Closure(deps, id) && id !in Closure(deps, id)
  {
    ClosureUnfold(deps, id);
  }

  /** The units of which a process has the trees: loaded from the cache or processed by itself. */
  class Loader {
    const t: Table
    const topOrder: seq<SccId>
    var doneSccs: set<SccId>
    /** The interface hash of every module whose tree is loaded. */
    var ifaces: map<ModId, Hash>
    /** The units in doneSccs, in the order in which they were added. */
    ghost var history: seq<SccId>

    ghost predicate Valid()
      reads this
    {
      && t.members.Keys == t.deps.Keys && Closed(t.deps) && Acyclic(t.deps)
      && InDependencyOrder(t.deps, topOrder) && IdSet(topOrder) == t.deps.Keys
      && InDependencyOrder(t.deps, history) && IdSet(history) == doneSccs
      && ifaces.Keys == ModulesOf(t, doneSccs)
    }

    constructor (t: Table, topOrder: seq<SccId>)
      requires t.members.Keys == t.deps.Keys && Closed(t.deps) && Acyclic(t.deps)
      requires InDependencyOrder(t.deps, topOrder) && IdSet(topOrder) == t.deps.Keys
      ensures Valid() && this.t == t && this.topOrder == topOrder && doneSccs == {} && history == []
    {
      this.t, this.topOrder := t, topOrder;
      doneSccs, ifaces, history := {}, map[], [];
    }

    /** Loads one unit from the cache. */
    method LoadUnit(id: SccId, store: map<ModId, Hash>)
      requires id in t.members && t.members[id] <= store.Keys
      modifies this`doneSccs, this`ifaces, this`history
      ensures doneSccs == old(doneSccs) + {id} && history == old(history) + [id]
      ensures ifaces == old(ifaces) + FromStore(store, t.members[id])
    {
      doneSccs, history := doneSccs + {id}, history + [id];
      ifaces := ifaces + map m | m in t.members[id] :: store[m];
    }

    /** Loads everything a unit can reach, each missing unit once and after what it depends on. */
    method MaybeLoadDeps(id: SccId, store: map<ModId, Hash>)
      requires Valid() && id in t.deps
      requires ModulesOf(t, Closure(t.deps, id) - doneSccs) <= store.Keys
      modifies this`doneSccs, this`ifaces, this`history
      ensures Valid() && doneSccs == old(doneSccs) + Closure(t.deps, id)
      ensures history == old(history) + Picked(topOrder, Closure(t.deps, id) - old(doneSccs))
      ensures ifaces == old(ifaces) + FromStore(store, ModulesOf(t, Closure(t.deps, id) - old(doneSccs)))
    {
      OrderClosed(t.deps, history);
      var missing := FindMissing(t.deps, id, doneSccs);
      StillClosed(t.deps, doneSccs, id);
      assert doneSccs + missing == doneSccs + Closure(t.deps, id);
      LoadMissing(missing, store);
    }

    method LoadMissing(missing: set<SccId>, store: map<ModId, Hash>)
      requires Valid() && missing <= t.deps.Keys && missing !! doneSccs && DownClosed(t.deps, doneSccs + missing)
      requires ModulesOf(t, missing) <= store.Keys
      modifies this`doneSccs, this`ifaces, this`history
      ensures Valid() && doneSccs == old(doneSccs) + missing
      ensures history == old(history) + Picked(topOrder, missing)
      ensures ifaces == old(ifaces) + FromStore(store, ModulesOf(t, missing))
    {
      var sccsToLoad := Picked(topOrder, missing);
      PickedInOrder(t.deps, topOrder, history, doneSccs, missing);
      LoadUnits(sccsToLoad, store);
      assert doneSccs - missing == old(doneSccs);
      AllLoaded(t, doneSccs, missing, old(ifaces), store);
    }

    method LoadUnits(sccsToLoad: seq<SccId>, store: map<ModId, Hash>)
      requires IdSet(sccsToLoad) <= t.members.Keys && ModulesOf(t, IdSet(sccsToLoad)) <= store.Keys
      modifies this`doneSccs, this`ifaces, this`history
      ensures history == old(history) + sccsToLoad && doneSccs == old(doneSccs) + IdSet(sccsToLoad)
      ensures ifaces == old(ifaces) + FromStore(store, ModulesOf(t, IdSet(sccsToLoad)))
    {
      ghost var ifaces0 := ifaces;
      for k := 0 to |sccsToLoad|
        invariant history == old(history) + sccsToLoad[..k] && doneSccs == old(doneSccs) + IdSet(sccsToLoad[..k])
        invariant ifaces == ifaces0 + FromStore(store, ModulesOf(t, IdSet(sccsToLoad[..k])))
      {
        PrefixIds(sccsToLoad, k);
        assert sccsToLoad[k] in IdSet(sccsToLoad);
        MoreLoaded(t, store, ifaces0, IdSet(sccsToLoad), IdSet(sccsToLoad[..k]), sccsToLoad[k], ifaces);
        LoadUnit(sccsToLoad[k], store);
      }
      assert sccsToLoad[..|sccsToLoad|] == sccsToLoad;
    }

    /** Processes a stale unit, with the interfaces that checking it gives, after loading what it needs. */
    method ProcessStaleScc(id: SccId, store: map<ModId, Hash>, checked: map<ModId, Hash>)
      requires Valid() && id in t.deps && id !in doneSccs && checked.Keys == t.members[id]
      requires ModulesOf(t, Closure(t.deps, id) - doneSccs) <= store.Keys
      modifies this`doneSccs, this`ifaces, this`history
      ensures Valid() && doneSccs == old(doneSccs) + Closure(t.deps, id) + {id}
      ensures history == old(history) + Picked(topOrder, Closure(t.deps, id) - old(doneSccs)) + [id]
      ensures ifaces == old(ifaces) + FromStore(store, ModulesOf(t, Closure(t.deps, id) - old(doneSccs))) + checked
    {
      NeedsItsDeps(t.deps, id);
      MaybeLoadDeps(id, store);
      OrderExtends(t.deps, history, id);
      OneMore(t, doneSccs, id);
      doneSccs, history := doneSccs + {id}, history + [id];
      ifaces := ifaces + checked;
    }

    /**
     * In a build without workers, after the history tr of scheduling decisions: only units that were
     * declared fresh are loaded from the cache, all stale ones were processed before.
     */
    method ProcessInBuild(id: SccId, store: map<ModId, Hash>, checked: map<ModId, Hash>, ghost tr: seq<Event>)
      requires Valid() && id in t.deps && checked.Keys == t.members[id]
      requires Safe(t.deps, tr + [Finished(id)]) && Submitted(id) in tr && doneSccs == LoadedAfter(t.deps, tr)
      requires ModulesOf(t, Closure(t.deps, id) - doneSccs) <= store.Keys
      modifies this`doneSccs, this`ifaces, this`history
      ensures Valid() && doneSccs == LoadedAfter(t.deps, tr + [Finished(id)])
      ensures history == old(history) + Picked(topOrder, Closure(t.deps, id) - old(doneSccs)) + [id]
      ensures forall j | j in Closure(t.deps, id) - old(doneSccs) :: DeclaredFresh(j) in tr
    {
      OnlyFreshLoaded(t.deps, tr, id);
      LoadedStep(t.deps, tr, id);
      ProcessStaleScc(id, store, checked);
    }

    /**
     * In a worker, if the cache has the current interfaces of what the unit needs: when the unit has
     * been processed, the worker has the current interfaces of everything that its modules can reach.
     */
    method ProcessInWorker(id: SccId, store: map<ModId, Hash>, checked: map<ModId, Hash>,
        ghost imports: Imports, ghost current: map<ModId, Hash>)
      requires Valid() && ValidTable(imports, t) && id in t.deps && id !in doneSccs && checked.Keys == t.members[id]
      requires Knows(ifaces, current) && Knows(checked, current)
      requires forall m | m in ModulesOf(t, Closure(t.deps, id)) :: m in store && m in current && store[m] == current[m]
      modifies this`doneSccs, this`ifaces, this`history
      ensures Valid() && Knows(ifaces, current)
      ensures forall m | m in t.members[id] :: AgreeOn(ifaces, current, Closure(imports, m))
    {
      assert forall m | m in ModulesOf(t, Closure(t.deps, id) - doneSccs) :: m in ModulesOf(t, Closure(t.deps, id));
      ProcessStaleScc(id, store, checked);
      SeesClosure(imports, t, id, ifaces, current);
    }
  }

  // Which units are loaded in a build without workers.

  /** The units of which the build process has the trees, after the decisions and completions of tr. */
  ghost function LoadedAfter(deps: Graph<SccId>, tr: seq<Event>): set<SccId> {
    if tr == [] then {}
    else
      var before, last := tr[..|tr| - 1], tr[|tr| - 1];
      LoadedAfter(deps, before) +
      if last.Finished? && Submitted(last.scc) in before then Closure(deps, last.scc) + {last.scc} else {}
  }

  lemma LoadedStep(deps: Graph<SccId>, tr: seq<Event>, id: SccId)
    requires Submitted(id) in tr
    ensures LoadedAfter(deps, tr + [Finished(id)]) == LoadedAfter(deps, tr) + Closure(deps, id) + {id}
  {
    assert (tr + [Finished(id)])[..|tr|] == tr;
  }

  lemma SafePrefix(deps: Graph<SccId>, tr: seq<Event>, k: nat)
    requires Safe(deps, tr) && k <= |tr|
    ensures Safe(deps, tr[..k])
  {
    forall j | 0 <= j < k
      ensures StepOk(deps, tr[..k][..j], tr[..k][j])
    {
      assert tr[..k][..j] == tr[..j];
    }
  }

  /** What has finished is closed under dependencies, and so is what had finished when a unit was decided. */
  lemma FinishedClosed(deps: Graph<SccId>, tr: seq<Event>)
    requires Safe(deps, tr)
    ensures DownClosed(deps, FinishedIn(tr))
  {
    forall i | i in FinishedIn(tr)
      ensures i in deps && deps[i] <= FinishedIn(tr)
    {
      var k :| 0 <= k < |tr| && tr[k] == Finished(i);
      assert StepOk(deps, tr[..k], tr[k]);
      DecidedDeps(deps, tr[..k], tr, i, k);
    }
  }

  lemma DecidedDeps(deps: Graph<SccId>, before: seq<Event>, tr: seq<Event>, i: SccId, k: nat)
    requires Safe(deps, tr) && k <= |tr| && before == tr[..k] && i in DecidedIn(before)
    ensures i in deps && deps[i] <= FinishedIn(tr)
  {
    var e :| e in before && !e.Finished? && e.scc == i;
    var j :| 0 <= j < |before| && before[j] == e;
    assert StepOk(deps, tr[..j], tr[j]);
    assert FinishedIn(tr[..j]) <= FinishedIn(tr);
  }

  lemma {:induction false} LoadedFinished(deps: Graph<SccId>, tr: seq<Event>)
    requires Closed(deps) && Safe(deps, tr)
    ensures LoadedAfter(deps, tr) <= FinishedIn(tr)
  {
    if tr != [] {
      var before, last := tr[..|tr| - 1], tr[|tr| - 1];
      SafePrefix(deps, tr, |tr| - 1);
      LoadedFinished(deps, before);
      assert FinishedIn(before) <= FinishedIn(tr);
      if last.Finished? {
        assert last.scc in FinishedIn(tr);
        FinishedClosed(deps, tr);
        ClosureLeast(deps, last.scc, FinishedIn(tr));
      }
    }
  }

  lemma WasDecided(deps: Graph<SccId>, tr: seq<Event>, i: SccId)
    requires Safe(deps, tr) && Finished(i) in tr
    ensures DeclaredFresh(i) in tr || Submitted(i) in tr
    ensures i in DecidedIn(tr)
  {
    var k :| 0 <= k < |tr| && tr[k] == Finished(i);
    assert StepOk(deps, tr[..k], tr[k]);
    var e :| e in tr[..k] && !e.Finished? && e.scc == i;
    assert e == DeclaredFresh(i) || e == Submitted(i);
  }

  /** A stale unit that has finished is loaded. */
  lemma {:induction false} StaleLoaded(deps: Graph<SccId>, tr: seq<Event>, i: SccId)
    requires Safe(deps, tr) && Submitted(i) in tr && Finished(i) in tr
    ensures i in LoadedAfter(deps, tr)
  {
    var before, last := tr[..|tr| - 1], tr[|tr| - 1];
    SafePrefix(deps, tr, |tr| - 1);
    assert tr == before + [last];
    assert StepOk(deps, before, last);
    if last == Submitted(i) {
      WasDecided(deps, before, i);
      assert false;
    } else if last != Finished(i) {
      StaleLoaded(deps, before, i);
    }
  }

  /** What a stale unit needs and is not loaded was declared fresh. */
  lemma OnlyFreshLoaded(deps: Graph<SccId>, tr: seq<Event>, id: SccId)
    requires Closed(deps) && Safe(deps, tr + [Finished(id)]) && Submitted(id) in tr
    ensures id !in LoadedAfter(deps, tr)
    ensures forall j | j in Closure(deps, id) - LoadedAfter(deps, tr) :: DeclaredFresh(j) in tr
  {
    var all := tr + [Finished(id)];
    SafePrefix(deps, all, |tr|);
    assert all[..|tr|] == tr && StepOk(deps, tr, all[|tr|]);
    LoadedFinished(deps, tr);
    FinishedClosed(deps, tr);
    DecidedDeps(deps, tr, tr, id, |tr|);
    ClosureLeast(deps, id, FinishedIn(tr));
    forall j | j in Closure(deps, id) - LoadedAfter(deps, tr)
      ensures DeclaredFresh(j) in tr
    {
      assert j in FinishedIn(tr);
      WasDecided(deps, tr, j);
      if Submitted(j) in tr {
        StaleLoaded(deps, tr, j);
      }
    }
  }

  // What a worker sees.

  ghost predicate Knows(ifaces: map<ModId, Hash>, current: map<ModId, Hash>) {
    forall m | m in ifaces :: m in current && ifaces[m] == current[m]
  }

  lemma SeesClosure(imports: Imports, t: Table, id: SccId, ifaces: map<ModId, Hash>, current: map<ModId, Hash>)
    requires ValidTable(imports, t) && id in t.members && ModulesOf(t, Closure(t.deps, id) + {id}) <= ifaces.Keys
    requires Knows(ifaces, current)
    ensures forall m | m in t.members[id] :: AgreeOn(ifaces, current, Closure(imports, m))
  {
    forall m, d | m in t.members[id] && d in Closure(imports, m)
      ensures d in ifaces
    {
      assert m in t.of && t.of[m] == id;
      ModulesReachUnitsReach(imports, t, m, d);
      assert d in t.members[t.of[d]];
    }
  }
}
