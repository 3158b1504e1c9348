// The build manager: deciding which import cycles can be served from cache, submitting the stale
// ones, and processing the whole graph in dependency order.
module Build {
  import opened Text
  import opened Reach
  import opened ImportHash
  import opened Incremental
  import opened SccTable
  import opened Progress
  import opened Records
  import opened DepCache
  import opened Results
  import opened Rounds
  import opened Schedule
  import opened Trace
  import opened Workers

  /** An import cycle. Only the count of unfinished dependencies changes during a build. */
  class Scc {
    const id: SccId
    const modIds: set<ModId>
    const deps: set<SccId>
    const directDependents: seq<SccId>
    const sizeHint: nat
    var notReadyCount: int

    constructor (id: SccId, modIds: set<ModId>, deps: set<SccId>, directDependents: seq<SccId>, sizeHint: nat)
      ensures this.id == id && this.modIds == modIds && this.deps == deps
      ensures this.directDependents == directDependents && this.sizeHint == sizeHint
      ensures notReadyCount == |deps|
    {
      this.id, this.modIds, this.deps := id, modIds, deps;
      this.directDependents, this.sizeHint := directDependents, sizeHint;
      notReadyCount := |deps|;
    }
  }

  /** The object stands for unit i, and lists the units that depend on it. */
  ghost predicate Represents(c: Scc, t: Table, i: SccId)
    requires i in t.members && i in t.deps
  {
    && c.id == i && c.modIds == t.members[i] && c.deps == t.deps[i]
    && Distinct(c.directDependents)
    && forall j :: j in c.directDependents <==> j in t.deps && i in t.deps[j]
  }

  class BuildManager {
    ghost const s: Setting
    ghost const prog: Program
    ghost const t: Table
    const solve: Solver
    const sccs: set<Scc>
    const sccById: map<SccId, Scc>
    const sccByModId: map<ModId, Scc>
    const topOrder: seq<SccId>
    const memo: TransitiveDeps
    /** The build workers; none when units are processed in this process. */
    const pool: WorkerPool
    /** Which interface hashes a worker records for the modules of its own copy of the graph. */
    const workerView: (ModId, map<ModId, Hash>) -> map<ModId, Hash>
    /** Which writes of metadata succeed. */
    const writes: (ModId, Meta) -> bool
    ghost const lossless: bool
    /** The states that the build was given, and the cache at that time. */
    ghost const loaded: map<ModId, State>
    ghost const store0: map<ModId, Meta>

    /** The units submitted for processing in this process. */
    var localQueue: seq<SccId>
    var graph: map<ModId, State>
    var flushed: map<ModId, seq<Str>>
    var metastore: map<ModId, Meta>
    ghost var completed: set<SccId>
    ghost var outcomes: map<ModId, Outcome>

    /** The objects of the build are wired up as the table of units says. */
    ghost predicate Wiring() {
      && Setup(s, prog, t, solve)
      && sccById.Keys == t.members.Keys && t.members.Keys == t.deps.Keys
      && (forall i {:trigger SccMatches(sccById[i], i)} | i in sccById :: SccMatches(sccById[i], i))
      && sccByModId.Keys == t.of.Keys
      && (forall m {:trigger sccByModId[m]} | m in sccByModId ::
         t.of[m] in sccById && sccByModId[m] == sccById[t.of[m]])
      && memo.deps == t.deps && lossless == NeverFails(writes)
    }

    ghost predicate SccMatches(c: Scc, i: SccId)
      requires i in t.members && i in t.deps
    {
      c in sccs && Represents(c, t, i)
    }

    /** Complete units have their final results, and the cache holds only genuine entries. */
    ghost predicate Data()
      requires Setup(s, prog, t, solve)
      reads this`graph, this`metastore, this`completed, this`outcomes
    {
      Stage(s, prog, t, solve, completed, outcomes, graph) && StoreOk(s, metastore)
    }

    /** The modules whose errors a worker has yet to report. */
    ghost function HeldMods(): set<ModId>
      reads pool`holder
    {
      pool.holder.Keys
    }

    /** If no write fails, the cache holds what has been found out about the complete modules. */
    ghost predicate Recording()
      requires ValidProgram(prog)
      reads this`graph, this`metastore, this`outcomes, pool`holder
    {
      lossless ==> Unkept(prog, loaded, store0, graph, metastore, outcomes, HeldMods()) == {}
    }

    /** A manager for the loaded graph of prog, grouped into the units of t, with the cache of earlier builds. */
    constructor (ghost s: Setting, ghost prog: Program, ghost t: Table, solve: Solver, pool: WorkerPool,
        workerView: (ModId, map<ModId, Hash>) -> map<ModId, Hash>, writes: (ModId, Meta) -> bool, sccs: set<Scc>,
        sccById: map<SccId, Scc>, sccByModId: map<ModId, Scc>, topOrder: seq<SccId>, graph: map<ModId, State>,
        metastore: map<ModId, Meta>)
      requires ValidSetting(s) && Covers(s, prog) && ValidTable(prog.imports, t)
      requires forall i | i in sccById :: i in t.deps && sccById[i].deps == t.deps[i]
      requires sccById.Keys == t.members.Keys
      ensures this.s == s && this.prog == prog && this.t == t && this.solve == solve && this.pool == pool
      ensures this.sccs == sccs && this.sccById == sccById && this.sccByModId == sccByModId && this.topOrder == topOrder
      ensures this.workerView == workerView && this.writes == writes && lossless == NeverFails(writes)
      ensures loaded == graph && store0 == metastore
      ensures this.graph == graph && this.metastore == metastore && flushed == map[] && localQueue == []
      ensures completed == {} && outcomes == map[]
      ensures fresh(memo) && memo.Valid() && memo.deps == t.deps
    {
      this.s, this.prog, this.t, this.solve, this.pool, this.workerView := s, prog, t, solve, pool, workerView;
      this.sccs, this.sccById, this.sccByModId, this.topOrder := sccs, sccById, sccByModId, topOrder;
      this.writes, lossless, loaded, store0 := writes, NeverFails(writes), graph, metastore;
      this.graph, this.metastore, flushed, localQueue := graph, metastore, map[], [];
      completed, outcomes := {}, map[];
      TableAcyclic(prog.imports, t);
      var deps := map i | i in sccById :: sccById[i].deps;
      assert deps == t.deps;
      memo := new TransitiveDeps(deps);
    }

    // Deciding which units are fresh.

    /** Each module's unit can be looked up, and the memo is about the units' dependencies. */
    ghost predicate Wired() {
      && memo.deps == t.deps
      && forall m | m in t.of :: m in sccByModId && sccByModId[m].id == t.of[m] && t.of[m] in t.deps
    }

    lemma WiringWired()
      requires Wiring()
      ensures Wired()
    {
      forall m | m in t.of
        ensures m in sccByModId && sccByModId[m].id == t.of[m] && t.of[m] in t.deps
      {
        assert sccByModId[m] == sccById[t.of[m]];
        assert SccMatches(sccById[t.of[m]], t.of[m]);
      }
    }

    /** The first indirect dependency of a module that its unit no longer reaches, if there is one. */
    method VerifyModule(asccId: SccId, st: State) returns (bad: Option<ModId>)
      requires Wired() && memo.Valid()
      requires asccId in t.deps && ToSet(st.dependencies) <= t.of.Keys
      modifies memo
      ensures memo.Valid()
      ensures bad.None? <==> IndirectVerified(t, asccId, st)
    {
      for k := 0 to |st.dependencies|
        invariant memo.Valid()
        invariant forall j | 0 <= j < k && IsIndirect(st.priorities, st.dependencies[j]) ::
                    t.of[st.dependencies[j]] == asccId || Reaches(t.deps, asccId, t.of[st.dependencies[j]])
      {
        var dep := st.dependencies[k];
        assert dep in ToSet(st.dependencies);
        if IsIndirect(st.priorities, dep) {
          var depSccId := sccByModId[dep].id;
          if depSccId != asccId {
            var reachable := memo.IsTransitiveSccDep(asccId, depSccId);
            if !reachable {
              return Some(dep);
            }
          }
        }
      }
      bad := None;
    }

    /** The import structure of the module is as recorded, or all its indirect dependencies are reachable. */
    ghost predicate StructureOk(asccId: SccId, st: State)
      requires st.meta.Some?
    {
      st.transHash == st.meta.value.transHash || IndirectVerified(t, asccId, st)
    }

    /** The first indirect dependency that is no longer reachable through direct ones, if there is one. */
    method VerifyTransitiveDeps(ascc: Scc) returns (bad: Option<ModId>)
      requires Wired() && memo.Valid() && ascc.id in t.deps
      requires forall m | m in ascc.modIds ::
               m in graph && graph[m].meta.Some? && ToSet(graph[m].dependencies) <= t.of.Keys
      modifies memo
      ensures memo.Valid()
      ensures bad.None? <==> forall m | m in ascc.modIds :: StructureOk(ascc.id, graph[m])
    {
      var ids := ascc.modIds;
      while ids != {}
        invariant memo.Valid()
        invariant ids <= ascc.modIds
        invariant forall m | m in ascc.modIds - ids :: StructureOk(ascc.id, graph[m])
        decreases ids
      {
        var id :| id in ids;
        ids := ids - {id};
        var st := graph[id];
        if st.transHash == st.meta.value.transHash {
          continue;
        }
        bad := VerifyModule(ascc.id, st);
        if bad.Some? {
          return;
        }
      }
      bad := None;
    }

    /** Whether the cache can be used for every module of the unit. */
    method CheckFresh(ascc: Scc) returns (isFresh: bool)
      requires Wired() && memo.Valid() && ascc.id in t.members && ascc.id in t.deps && ascc.modIds == t.members[ascc.id]
      requires forall m | m in ascc.modIds :: m in graph && ToSet(graph[m].dependencies) <= t.of.Keys
      modifies memo
      ensures memo.Valid()
      ensures isFresh <==> FreshUnit(t, graph, ascc.id)
      ensures isFresh <==>
              forall m | m in ascc.modIds ::
                && m in graph && graph[m].meta.Some?
                && graph[m].dependencies == graph[m].meta.value.dependencies
                && graph[m].suppressedOpts == graph[m].meta.value.suppressedOpts
                && (forall d | d in graph[m].depHashes && d in graph :: graph[m].depHashes[d] == graph[d].iface)
                && (graph[m].transHash == graph[m].meta.value.transHash
                    || forall d | d in graph[m].dependencies && d in graph[m].priorities
                                  && graph[m].priorities[d] == 30 ::
                         d in t.of && (t.of[d] == ascc.id || Reaches(t.deps, ascc.id, t.of[d])))
    {
      isFresh := CheckModules(ascc);
      UnchangedIffFresh(t, graph, ascc.id);
    }

    /** Whether every module of the unit passes the tests. */
    method CheckModules(ascc: Scc) returns (isFresh: bool)
      requires Wired() && memo.Valid() && ascc.id in t.members && ascc.id in t.deps && ascc.modIds == t.members[ascc.id]
      requires forall m | m in ascc.modIds :: m in graph && ToSet(graph[m].dependencies) <= t.of.Keys
      modifies memo
      ensures memo.Valid()
      ensures isFresh <==> FreshUnit(t, graph, ascc.id)
    {
      var staleScc := set id | id in ascc.modIds && !IsFresh(graph[id]);
      isFresh := staleScc == {};
      var staleDeps := set id, dep | id in ascc.modIds && dep in graph[id].depHashes && dep in graph
                                     && graph[dep].iface != graph[id].depHashes[dep] :: dep;
      if isFresh {
        assert forall m | m in ascc.modIds :: m !in staleScc;
      } else {
        var m :| m in staleScc;
        assert !FreshModule(t, graph, ascc.id, m);
      }
      if staleDeps != {} {
        var dep :| dep in staleDeps;
        ghost var id :| id in ascc.modIds && dep in graph[id].depHashes && dep in graph
                        && graph[dep].iface != graph[id].depHashes[dep];
        assert !FreshModule(t, graph, ascc.id, id);
        isFresh := false;
      }
      if isFresh {
        var staleIndirect := VerifyTransitiveDeps(ascc);
        isFresh := staleIndirect.None?;
        forall m | m in ascc.modIds
          ensures FreshModule(t, graph, ascc.id, m) <==> StructureOk(ascc.id, graph[m])
        {
          assert m !in staleScc;
          forall d | d in graph[m].depHashes && d in graph
            ensures graph[d].iface == graph[m].depHashes[d]
          {
            assert d !in staleDeps;
          }
        }
      }
    }

    /** Shows the errors that earlier builds recorded for the modules of a fresh unit. */
    method FlushCached(ascc: Scc)
      requires ascc.modIds <= graph.Keys
      modifies this`flushed
      ensures flushed == old(flushed) + RecordedErrors(graph, ascc.modIds)
    {
      var ids := ascc.modIds;
      while ids != {}
        invariant ids <= ascc.modIds
        invariant flushed == old(flushed) + RecordedErrors(graph, ascc.modIds - ids)
        decreases ids
      {
        var id :| id in ids;
        RecordedErrorsUnion(graph, old(flushed), ascc.modIds - ids, {id});
        RecordedErrorsOne(graph, flushed, id);
        assert (ascc.modIds - ids) + {id} == ascc.modIds - (ids - {id});
        ids := ids - {id};
        if graph[id].errorLines != [] {
          flushed := flushed[id := graph[id].errorLines];
        }
      }
      assert ascc.modIds - ids == ascc.modIds;
    }

    /** What the freshness test of a unit relies on. */
    ghost predicate Checkable(id: SccId)
      reads this`graph
    {
      && id in t.members && id in t.deps && id in sccById
      && sccById[id].id == id && sccById[id].modIds == t.members[id]
      && forall m | m in t.members[id] :: m in graph && ToSet(graph[m].dependencies) <= t.of.Keys
    }

    /** Splits a list of ready units into stale and fresh, showing the cached errors of the fresh ones. */
    method FindStaleSccs(sccs: seq<SccId>) returns (stale: seq<SccId>, cached: seq<SccId>)
      requires Wired() && memo.Valid() && Distinct(sccs)
      requires forall id | id in sccs :: Checkable(id)
      modifies memo, this`flushed
      ensures memo.Valid()
      ensures SplitOf(sccs, stale, cached)
      ensures AllFresh(t, graph, IdSet(cached)) && AllStale(t, graph, stale)
      ensures forall i | i in sccs && i in t.members :: i in cached <==>
                forall m | m in t.members[i] ::
                  && m in graph && graph[m].meta.Some?
                  && graph[m].dependencies == graph[m].meta.value.dependencies
                  && graph[m].suppressedOpts == graph[m].meta.value.suppressedOpts
                  && (forall d | d in graph[m].depHashes && d in graph :: graph[m].depHashes[d] == graph[d].iface)
                  && (graph[m].transHash == graph[m].meta.value.transHash
                      || forall d | d in graph[m].dependencies && d in graph[m].priorities
                                    && graph[m].priorities[d] == 30 ::
                           d in t.of && (t.of[d] == i || Reaches(t.deps, i, t.of[d])))
      ensures flushed == old(flushed) + RecordedErrors(graph, ModulesOf(t, IdSet(cached)))
    {
      stale, cached := [], [];
      for k := 0 to |sccs|
        invariant memo.Valid()
        invariant SplitOf(sccs[..k], stale, cached)
        invariant AllFresh(t, graph, IdSet(cached)) && AllStale(t, graph, stale)
        invariant flushed == old(flushed) + RecordedErrors(graph, ModulesOf(t, IdSet(cached)))
      {
        var id := sccs[k];
        SplitNext(sccs, k, stale, cached);
        assert Checkable(id);
        var isFresh := CheckFresh(sccById[id]);
        if isFresh {
          FlushCached(sccById[id]);
          OneMoreRecorded(t, graph, old(flushed), cached, id);
          OneMoreFresh(t, graph, cached, id);
          cached := cached + [id];
        } else {
          stale := stale + [id];
        }
      }
      assert sccs[..|sccs|] == sccs;
      CachedAreUnchanged(sccs, stale, cached);
    }

    lemma CachedAreUnchanged(sccs: seq<SccId>, stale: seq<SccId>, cached: seq<SccId>)
      requires SplitOf(sccs, stale, cached) && forall i | i in sccs :: Checkable(i)
      requires AllFresh(t, graph, IdSet(cached)) && AllStale(t, graph, stale)
      ensures forall i | i in sccs && i in t.members :: i in cached <==>
                forall m | m in t.members[i] ::
                  && m in graph && graph[m].meta.Some?
                  && graph[m].dependencies == graph[m].meta.value.dependencies
                  && graph[m].suppressedOpts == graph[m].meta.value.suppressedOpts
                  && (forall d | d in graph[m].depHashes && d in graph :: graph[m].depHashes[d] == graph[d].iface)
                  && (graph[m].transHash == graph[m].meta.value.transHash
                      || forall d | d in graph[m].dependencies && d in graph[m].priorities
                                    && graph[m].priorities[d] == 30 ::
                           d in t.of && (t.of[d] == i || Reaches(t.deps, i, t.of[d])))
    {
      forall i | i in sccs
        ensures Checkable(i) && (i in cached <==> FreshUnit(t, graph, i))
      {
        if i in cached {
          assert i in IdSet(cached);
        }
      }
      forall i | i in sccs && i in t.members {
        UnchangedIffFresh(t, graph, i);
      }
    }

    lemma ReadyCheckable(ids: seq<SccId>)
      requires Wiring() && Data() && ReadyUnits(t, completed, IdSet(ids))
      ensures Wired() && forall id | id in ids :: Checkable(id)
    {
      WiringWired();
      StageStates(s, prog, t, solve, completed, outcomes, graph, IdSet(ids));
      forall id | id in ids
        ensures Checkable(id)
      {
        assert id in IdSet(ids) && SccMatches(sccById[id], id);
        forall m | m in t.members[id]
          ensures m in graph && ToSet(graph[m].dependencies) <= t.of.Keys
        {
          assert m in ModulesOf(t, IdSet(ids));
          assert Untouched(s, prog, m, graph[m]);
        }
      }
    }

    // Processing stale units.

    /** Records interface hashes and shows errors reported for modules. */
    method ProcessResults(results: map<ModId, ModuleResult>, ghost news: map<ModId, Outcome>)
      requires results.Keys <= graph.Keys
      requires ReportsInterfaces(results, news)
      modifies this`graph, this`flushed
      ensures graph == WithIfaces(old(graph), news)
      ensures flushed == old(flushed) + ReportedErrors(results)
    {
      var ids := results.Keys;
      while ids != {}
        invariant ids <= results.Keys
        invariant IfacesSet(old(graph), graph, news, ids)
        invariant ErrorsSet(old(flushed), flushed, results, ids)
        decreases ids
      {
        var id :| id in ids;
        IfaceStep(old(graph), graph, news, ids, id);
        ErrorStep(old(flushed), flushed, results, ids, id);
        match results[id] {
          case InterfaceResult(hash) =>
            if hash != graph[id].iface {
              graph := graph[id := graph[id].(iface := hash)];
            }
          case ErrorsResult(lines) =>
            flushed := flushed[id := lines];
        }
        ids := ids - {id};
      }
      AllSet(old(graph), graph, news, old(flushed), flushed, results);
    }

    /**
     * Adds the indirect dependencies that a check found to the state of its module: those not listed
     * before come last, sorted and marked, and nothing is removed or marked differently.
     */
    method PatchIndirectDependencies(st: State, o: Outcome) returns (r: State)
      ensures r == Patched(st, o)
      ensures Appended(st, o.indirect - ToSet(st.dependencies), r)
      ensures ToSet(r.dependencies) == ToSet(st.dependencies) + o.indirect
      ensures DirectOf(r.dependencies, r.priorities) == DirectOf(st.dependencies, st.priorities)
    {
      PatchedDeps(st, o);
      PatchedAppended(st, o);
      var found := o.indirect - set d | d in st.dependencies;
      assert found == o.indirect - ToSet(st.dependencies);
      var encountered := SortSet(found);
      r := st.(dependencies := st.dependencies + encountered, priorities := Marked(st.priorities, found),
          iface := o.iface);
    }

    /**
     * Stores the metadata of a checked module; hashes are the interface hashes known to the process
     * that writes it. A write may fail, which leaves any older entry in place.
     */
    method WriteCacheMeta(id: ModId, st: State, o: Outcome, hashes: map<ModId, Hash>) returns (written: bool)
      requires StoreOk(s, metastore)
      requires EntryOk(s, id, Entry(st, o, hashes))
      modifies this`metastore
      ensures StoreOk(s, metastore)
      ensures written == writes(id, Entry(st, o, hashes))
      ensures metastore == if written then old(metastore)[id := Entry(st, o, hashes)] else old(metastore)
    {
      var p := PatchIndirectDependencies(st, o);
      var e := Meta(p.source, p.dependencies, p.priorities, HashesOf(p.dependencies, hashes),
                    p.suppressedOpts, o.iface, p.transHash, o.errors);
      written := writes(id, e);
      if written {
        StoreGrows(s, metastore, id, e);
        metastore := metastore[id := e];
      }
    }

    /** Stores the metadata of modules checked in this process, and updates their states. */
    method FinishModules(outs: map<ModId, Outcome>)
      requires StoreOk(s, metastore)
      requires Writable(s, graph, outs, GraphIfaces(graph))
      modifies this`metastore, this`graph
      ensures StoreOk(s, metastore)
      ensures metastore == StoreAll(writes, old(metastore), Entries(old(graph), outs, GraphIfaces(old(graph))), {})
      ensures graph == PatchAll(old(graph), outs, {})
    {
      var ids := outs.Keys;
      var hashes := map m | m in graph :: graph[m].iface;
      assert hashes == GraphIfaces(graph);
      ghost var entries := Entries(graph, outs, hashes);
      PatchNone(graph, outs);
      StoreNone(writes, metastore, entries);
      while ids != {}
        invariant ids <= outs.Keys
        invariant StoreOk(s, metastore)
        invariant graph == PatchAll(old(graph), outs, ids)
        invariant metastore == StoreAll(writes, old(metastore), entries, ids)
        decreases ids
      {
        var id :| id in ids;
        PatchOne(old(graph), outs, ids, id);
        StoreOne(writes, old(metastore), entries, ids, id);
        assert EntryOk(s, id, Entry(old(graph)[id], outs[id], hashes));
        FinishModule(id, outs[id], hashes);
        ids := ids - {id};
      }
    }

    method FinishModule(id: ModId, o: Outcome, hashes: map<ModId, Hash>)
      requires StoreOk(s, metastore) && id in graph
      requires EntryOk(s, id, Entry(graph[id], o, hashes))
      modifies this`metastore, this`graph
      ensures StoreOk(s, metastore)
      ensures var e := Entry(old(graph)[id], o, hashes);
              metastore == if writes(id, e) then old(metastore)[id := e] else old(metastore)
      ensures graph == old(graph)[id := Patched(old(graph)[id], o)]
    {
      var written := WriteCacheMeta(id, graph[id], o, hashes);
      var p := PatchIndirectDependencies(graph[id], o);
      graph := graph[id := p];
    }

    /** Processes the modules of one unit from source: interfaces first, then function bodies. */
    method ProcessStaleScc(id: SccId) returns (ghost outs: map<ModId, Outcome>)
      requires id in sccById && StoreOk(s, metastore)
      requires UnitWritable(s, solve, graph, sccById[id].modIds)
      modifies this`graph, this`metastore, this`flushed
      ensures outs == solve(sccById[id].modIds, GraphIfaces(old(graph)))
      ensures StoreOk(s, metastore)
      ensures metastore == StoreAll(writes, old(metastore), UnitEntries(old(graph), outs), {})
      ensures graph == PatchAll(WithIfaces(old(graph), outs), outs, {})
      ensures flushed == old(flushed) + ErrorsOf(outs)
    {
      var ascc := sccById[id];
      var ifaces := map m | m in graph :: graph[m].iface;
      assert ifaces == GraphIfaces(graph);
      var checked := solve(ascc.modIds, ifaces);
      outs := checked;
      var interfaces := InterfaceResults(checked);
      InterfaceResultsReport(checked, flushed);
      ProcessResults(interfaces, checked);
      FinishModules(checked);
      ErrorResultsReport(checked, graph);
      ProcessResults(ErrorResults(checked), map[]);
    }

    // Submitting units and waiting for them.

    /** The units submitted but not complete. */
    ghost function Pending(): set<SccId>
      reads this`localQueue, pool
    {
      if pool.num == 0 then IdSet(localQueue) else pool.where.Keys
    }

    ghost predicate QueuesOk()
      reads this`localQueue, this`outcomes, pool, pool.queue
    {
      && Distinct(localQueue)
      && pool.Valid() && JobsKnown(pool.busy, outcomes) && (pool.queue.items == [] || pool.free == {})
    }

    /** There is something to wait for. */
    predicate Working()
      reads this`localQueue, pool, pool.queue
    {
      if pool.num == 0 then localQueue != [] else pool.HasWork()
    }

    /** Submits stale units for processing in this process or by the workers. */
    method Submit(stale: seq<SccId>)
      requires QueuesOk() && Distinct(stale) && IdSet(stale) !! Pending()
      requires IdSet(stale) <= sccById.Keys
      modifies this`localQueue, pool, pool.queue
      ensures QueuesOk() && Pending() == old(Pending()) + IdSet(stale) && HeldMods() == old(HeldMods())
    {
      forall i | i in stale
        ensures i in sccById && i !in Pending()
      {
        assert i in IdSet(stale);
      }
      if pool.num > 0 {
        ghost var before := pool.busy;
        ghost var queued, sent := pool.SubmitToWorkers(stale, map i | i in stale :: sccById[i].sizeHint);
        StartedJobsKnown(before, pool.busy, outcomes);
      } else {
        AppendDistinct(localQueue, stale);
        localQueue := localQueue + stale;
      }
    }

    /** Waits for the next unit of the local queue, which is processed now. */
    method WaitForDoneLocal() returns (done: seq<SccId>)
      requires localQueue != [] && Distinct(localQueue)
      requires Wiring() && Data() && ReadyUnits(t, completed, IdSet(localQueue))
      requires ErrorsShown(outcomes, flushed, {}) && Recording() && HeldMods() == {}
      modifies this`localQueue, this`graph, this`metastore, this`flushed, this`completed, this`outcomes
      ensures done == [old(localQueue)[0]] && localQueue == old(localQueue)[1..]
      ensures Data() && completed == old(completed) + {done[0]}
      ensures ErrorsShown(outcomes, flushed, {}) && Recording()
    {
      var next := localQueue[0];
      ghost var outcomes0, flushed0 := outcomes, flushed;
      assert ErrorsShown(outcomes0, flushed0, {});
      NextStale(localQueue, next);
      NextKept(localQueue, next);
      localQueue, done := localQueue[1..], [next];
      ghost var outs := ProcessStaleScc(next);
      ShownStale(outcomes0, flushed0, outs, outcomes0 + outs, flushed);
      completed, outcomes := completed + {next}, outcomes + outs;
    }

    /** A ready unit can be processed, and how far the build is then. */
    lemma NextStale(queue: seq<SccId>, next: SccId)
      requires Wiring() && Data() && ReadyUnits(t, completed, IdSet(queue)) && next in queue
      ensures next in sccById && UnitWritable(s, solve, graph, sccById[next].modIds)
      ensures var outs := solve(sccById[next].modIds, GraphIfaces(graph));
              Stage(s, prog, t, solve, completed + {next}, outcomes + outs, PatchAll(WithIfaces(graph, outs), outs, {}))
    {
      assert next in IdSet(queue) && SccMatches(sccById[next], next);
      assert ReadyUnits(t, completed, {next});
      StaleStage(s, prog, t, solve, completed, outcomes, graph, next);
    }

    /** The cache after a ready unit has been processed. */
    lemma NextKept(queue: seq<SccId>, next: SccId)
      requires Wiring() && Data() && ReadyUnits(t, completed, IdSet(queue)) && next in queue
      requires Recording() && HeldMods() == {}
      ensures next in sccById
      ensures var outs := solve(sccById[next].modIds, GraphIfaces(graph));
              lossless ==> Unkept(prog, loaded, store0, PatchAll(WithIfaces(graph, outs), outs, {}),
                                  StoreAll(writes, metastore, UnitEntries(graph, outs), {}), outcomes + outs, {}) == {}
    {
      assert next in IdSet(queue) && SccMatches(sccById[next], next);
      assert ReadyUnits(t, completed, {next});
      var outs := solve(sccById[next].modIds, GraphIfaces(graph));
      if lossless {
        NoneUnkept(prog, loaded, store0, graph, metastore, outcomes, {});
        StaleKept(s, prog, t, solve, completed, outcomes, graph, next, loaded, store0, metastore, writes);
        NoneUnkept(prog, loaded, store0, PatchAll(WithIfaces(graph, outs), outs, {}),
                   StoreAll(writes, metastore, UnitEntries(graph, outs), {}), outcomes + outs, {});
      }
    }

    /** Each of these units can be looked up, and processing it now yields its modules. */
    ghost predicate Solvable(id: SccId)
      reads this`graph
    {
      && id in t.members && id in sccById && sccById[id].modIds == t.members[id]
      && solve(t.members[id], GraphIfaces(graph)).Keys == t.members[id]
    }

    lemma ReadySolvable(ids: seq<SccId>)
      requires Wiring() && Data() && ReadyUnits(t, completed, IdSet(ids))
      ensures DisjointUnits(t) && forall id | id in ids :: Solvable(id)
    {
      UnitsDisjoint(prog.imports, t);
      forall id | id in ids
        ensures Solvable(id)
      {
        assert id in IdSet(ids) && SccMatches(sccById[id], id);
        assert SolvedUnit(s.check, prog, t, id, GraphIfaces(graph), solve(t.members[id], GraphIfaces(graph)));
      }
    }

    /** A worker checks the interfaces of the units in its batch. */
    method CheckBatch(batch: seq<SccId>) returns (outs: map<ModId, Outcome>)
      requires Distinct(batch) && DisjointUnits(t) && forall id | id in batch :: Solvable(id)
      ensures NewsSolved(t, solve, graph, IdSet(batch), outs)
    {
      outs := map[];
      var ifaces := map m | m in graph :: graph[m].iface;
      assert ifaces == GraphIfaces(graph);
      for k := 0 to |batch|
        invariant NewsSolved(t, solve, graph, IdSet(batch[..k]), outs)
      {
        var id := batch[k];
        NextDistinct(batch, k);
        assert Solvable(id);
        var more := solve(sccById[id].modIds, ifaces);
        OneUnitSolved(t, solve, graph, id, more);
        NewsUnion(t, solve, graph, IdSet(batch[..k]), outs, {id}, more);
        outs := outs + more;
      }
      assert batch[..|batch|] == batch;
    }

    /** The entries a worker stores for these modules, with the hashes it knows, are genuine. */
    ghost predicate WorkerWritable(outs: map<ModId, Outcome>)
      reads this`graph
    {
      && outs.Keys <= graph.Keys
      && forall m {:trigger workerView(m, GraphIfaces(graph))} | m in outs ::
           EntryOk(s, m, Entry(graph[m], outs[m], workerView(m, GraphIfaces(graph))))
    }

    /** A worker knows the current interface hashes of everything a module can reach. */
    ghost predicate WorkersSeeInterfaces() {
      forall m, ifaces {:trigger workerView(m, ifaces)} | m in prog.imports ::
        AgreeOn(workerView(m, ifaces), ifaces, ifaces.Keys * Closure(prog.imports, m))
    }

    lemma KnownWritable(outs: map<ModId, Outcome>)
      requires Wiring() && Data() && WorkersSeeInterfaces()
      requires OutsKnown(outs, outcomes)
      ensures WorkerWritable(outs)
    {
      forall m | m in outs
        ensures m in graph && EntryOk(s, m, Entry(graph[m], outs[m], workerView(m, GraphIfaces(graph))))
      {
        var hashes := workerView(m, GraphIfaces(graph));
        assert m in prog.imports;
        StageEntry(s, prog, t, solve, completed, outcomes, graph, m, hashes);
      }
    }

    /** A worker stores the metadata of the modules whose bodies it has checked. */
    method WriteFromWorker(outs: map<ModId, Outcome>)
      requires StoreOk(s, metastore) && WorkerWritable(outs)
      modifies this`metastore
      ensures StoreOk(s, metastore)
      ensures metastore == StoreAll(writes, old(metastore), WorkerEntries(graph, outs, workerView), {})
    {
      var ifaces := map m | m in graph :: graph[m].iface;
      assert ifaces == GraphIfaces(graph);
      ghost var entries := WorkerEntries(graph, outs, workerView);
      WorkerEntriesHave(graph, outs, workerView);
      forall m | m in outs
        ensures WritesEntry(m, graph[m], outs[m], ifaces, entries)
      {
        var hashes := workerView(m, GraphIfaces(graph));
      }
      WriteEntries(graph, outs, ifaces, entries);
    }

    /** What the worker stores for a module is its entry, which is genuine. */
    ghost predicate WritesEntry(id: ModId, st: State, o: Outcome, ifaces: map<ModId, Hash>, entries: map<ModId, Meta>) {
      id in entries && entries[id] == Entry(st, o, workerView(id, ifaces)) && EntryOk(s, id, entries[id])
    }

    method WriteEntries(states: map<ModId, State>, outs: map<ModId, Outcome>, ifaces: map<ModId, Hash>,
        ghost entries: map<ModId, Meta>)
      requires StoreOk(s, metastore) && outs.Keys <= states.Keys && entries.Keys == outs.Keys
      requires forall m | m in outs :: WritesEntry(m, states[m], outs[m], ifaces, entries)
      modifies this`metastore
      ensures StoreOk(s, metastore)
      ensures metastore == StoreAll(writes, old(metastore), entries, {})
    {
      var ids := outs.Keys;
      StoreNone(writes, metastore, entries);
      while ids != {}
        invariant ids <= outs.Keys && StoreOk(s, metastore)
        invariant metastore == StoreAll(writes, old(metastore), entries, ids)
        decreases ids
      {
        var id :| id in ids;
        StoreOne(writes, old(metastore), entries, ids, id);
        assert WritesEntry(id, states[id], outs[id], ifaces, entries);
        var written := WriteCacheMeta(id, states[id], outs[id], workerView(id, ifaces));
        ids := ids - {id};
      }
    }

    /**
     * In the middle of a round of answers: done lists the units that answered with the interfaces
     * of news, out of those that were being checked.
     */
    ghost predicate InRound(was: set<SccId>, wasHeld: set<ModId>, done: seq<SccId>,
        news: map<ModId, Outcome>, results: map<ModId, ModuleResult>)
      reads this`graph, this`outcomes, pool, pool.queue
    {
      && pool.Valid()
      && Distinct(done) && IdSet(done) <= was && pool.where.Keys == was - IdSet(done)
      && NewsSolved(t, solve, graph, IdSet(done), news)
      && Received(outcomes, wasHeld, news, results, pool.busy, pool.holder.Keys)
    }

    lemma BatchIsNew(was: set<SccId>, wasHeld: set<ModId>, done: seq<SccId>, news: map<ModId, Outcome>,
        results: map<ModId, ModuleResult>, idx: nat)
      requires Wiring() && Data() && ReadyUnits(t, completed, was)
      requires InRound(was, wasHeld, done, news, results)
      requires idx in pool.busy && pool.busy[idx].Checking?
      ensures var ids := IdSet(pool.busy[idx].batch);
              && ReadyUnits(t, completed, ids) && ids !! IdSet(done)
              && ModulesOf(t, ids) !! outcomes.Keys + news.Keys
      ensures pool.holder.Keys <= outcomes.Keys + news.Keys
    {
      var batch := pool.busy[idx].batch;
      assert BatchOk(batch, idx, pool.where);
      assert IdSet(batch) <= pool.where.Keys;
      ModulesDisjoint(prog.imports, t, IdSet(batch), completed);
      ModulesDisjoint(prog.imports, t, IdSet(batch), IdSet(done));
      HeldAreKnown(pool.busy, pool.holder, outcomes + news);
    }

    lemma RoundStarts()
      requires pool.Valid() && JobsKnown(pool.busy, outcomes)
      ensures InRound(pool.where.Keys, pool.holder.Keys, [], map[], map[])
    {
      ReceivedNothing(outcomes, pool.busy, pool.holder.Keys);
    }

    /** A worker answers with the interfaces of its batch, and goes on with the function bodies. */
    method ReceiveInterface(idx: nat, ghost was: set<SccId>, ghost wasHeld: set<ModId>, done: seq<SccId>,
        ghost news: map<ModId, Outcome>, results: map<ModId, ModuleResult>)
      returns (done1: seq<SccId>, ghost news1: map<ModId, Outcome>, results1: map<ModId, ModuleResult>)
      requires Wiring() && Data() && ReadyUnits(t, completed, was)
      requires InRound(was, wasHeld, done, news, results)
      requires idx in pool.busy && pool.busy[idx].Checking?
      modifies pool`busy, pool`where, pool`holder
      ensures InRound(was, wasHeld, done1, news1, results1)
      ensures Answered(old(pool.busy), pool.busy, idx)
      ensures MoreHeld(old(HeldMods()))
    {
      BatchIsNew(was, wasHeld, done, news, results, idx);
      var batch := pool.busy[idx].batch;
      assert BatchOk(batch, idx, pool.where);
      ReadySolvable(batch);
      var outs := CheckBatch(batch);
      ReceivedInterface(outcomes, wasHeld, news, results, pool.busy, pool.holder.Keys, idx, outs);
      NewsUnion(t, solve, graph, IdSet(done), news, IdSet(batch), outs);
      AppendDistinct(done, batch);
      ghost var held := HeldMods();
      batch := pool.FinishInterface(idx, outs);
      HeldKeys(old(pool.holder), outs.Keys, idx);
      done1, results1 := done + batch, results + InterfaceResults(outs);
      news1 := news + outs;
    }

    /** A worker answers with the errors of the modules it checked, and becomes idle. */
    method ReceiveErrors(idx: nat, ghost was: set<SccId>, ghost wasHeld: set<ModId>, ghost done: seq<SccId>,
        ghost news: map<ModId, Outcome>, results: map<ModId, ModuleResult>)
      returns (results1: map<ModId, ModuleResult>)
      requires InRound(was, wasHeld, done, news, results)
      requires idx in pool.busy && pool.busy[idx].Implementing? && OutsKnown(pool.busy[idx].outs, outcomes)
      requires StoreOk(s, metastore) && WorkerWritable(pool.busy[idx].outs)
      modifies pool`busy, pool`free, pool`holder, this`metastore
      ensures StoreOk(s, metastore)
      ensures InRound(was, wasHeld, done, news, results1)
      ensures Answered(old(pool.busy), pool.busy, idx)
      ensures var outs := old(pool.busy[idx].outs);
              && metastore == StoreAll(writes, old(metastore), WorkerEntries(graph, outs, workerView), {})
              && HeldMods() == old(HeldMods()) - outs.Keys
    {
      ghost var graph0 := graph;
      assert NewsSolved(t, solve, graph0, IdSet(done), news);
      WriteFromWorker(pool.busy[idx].outs);
      ReceivedErrors(outcomes, wasHeld, news, results, pool.busy, pool.holder.Keys, idx, pool.busy[idx].outs);
      var outs := pool.FinishImplementation(idx);
      results1 := results + ErrorResults(outs);
      assert graph == graph0 && NewsSolved(t, solve, graph0, IdSet(done), news);
    }

    /** Workers hold what they held before, and modules that are not complete. */
    ghost predicate MoreHeld(held: set<ModId>)
      reads this`outcomes, pool`holder
    {
      held <= HeldMods() && HeldMods() - held !! outcomes.Keys
    }

    lemma MoreRecorded(held: set<ModId>)
      requires ValidProgram(prog) && MoreHeld(held)
      requires lossless ==> Unkept(prog, loaded, store0, graph, metastore, outcomes, held) == {}
      ensures Recording()
    {
      if lossless {
        NoneUnkept(prog, loaded, store0, graph, metastore, outcomes, held);
        KeptHeldMore(prog, loaded, store0, graph, metastore, outcomes, held, HeldMods() - held);
        assert held + (HeldMods() - held) == HeldMods();
        NoneUnkept(prog, loaded, store0, graph, metastore, outcomes, HeldMods());
      }
    }

    /** The cache after a worker has stored what it found out. */
    lemma NextWritten(idx: nat)
      requires Wiring() && Data() && WorkersSeeInterfaces() && Recording() && pool.Valid()
      requires idx in pool.busy && pool.busy[idx].Implementing? && OutsKnown(pool.busy[idx].outs, outcomes)
      ensures var outs := pool.busy[idx].outs;
              lossless ==> Unkept(prog, loaded, store0, graph,
                                  StoreAll(writes, metastore, WorkerEntries(graph, outs, workerView), {}), outcomes,
                                  HeldMods() - outs.Keys) == {}
    {
      var outs := pool.busy[idx].outs;
      ImplementationOk(IdsOf(pool.queue.items), pool.busy, pool.where, pool.holder, idx);
      if lossless {
        KnownByWorker(outs);
        NoneUnkept(prog, loaded, store0, graph, metastore, outcomes, HeldMods());
        WorkerKept(s, prog, t, solve, completed, outcomes, graph, outs, workerView, loaded, store0, metastore,
                   HeldMods(), writes);
        NoneUnkept(prog, loaded, store0, graph,
                   StoreAll(writes, metastore, WorkerEntries(graph, outs, workerView), {}), outcomes,
                   HeldMods() - outs.Keys);
      }
    }

    lemma KnownByWorker(outs: map<ModId, Outcome>)
      requires Wiring() && Data() && WorkersSeeInterfaces() && OutsKnown(outs, outcomes) && outs.Keys <= HeldMods()
      ensures WorkerKnows(prog, graph, outcomes, outs, workerView, HeldMods())
    {
      forall m | m in outs
        ensures m in prog.imports
        ensures AgreeOn(workerView(m, GraphIfaces(graph)), GraphIfaces(graph), graph.Keys * Closure(prog.imports, m))
      {
        assert m in outcomes;
      }
    }

    method ReceiveAnswer(idx: nat, ghost was: set<SccId>, ghost wasHeld: set<ModId>, done: seq<SccId>,
        ghost news: map<ModId, Outcome>, results: map<ModId, ModuleResult>)
      returns (done1: seq<SccId>, ghost news1: map<ModId, Outcome>, results1: map<ModId, ModuleResult>)
      requires Wiring() && Data() && WorkersSeeInterfaces() && ReadyUnits(t, completed, was) && Recording()
      requires InRound(was, wasHeld, done, news, results)
      requires idx in pool.busy && (pool.busy[idx].Implementing? ==> OutsKnown(pool.busy[idx].outs, outcomes))
      modifies pool`busy, pool`free, pool`where, pool`holder, this`metastore
      ensures StoreOk(s, metastore) && Recording()
      ensures InRound(was, wasHeld, done1, news1, results1)
      ensures Answered(old(pool.busy), pool.busy, idx)
    {
      if pool.busy[idx].Checking? {
        ghost var held := HeldMods();
        done1, news1, results1 := ReceiveInterface(idx, was, wasHeld, done, news, results);
        MoreRecorded(held);
      } else {
        KnownWritable(pool.busy[idx].outs);
        NextWritten(idx);
        done1, news1 := done, news;
        results1 := ReceiveErrors(idx, was, wasHeld, done, news, results);
      }
    }

    /** Takes the answers of these workers. */
    method ReceiveAnswers(answering: set<nat>)
      returns (done: seq<SccId>, results: map<ModId, ModuleResult>, ghost news: map<ModId, Outcome>)
      requires pool.Valid() && forall w | w in answering :: w in pool.busy
      requires Wiring() && Data() && WorkersSeeInterfaces()
      requires JobsKnown(pool.busy, outcomes) && ReadyUnits(t, completed, pool.where.Keys) && Recording()
      modifies pool`busy, pool`free, pool`where, pool`holder, this`metastore
      ensures StoreOk(s, metastore) && Recording()
      ensures InRound(old(pool.where.Keys), old(pool.holder.Keys), done, news, results)
      ensures answering != {} ==> Answers(old(pool.busy), pool.busy)
    {
      var ready := answering;
      ghost var was, wasHeld, busy0 := pool.where.Keys, pool.holder.Keys, pool.busy;
      done, results, news := [], map[], map[];
      RoundStarts();
      ghost var answered := false;
      while ready != {}
        invariant answered || ready == answering
        invariant InRound(was, wasHeld, done, news, results)
        invariant StoreOk(s, metastore) && Recording()
        invariant forall w | w in ready :: w in pool.busy && pool.busy[w] == busy0[w]
        invariant if answered then Answers(busy0, pool.busy) else pool.busy == busy0
        decreases ready
      {
        var idx :| idx in ready;
        ready := ready - {idx};
        ghost var before := pool.busy;
        done, news, results := ReceiveAnswer(idx, was, wasHeld, done, news, results);
        AnswersStep(busy0, before, pool.busy, idx);
        answered := true;
      }
    }

    /** Waits for answers from at least one worker, and hands out more batches. */
    method WaitForDoneWorkers()
      returns (done: seq<SccId>, results: map<ModId, ModuleResult>, ghost news: map<ModId, Outcome>)
      requires pool.num > 0 && pool.Valid() && pool.busy != map[]
      requires Wiring() && Data() && WorkersSeeInterfaces()
      requires JobsKnown(pool.busy, outcomes) && ReadyUnits(t, completed, pool.where.Keys) && Recording()
      modifies pool, pool.queue, this`metastore
      ensures StoreOk(s, metastore) && Recording()
      ensures InRound(old(pool.where.Keys), old(pool.holder.Keys), done, news, results)
      ensures pool.queue.items == [] || pool.free == {}
      ensures LessWork(|old(pool.queue.items)|, |pool.queue.items|, old(pool.busy), pool.busy)
    {
      var ready: set<nat> :| ready <= pool.busy.Keys && ready != {};
      ghost var was, wasHeld := pool.where.Keys, pool.holder.Keys;
      done, results, news := ReceiveAnswers(ready);
      AdvanceWorkers(was, wasHeld, done, news, results);
    }

    /** Hands out more batches after some workers have answered. */
    method AdvanceWorkers(ghost was: set<SccId>, ghost wasHeld: set<ModId>, ghost done: seq<SccId>,
        ghost news: map<ModId, Outcome>, ghost results: map<ModId, ModuleResult>)
      requires pool.num > 0 && InRound(was, wasHeld, done, news, results) && ValidProgram(prog) && Recording()
      modifies pool`busy, pool`free, pool`where, pool.queue
      ensures InRound(was, wasHeld, done, news, results) && Recording()
      ensures pool.queue.items == [] || pool.free == {}
      ensures |pool.queue.items| < |old(pool.queue.items)|
              || (pool.queue.items == old(pool.queue.items) && pool.busy == old(pool.busy))
      ensures pool.holder == old(pool.holder)
    {
      ghost var before, held := pool.busy, HeldMods();
      ghost var sent := pool.SendBatches();
      assert HeldMods() == held;
      StillReceived(outcomes, wasHeld, news, results, before, pool.busy, pool.holder.Keys);
    }

    /** Waits for workers and exposes what they report: interface hashes of complete units, and errors. */
    method AwaitWorkers() returns (done: seq<SccId>)
      requires pool.num > 0 && QueuesOk() && pool.busy != map[]
      requires Wiring() && Data() && WorkersSeeInterfaces()
      requires ReadyUnits(t, completed, pool.where.Keys) && ErrorsShown(outcomes, flushed, pool.holder.Keys)
      requires Recording()
      modifies pool, pool.queue, this`metastore, this`graph, this`flushed, this`completed, this`outcomes
      ensures Data() && QueuesOk() && ErrorsShown(outcomes, flushed, pool.holder.Keys) && Recording()
      ensures Distinct(done) && IdSet(done) <= old(pool.where.Keys)
              && pool.where.Keys == old(pool.where.Keys) - IdSet(done)
      ensures completed == old(completed) + IdSet(done)
      ensures LessWork(|old(pool.queue.items)|, |pool.queue.items|, old(pool.busy), pool.busy)
    {
      ghost var was, wasHeld := pool.where.Keys, pool.holder.Keys;
      var results;
      ghost var news;
      done, results, news := WaitForDoneWorkers();
      assert ReadyUnits(t, completed, IdSet(done));
      NewsExposed(was, wasHeld, done, news, results);
      ExposeResults(done, news, results);
      ShownByWorkers(old(outcomes), old(flushed), wasHeld, news, ReportedErrors(results), pool.holder.Keys);
    }

    /** The cache when the interfaces of news have been exposed. */
    lemma NewsExposed(was: set<SccId>, wasHeld: set<ModId>, done: seq<SccId>, news: map<ModId, Outcome>,
        results: map<ModId, ModuleResult>)
      requires ValidProgram(prog) && Recording() && InRound(was, wasHeld, done, news, results)
      ensures lossless ==>
                Unkept(prog, loaded, store0, WithIfaces(graph, news), metastore, outcomes + news, HeldMods()) == {}
    {
      if lossless {
        NewsHeld(outcomes, wasHeld, news, results, pool.busy, pool.holder.Keys);
        NoneUnkept(prog, loaded, store0, graph, metastore, outcomes, HeldMods());
        KeptExposed(prog, loaded, store0, graph, metastore, outcomes, HeldMods(), news);
        NoneUnkept(prog, loaded, store0, WithIfaces(graph, news), metastore, outcomes + news, HeldMods());
      }
    }

    /** Exposes the results of one round of answers. */
    method ExposeResults(done: seq<SccId>, ghost news: map<ModId, Outcome>, results: map<ModId, ModuleResult>)
      requires Wiring() && Data() && ReadyUnits(t, completed, IdSet(done))
      requires NewsSolved(t, solve, graph, IdSet(done), news)
      requires ReportsInterfaces(results, news) && results.Keys <= outcomes.Keys + news.Keys
      modifies this`graph, this`flushed, this`completed, this`outcomes
      ensures Data()
      ensures completed == old(completed) + IdSet(done) && outcomes == old(outcomes) + news
      ensures graph == WithIfaces(old(graph), news)
      ensures flushed == old(flushed) + ReportedErrors(results)
    {
      WorkerStage(s, prog, t, solve, completed, outcomes, graph, IdSet(done), news);
      assert outcomes.Keys <= graph.Keys;
      ProcessResults(results, news);
      completed, outcomes := completed + IdSet(done), outcomes + news;
    }

    lemma WorkNeedsWorkers()
      requires pool.num > 0 && QueuesOk() && pool.HasWork()
      ensures pool.busy != map[]
    {
      pool.HasWorkIff();
      assert pool.free + pool.busy.Keys == pool.all;
    }

    /** Waits for submitted units. Without workers the next one is processed here and now. */
    method WaitForDone() returns (done: seq<SccId>, more: bool)
      requires QueuesOk() && Wiring() && Data() && WorkersSeeInterfaces()
      requires ReadyUnits(t, completed, Pending()) && ErrorsShown(outcomes, flushed, HeldMods())
      requires Recording()
      modifies this`localQueue, pool, pool.queue
      modifies this`metastore, this`graph, this`flushed, this`completed, this`outcomes
      ensures Data() && QueuesOk() && ErrorsShown(outcomes, flushed, HeldMods()) && Recording()
      ensures Distinct(done) && (forall i | i in done :: i in old(Pending()))
              && Removed(old(Pending()), done, Pending())
      ensures Added(old(completed), done, completed)
      ensures more <==> Working()
      ensures !old(Working()) ==> done == [] && graph == old(graph) && metastore == old(metastore)
      ensures Waited(old(Working()), old(QueueLength()), old(Jobs()), more, QueueLength(), Jobs())
    {
      if pool.num > 0 {
        if pool.HasWork() {
          WorkNeedsWorkers();
          done := AwaitWorkers();
        } else {
          done := [];
        }
        more := pool.HasWork();
      } else if localQueue == [] {
        done, more := [], false;
      } else {
        RestDiffer(localQueue);
        pool.NoWorkers();
        done := WaitForDoneLocal();
        more := localQueue != [];
      }
    }

    ghost function QueueLength(): nat
      reads this`localQueue, pool, pool.queue
    {
      if pool.num == 0 then |localQueue| else |pool.queue.items|
    }

    ghost function Jobs(): map<nat, Job>
      reads pool
    {
      pool.busy
    }

    // Scheduling.

    /** One object per unit. */
    ghost predicate Indexed() {
      sccById.Keys == t.deps.Keys && forall i | i in sccById :: sccById[i].id == i && sccById[i] in sccs
    }

    /** Each unit counts its dependencies that have not finished. */
    ghost predicate Counted(finished: set<SccId>)
      reads sccs`notReadyCount
    {
      Indexed() && CountedBut(finished, [])
    }

    /** The same, except that the units in told have been told of one more. */
    ghost predicate CountedBut(finished: set<SccId>, told: seq<SccId>)
      requires Indexed()
      reads sccs`notReadyCount
    {
      forall i {:trigger sccById[i].notReadyCount} | i in sccById ::
        sccById[i].notReadyCount == Unfinished(t.deps, finished, i) - (if i in told then 1 else 0)
    }

    /** Tells some units that one more dependency, j, has finished; those that waited only for it become ready. */
    method NotifyAll(dependents: seq<SccId>, notReady: set<SccId>, ghost finished: set<SccId>, ghost j: SccId)
      returns (ready: seq<SccId>, waiting: set<SccId>)
      requires Indexed() && Counted(finished) && notReady == Waiting(t.deps, finished)
      requires Distinct(dependents) && j !in finished
      requires forall i | i in dependents :: i in t.deps && j in t.deps[i]
      modifies sccs`notReadyCount
      ensures CountedBut(finished, dependents)
      ensures Distinct(ready) && forall i :: i in waiting <==> i in notReady && i !in ready
      ensures forall i :: i in ready <==> i in dependents && Unfinished(t.deps, finished, i) == 1
    {
      ready, waiting := [], notReady;
      for k := 0 to |dependents|
        invariant CountedBut(finished, dependents[..k])
        invariant Distinct(ready) && forall i :: i in waiting <==> i in notReady && i !in ready
        invariant forall i ::
                  i in ready <==> i in dependents[..k] && i in t.deps && Unfinished(t.deps, finished, i) == 1
      {
        var dependent := dependents[k];
        assert dependents[..k + 1] == dependents[..k] + [dependent];
        assert dependent in dependents;
        var depScc := sccById[dependent];
        depScc.notReadyCount := depScc.notReadyCount - 1;
        if depScc.notReadyCount == 0 {
          assert dependent in waiting;
          waiting := waiting - {dependent};
          ready := ready + [dependent];
        }
      }
      assert dependents[..|dependents|] == dependents;
    }

    /** Tells the dependents of a unit that it has finished. */
    method NotifyDependents(c: Scc, notReady: set<SccId>, ghost finished: set<SccId>)
      returns (ready: seq<SccId>, waiting: set<SccId>)
      requires Counted(finished) && notReady == Waiting(t.deps, finished)
      requires c.id !in finished && Distinct(c.directDependents)
      requires forall i :: i in c.directDependents <==> i in t.deps && c.id in t.deps[i]
      modifies sccs`notReadyCount
      ensures Counted(finished + {c.id}) && waiting == Waiting(t.deps, finished + {c.id})
      ensures Distinct(ready) && forall i :: i in ready <==> i in notReady && i !in waiting
    {
      ready, waiting := NotifyAll(c.directDependents, notReady, finished, c.id);
      NotifiedMeans(t.deps, finished, c.id, c.directDependents, ready);
    }

    /** Tells the dependents of all these units. */
    method NotifyDone(done: seq<SccId>, notReady: set<SccId>, ghost finished: set<SccId>, ghost finished1: set<SccId>)
      returns (ready: seq<SccId>, waiting: set<SccId>)
      requires Counted(finished) && notReady == Waiting(t.deps, finished)
      requires Distinct(done) && Added(finished, done, finished1)
               && forall id | id in done :: id !in finished && Linked(id)
      modifies sccs`notReadyCount
      ensures Counted(finished1) && waiting == Waiting(t.deps, finished1)
      ensures Distinct(ready) && forall i :: i in ready <==> i in notReady && i !in waiting
    {
      ready, waiting := [], notReady;
      ghost var now := finished;
      for k := 0 to |done|
        invariant now == finished + IdSet(done[..k])
        invariant Counted(now) && waiting == Waiting(t.deps, now)
        invariant Distinct(ready) && forall i :: i in ready <==> i in notReady && i !in waiting
      {
        var id := done[k];
        assert id in done;
        NextDistinct(done, k);
        ghost var before := waiting;
        var more;
        more, waiting := NotifyDependents(sccById[id], waiting, now);
        MoreReady(ready, more, notReady, before, waiting);
        WaitingShrinks(t.deps, finished, now);
        WaitingShrinks(t.deps, now, now + {id});
        ready, now := ready + more, now + {id};
      }
      assert done[..|done|] == done;
      AddedIsUnion(finished, done, finished1);
    }

    /** The object of a unit lists exactly the units that depend on it. */
    ghost predicate Linked(id: SccId) {
      && id in sccById && sccById[id].id == id && Distinct(sccById[id].directDependents)
      && forall i :: i in sccById[id].directDependents <==> i in t.deps && id in t.deps[i]
    }

    lemma NothingTwice(news: map<ModId, Outcome>)
      requires forall m | m in news :: m !in outcomes
      ensures news.Keys !! outcomes.Keys
    {
    }

    /** The cache when these units have been served from it. */
    lemma CachedKept(cached: seq<SccId>)
      requires Wiring() && Data() && QueuesOk() && ReadyUnits(t, completed, IdSet(cached))
      requires AllFresh(t, graph, IdSet(cached)) && Recording()
      ensures var news := CachedOutcomes(s, prog, t, graph, IdSet(cached));
              lossless ==> Unkept(prog, loaded, store0, graph, metastore, outcomes + news, HeldMods()) == {}
    {
      var news := CachedOutcomes(s, prog, t, graph, IdSet(cached));
      if lossless {
        HeldAreKnown(pool.busy, pool.holder, outcomes);
        NoneUnkept(prog, loaded, store0, graph, metastore, outcomes, HeldMods());
        FreshKept(s, prog, t, solve, completed, outcomes, graph, IdSet(cached), loaded, store0, metastore, HeldMods());
        NoneUnkept(prog, loaded, store0, graph, metastore, outcomes + news, HeldMods());
      }
    }

    /** The units just found fresh are complete: their states already hold the final results. */
    ghost method CompleteCached(cached: seq<SccId>, flushed0: map<ModId, seq<Str>>)
      requires Wiring() && Data() && QueuesOk() && ReadyUnits(t, completed, IdSet(cached))
      requires AllFresh(t, graph, IdSet(cached))
      requires flushed == flushed0 + RecordedErrors(graph, ModulesOf(t, IdSet(cached)))
      requires ErrorsShown(outcomes, flushed0, HeldMods()) && Recording()
      modifies this`completed, this`outcomes
      ensures Data() && QueuesOk() && ErrorsShown(outcomes, flushed, HeldMods()) && Recording()
      ensures Added(old(completed), cached, completed)
    {
      StageStates(s, prog, t, solve, completed, outcomes, graph, IdSet(cached));
      FreshStage(s, prog, t, solve, completed, outcomes, graph, IdSet(cached));
      var news := CachedOutcomes(s, prog, t, graph, IdSet(cached));
      KnownGrows(pool.busy, outcomes, news);
      NothingTwice(news);
      CachedKept(cached);
      ShownFromCache(outcomes, flushed0, HeldMods(), news, graph, outcomes + news, flushed);
      completed, outcomes := completed + IdSet(cached), outcomes + news;
    }

    /** What is complete has its results, and what is shown and being worked on agrees with that. */
    ghost predicate Steady()
      requires Setup(s, prog, t, solve)
      reads this`graph, this`flushed, this`metastore, this`localQueue, this`completed, this`outcomes
      reads memo, pool, pool.queue
    {
      Data() && QueuesOk() && memo.Valid() && ErrorsShown(outcomes, flushed, HeldMods()) && Recording()
    }

    /** What holds between two rounds of the scheduling loop. */
    ghost predicate Running(ready: seq<SccId>, notReady: set<SccId>, stillWorking: bool, tr: seq<Event>)
      requires Wiring()
      reads this, memo, pool, pool.queue, sccs
    {
      && Steady() && Counted(completed)
      && Scheduled(t, completed, Pending(), ready, notReady)
      && HistoryOk(t.deps, tr, completed, Pending())
      && (Working() ==> stillWorking)
    }

    /**
     * As long as nothing has been submitted, everything is as it was loaded, and only units that are
     * fresh then are complete; if all are, nothing is ever submitted.
     */
    ghost predicate Quiet(tr: seq<Event>)
      reads this`graph, this`metastore, this`localQueue, this`completed, pool, pool.queue
    {
      && (NoneSubmitted(tr) ==> graph == loaded && metastore == store0 && !Working())
      && QuietSoFar(t, loaded, completed, tr)
    }

    /** Submits the stale units of a round, if there are any. */
    method SubmitStale(stale: seq<SccId>)
      requires QueuesOk() && Distinct(stale) && forall id | id in stale :: id !in Pending() && id in sccById
      modifies this`localQueue, pool, pool.queue
      ensures QueuesOk() && HeldMods() == old(HeldMods())
      ensures Added(old(Pending()), stale, Pending())
      ensures stale == [] ==>
              QueueLength() == old(QueueLength()) && Jobs() == old(Jobs()) && Working() == old(Working())
    {
      if stale != [] {
        Submit(stale);
        AddedIsUnion(old(Pending()), stale, Pending());
      }
    }

    /** Serves the units found fresh; if there are none, waits for submitted ones. */
    method Advance(cached: seq<SccId>, working: bool, ghost decided: set<SccId>, ghost flushed0: map<ModId, seq<Str>>)
      returns (done: seq<SccId>, more: bool)
      requires Wiring() && Data() && QueuesOk() && WorkersSeeInterfaces()
      requires Distinct(cached) && Added(Pending(), cached, decided) && forall i | i in cached :: i !in Pending()
      requires ReadyUnits(t, completed, decided) && AllFresh(t, graph, IdSet(cached))
      requires flushed == flushed0 + RecordedErrors(graph, ModulesOf(t, IdSet(cached)))
      requires ErrorsShown(outcomes, flushed0, HeldMods()) && Recording()
      requires Working() ==> working
      modifies this`localQueue, pool, pool.queue
      modifies this`metastore, this`graph, this`flushed, this`completed, this`outcomes
      ensures Data() && QueuesOk() && ErrorsShown(outcomes, flushed, HeldMods()) && Recording()
      ensures Distinct(done) && (forall i | i in done :: i in decided) && Removed(decided, done, Pending())
      ensures Added(old(completed), done, completed)
      ensures Working() ==> more
      ensures cached != [] ==> done == cached
      ensures !old(Working()) ==> !Working() && graph == old(graph) && metastore == old(metastore)
      ensures !old(Working()) ==> done == cached
      ensures cached == [] ==> Waited(old(Working()), old(QueueLength()), old(Jobs()), more, QueueLength(), Jobs())
    {
      if cached != [] {
        done, more := cached, working;
        CompleteCached(cached, flushed0);
      } else {
        NothingRecorded(t, graph, flushed0);
        done, more := WaitForDone();
      }
    }

    lemma DoneLinked(finished: set<SccId>, decided: set<SccId>, done: seq<SccId>)
      requires Wiring() && ReadyUnits(t, finished, decided) && forall i | i in done :: i in decided
      ensures forall id | id in done :: id !in finished && Linked(id)
    {
      forall id | id in done
        ensures id !in finished && Linked(id)
      {
        assert id in decided;
        assert SccMatches(sccById[id], id);
      }
    }

    /** Tells the dependents of the units in done, and puts every unit in its place. */
    method Reschedule(done: seq<SccId>, notReady: set<SccId>,
        ghost decided: set<SccId>, ghost finished: set<SccId>, ghost finished1: set<SccId>, ghost pending: set<SccId>)
      returns (ready: seq<SccId>, waiting: set<SccId>)
      requires Setup(s, prog, t, solve) && Steady()
      requires t.members.Keys == t.deps.Keys && Counted(finished) && notReady == Waiting(t.deps, finished)
      requires forall i | i in finished :: i in t.deps && t.deps[i] <= finished
      requires ReadyUnits(t, finished, decided) && Placed(t, finished, decided, [], notReady)
      requires Distinct(done) && forall id | id in done :: id in decided && id !in finished && Linked(id)
      requires Added(finished, done, finished1) && Removed(decided, done, pending)
      modifies sccs`notReadyCount
      ensures Steady() && Counted(finished1) && Scheduled(t, finished1, pending, ready, waiting)
      ensures Pending() == old(Pending()) && Working() == old(Working())
      ensures QueueLength() == old(QueueLength()) && Jobs() == old(Jobs())
      ensures forall i :: i in ready <==> i in notReady && i !in waiting
    {
      ready, waiting := NotifyDone(done, notReady, finished, finished1);
      Rescheduled(t, finished, decided, done, finished1, pending, ready);
    }

    /** The first part of a round: ready units are split into stale and fresh ones. */
    method Decide(ready: seq<SccId>, notReady: set<SccId>)
      returns (stale: seq<SccId>, cached: seq<SccId>, ghost decided: set<SccId>)
      requires Wiring() && Data() && memo.Valid()
      requires Scheduled(t, completed, Pending(), ready, notReady)
      modifies memo, this`flushed
      ensures memo.Valid()
      ensures Split(Pending(), stale, cached, decided) && SplitOf(ready, stale, cached)
      ensures ReadyUnits(t, completed, decided) && Placed(t, completed, decided, [], notReady)
      ensures AllFresh(t, graph, IdSet(cached)) && AllStale(t, graph, stale)
      ensures forall id | id in stale :: id in sccById
      ensures ready == [] ==> stale == [] && cached == []
      ensures flushed == old(flushed) + RecordedErrors(graph, ModulesOf(t, IdSet(cached)))
    {
      ReadyCheckable(ready);
      stale, cached := FindStaleSccs(ready);
      decided := SplitReady(t, completed, Pending(), ready, notReady, stale, cached);
      ReadyWired(stale, decided);
    }

    /** The second part: the stale units are submitted, the others served or waited for. */
    method Proceed(stale: seq<SccId>, cached: seq<SccId>, working: bool,
        ghost decided: set<SccId>, ghost flushed0: map<ModId, seq<Str>>)
      returns (done: seq<SccId>, more: bool)
      requires Wiring() && Data() && QueuesOk() && WorkersSeeInterfaces()
      requires Split(Pending(), stale, cached, decided) && ReadyUnits(t, completed, decided)
      requires AllFresh(t, graph, IdSet(cached)) && forall id | id in stale :: id in sccById
      requires flushed == flushed0 + RecordedErrors(graph, ModulesOf(t, IdSet(cached)))
      requires ErrorsShown(outcomes, flushed0, HeldMods()) && Recording()
      requires stale == [] && Working() ==> working
      modifies this`localQueue, pool, pool.queue
      modifies this`metastore, this`graph, this`flushed, this`completed, this`outcomes
      ensures Data() && QueuesOk() && ErrorsShown(outcomes, flushed, HeldMods()) && Recording()
      ensures Distinct(done) && (forall i | i in done :: i in decided) && Removed(decided, done, Pending())
      ensures Added(old(completed), done, completed)
      ensures Working() ==> more
      ensures cached != [] ==> done == cached
      ensures stale == [] && !old(Working()) ==>
                !Working() && done == cached && graph == old(graph) && metastore == old(metastore)
      ensures stale == [] && cached == [] ==>
                Waited(old(Working()), old(QueueLength()), old(Jobs()), more, QueueLength(), Jobs())
    {
      SubmitForRound(stale, cached, working, decided, flushed0);
      done, more := Advance(cached, working || stale != [], decided, flushed0);
    }

    /** Submits the stale units of a round, which leaves everything as the rest of the round needs it. */
    method SubmitForRound(stale: seq<SccId>, ghost cached: seq<SccId>, ghost working: bool,
        ghost decided: set<SccId>, ghost flushed0: map<ModId, seq<Str>>)
      requires Wiring() && Data() && QueuesOk()
      requires Split(Pending(), stale, cached, decided) && ReadyUnits(t, completed, decided)
      requires AllFresh(t, graph, IdSet(cached)) && forall id | id in stale :: id in sccById
      requires ErrorsShown(outcomes, flushed0, HeldMods()) && Recording()
      requires stale == [] && Working() ==> working
      modifies this`localQueue, pool, pool.queue
      ensures Data() && QueuesOk()
      ensures Distinct(cached) && Added(Pending(), cached, decided) && forall i | i in cached :: i !in Pending()
      ensures ErrorsShown(outcomes, flushed0, HeldMods()) && Recording()
      ensures Working() ==> working || stale != []
      ensures stale == [] ==>
              QueueLength() == old(QueueLength()) && Jobs() == old(Jobs()) && Working() == old(Working())
    {
      ghost var held := HeldMods();
      SubmitStale(stale);
      assert HeldMods() == held;
    }

    /** The moment at which a round begins with these units ready. */
    ghost function Now(ready: seq<SccId>): Moment
      reads this`localQueue, this`graph, this`completed, pool
    {
      Moment(completed, Pending(), IdSet(ready), set i | i in ready && i in t.members && FreshUnit(t, graph, i))
    }

    /** What has become of the decided units, before the dependents of those that are done have been told. */
    ghost predicate Proceeded(m: Moment, decided: set<SccId>, done: seq<SccId>)
      reads this`localQueue, this`completed, pool
    {
      && decided == m.pending + m.ready && Distinct(done) && (forall i | i in done :: i in decided)
      && (m.cached != {} ==> IdSet(done) == m.cached)
      && Added(m.completed, done, completed) && Removed(decided, done, Pending())
    }

    /** A round, except that the dependents of what is done have not been told. */
    method DecideAndProceed(ready: seq<SccId>, notReady: set<SccId>, working: bool, ghost tr: seq<Event>)
      returns (done: seq<SccId>, more: bool, ghost decided: set<SccId>, ghost tr1: seq<Event>)
      requires Wiring() && WorkersSeeInterfaces() && Running(ready, notReady, working, tr) && Quiet(tr)
      modifies this`localQueue, this`graph, this`flushed, this`metastore, this`completed, this`outcomes
      modifies pool, pool.queue, memo
      ensures Steady() && Proceeded(old(Now(ready)), decided, done)
      ensures ReadyUnits(t, old(completed), decided) && Placed(t, old(completed), decided, [], notReady)
      ensures HistoryOk(t.deps, tr1, completed, Pending()) && Quiet(tr1)
      ensures Working() ==> more
      ensures ready == [] ==> Waited(old(Working()), old(QueueLength()), old(Jobs()), more, QueueLength(), Jobs())
    {
      ghost var completed0, pending0, flushed0 := completed, Pending(), flushed;
      assert HistoryOk(t.deps, tr, completed0, pending0);
      ghost var graph0 := graph;
      var stale, cached;
      stale, cached, decided := Decide(ready, notReady);
      AcceptedAre(t, graph0, ready, stale, cached);
      DecidedAre(pending0, ready, stale, cached, decided);
      done, more := Proceed(stale, cached, working, decided, flushed0);
      tr1 := HistoryRound(t, tr, completed0, pending0, stale, cached, decided, done, completed, Pending());
      StaysQuiet(t, loaded, graph0, tr, tr1, stale, cached, completed0, completed);
    }

    /** One round of the scheduling loop. */
    method Round(ready: seq<SccId>, notReady: set<SccId>, working: bool, ghost tr: seq<Event>)
      returns (ready1: seq<SccId>, waiting: set<SccId>, more: bool, ghost tr1: seq<Event>)
      requires Wiring() && WorkersSeeInterfaces() && Running(ready, notReady, working, tr) && Quiet(tr)
      modifies this`localQueue, this`graph, this`flushed, this`metastore, this`completed, this`outcomes
      modifies pool, pool.queue, memo, sccs`notReadyCount
      ensures Running(ready1, waiting, more, tr1) && Quiet(tr1)
      ensures NextRound(t.deps, old(Now(ready)), Now(ready1))
      ensures ready == [] ==> Waited(old(Working()), old(QueueLength()), old(Jobs()), more, QueueLength(), Jobs())
    {
      ghost var now := Now(ready);
      assert forall i | i in now.completed :: i in t.deps && t.deps[i] <= now.completed;
      var done;
      ghost var decided;
      done, more, decided, tr1 := DecideAndProceed(ready, notReady, working, tr);
      forall c | c in sccs
        ensures c.notReadyCount == old(c.notReadyCount)
      {
        var o: object := c;
        assert o != this && o != pool && o != pool.queue && o != memo && old(allocated(c));
      }
      assert Counted(now.completed);
      ready1, waiting := FinishRound(done, notReady, more, now, decided, tr1);
    }

    /** Tells the dependents of what is done. */
    method FinishRound(done: seq<SccId>, notReady: set<SccId>, ghost working: bool, ghost m: Moment,
        ghost decided: set<SccId>, ghost tr: seq<Event>)
      returns (ready: seq<SccId>, waiting: set<SccId>)
      requires Wiring() && Steady() && Counted(m.completed) && Proceeded(m, decided, done)
      requires forall i | i in m.completed :: i in t.deps && t.deps[i] <= m.completed
      requires notReady == Waiting(t.deps, m.completed)
      requires ReadyUnits(t, m.completed, decided) && Placed(t, m.completed, decided, [], notReady)
      requires HistoryOk(t.deps, tr, completed, Pending()) && (Working() ==> working) && Quiet(tr)
      modifies sccs`notReadyCount
      ensures Running(ready, waiting, working, tr) && Quiet(tr) && NextRound(t.deps, m, Now(ready))
      ensures QueueLength() == old(QueueLength()) && Jobs() == old(Jobs())
    {
      DoneLinked(m.completed, decided, done);
      ready, waiting := Reschedule(done, notReady, decided, m.completed, completed, Pending());
      RoundFollows(t.deps, m, Now(ready), decided, done, ready);
    }

    lemma ReadyWired(stale: seq<SccId>, decided: set<SccId>)
      requires Wiring() && ReadyUnits(t, completed, decided) && forall i | i in stale :: i in decided
      ensures forall i | i in stale :: i in sccById
    {
      forall i | i in stale
        ensures i in sccById
      {
        assert i in decided;
      }
    }

    /** The build has not started: modules are as loaded, nothing is submitted, and no errors are shown. */
    ghost predicate AtStart()
      requires Wiring()
      reads this, pool, pool.queue, memo, sccs
    {
      && completed == {} && outcomes == map[] && flushed == map[] && localQueue == []
      && graph == loaded && metastore == store0 && LoadedOk(prog, loaded, store0)
      && pool.Valid() && pool.where == map[] && pool.busy == map[] && pool.queue.items == []
      && memo.Valid() && Counted({})
      && Distinct(topOrder) && (forall i :: i in topOrder <==> i in t.deps)
      && graph.Keys == prog.imports.Keys
      && (forall m {:trigger Untouched(s, prog, m, graph[m])} | m in graph :: Untouched(s, prog, m, graph[m]))
      && StoreOk(s, metastore)
    }

    /** The units without dependencies are ready from the start. */
    method PrimeReady() returns (ready: seq<SccId>, notReady: set<SccId>)
      requires Wiring() && Distinct(topOrder) && forall i :: i in topOrder <==> i in t.deps
      ensures Distinct(ready) && notReady == Waiting(t.deps, {})
      ensures forall i :: i in ready <==> i in t.deps && i !in notReady
    {
      ready, notReady := [], {};
      for k := 0 to |topOrder|
        invariant Distinct(ready)
        invariant forall i :: i in notReady <==> i in topOrder[..k] && i in Waiting(t.deps, {})
        invariant forall i :: i in ready <==> i in topOrder[..k] && i !in Waiting(t.deps, {})
      {
        var id := topOrder[k];
        NextDistinct(topOrder, k);
        assert topOrder[..k + 1] == topOrder[..k] + [id];
        assert id in topOrder && SccMatches(sccById[id], id);
        if sccById[id].deps == {} {
          ready := ready + [id];
        } else {
          notReady := notReady + {id};
        }
      }
      assert topOrder[..|topOrder|] == topOrder;
    }

    lemma NothingHeld()
      requires pool.Valid() && pool.busy == map[]
      ensures HeldMods() == {}
    {
    }

    lemma StartsRecording()
      requires Wiring() && AtStart()
      ensures HeldMods() == {} && Recording()
    {
      pool.HasWorkIff();
      NothingHeld();
      KeptStarts(prog, loaded, store0);
      NoneUnkept(prog, loaded, store0, graph, metastore, outcomes, {});
    }

    lemma StartsRunning(ready: seq<SccId>, notReady: set<SccId>)
      requires Wiring() && AtStart()
      requires Distinct(ready) && notReady == Waiting(t.deps, {})
      requires forall i :: i in ready <==> i in t.deps && i !in notReady
      ensures Running(ready, notReady, false, [])
    {
      StartStage(s, prog, t, solve, graph);
      StartsRecording();
      assert Pending() == {};
      StartSchedule(t, ready, notReady);
      pool.HasWorkIff();
    }

    lemma EndsComplete(ready: seq<SccId>, notReady: set<SccId>, tr: seq<Event>)
      requires Wiring() && Running(ready, notReady, false, tr) && ready == [] && notReady == {}
      ensures completed == t.deps.Keys && Pending() == {} && HeldMods() == {}
    {
      NothingPending();
      forall i | i in t.deps
        ensures i in completed
      {
        assert IsPlaced(i, completed, Pending(), ready, notReady);
      }
    }

    lemma NothingPending()
      requires QueuesOk() && !Working()
      ensures Pending() == {} && HeldMods() == {}
    {
      pool.HasWorkIff();
      if pool.num == 0 {
        pool.NoWorkers();
      }
    }

    /** A run that has units left always has something to do: some are ready, or being worked on. */
    lemma NeverStalls(ready: seq<SccId>, notReady: set<SccId>, working: bool, tr: seq<Event>)
      requires Wiring() && Running(ready, notReady, working, tr)
      ensures ready != [] || notReady == {} || Working()
    {
      if ready == [] && !Working() {
        NothingPending();
        TableAcyclic(prog.imports, t);
        NothingWaits(t, completed, notReady);
      }
    }

    /** The build is finished, correctly: every interface recorded and all errors shown are those of its outcomes. */
    ghost predicate Finished()
      requires Wiring()
      reads this`graph, this`flushed, this`metastore, this`outcomes
    {
      && Consistent(s.check, prog, outcomes)
      && graph.Keys == prog.imports.Keys && flushed.Keys <= prog.imports.Keys
      && (forall m | m in graph :: graph[m].iface == outcomes[m].iface && Lines(flushed, m) == outcomes[m].errors)
      && StoreOk(s, metastore)
    }

    lemma EndsFinished(tr: seq<Event>)
      requires Wiring() && Running([], {}, false, tr) && Quiet(tr)
      ensures Finished() && HistoryOk(t.deps, tr, t.deps.Keys, {}) && Counted(t.deps.Keys)
      ensures completed == t.deps.Keys
      ensures NoneSubmitted(tr) <==> forall i | i in t.members :: FreshUnit(t, loaded, i)
      ensures NoneSubmitted(tr) ==> graph == loaded && metastore == store0
    {
      EndsComplete([], {}, tr);
      FinalStage(s, prog, t, solve, outcomes, graph);
      EndsQuiet(t, loaded, completed, tr);
    }

    lemma EndsRecorded(tr: seq<Event>)
      requires Wiring() && Running([], {}, false, tr) && Finished()
      ensures NeverFails(writes) ==> AllRecorded(prog, loaded, metastore, outcomes)
    {
      EndsComplete([], {}, tr);
      if lossless {
        NoneUnkept(prog, loaded, store0, graph, metastore, outcomes, {});
        KeptEnds(prog, loaded, store0, graph, metastore, outcomes);
      }
    }

    lemma FirstMoment(ready: seq<SccId>, notReady: set<SccId>)
      requires Wiring() && AtStart()
      requires notReady == Waiting(t.deps, {}) && forall i :: i in ready <==> i in t.deps && i !in notReady
      ensures IsRun(t.deps, [Now(ready)])
    {
      assert Pending() == {};
      StartsRun(t.deps, Now(ready), ready, notReady);
    }

    method Start() returns (ready: seq<SccId>, notReady: set<SccId>)
      requires Wiring() && AtStart()
      ensures Running(ready, notReady, false, []) && Quiet([])
      ensures IsRun(t.deps, [Now(ready)])
    {
      ready, notReady := PrimeReady();
      FirstMoment(ready, notReady);
      StartsRunning(ready, notReady);
    }

    /**
     * Processes every unit in dependency order. The history that is returned shows each unit declared
     * fresh or submitted exactly once, after its dependencies, and then finished. The rounds are what
     * was complete, being worked on and ready at the beginning of each round, and at the end.
     */
    method ProcessGraph() returns (ghost tr: seq<Event>, ghost rounds: seq<Moment>)
      requires Wiring() && WorkersSeeInterfaces() && AtStart()
      modifies this`localQueue, this`graph, this`flushed, this`metastore, this`completed, this`outcomes
      modifies pool, pool.queue, memo, sccs`notReadyCount
      ensures Finished() && HistoryOk(t.deps, tr, t.deps.Keys, {}) && Counted(t.deps.Keys)
      ensures IsRun(t.deps, rounds) && LastOf(rounds).completed == t.deps.Keys
      ensures NoneSubmitted(tr) <==> forall i | i in t.members :: FreshUnit(t, old(graph), i)
      ensures NoneSubmitted(tr) ==> graph == old(graph) && metastore == old(metastore)
      ensures NeverFails(writes) ==> AllRecorded(prog, old(graph), metastore, outcomes)
    {
      var ready, notReady := Start();
      var stillWorking := false;
      tr, rounds := [], [Now(ready)];
      ghost var undecided := Undecided(t.deps, Now(ready));
      while ready != [] || notReady != {} || stillWorking
        invariant Running(ready, notReady, stillWorking, tr) && Quiet(tr)
        invariant IsRun(t.deps, rounds) && LastOf(rounds) == Now(ready)
        invariant undecided == Undecided(t.deps, Now(ready))
        decreases undecided, QueueLength(), CheckingIn(Jobs()), Jobs().Keys, stillWorking
      {
        NeverStalls(ready, notReady, stillWorking, tr);
        ghost var now := Now(ready);
        UndecidedFalls(t, completed, Pending(), ready, notReady, now);
        ready, notReady, stillWorking, tr := Round(ready, notReady, stillWorking, tr);
        RoundAdded(t.deps, rounds, now, Now(ready));
        undecided, rounds := undecided - now.ready, rounds + [Now(ready)];
      }
      EndsFinished(tr);
      EndsRecorded(tr);
    }
  }

  /** The effect of waiting on the amount of work left. */
  ghost predicate Waited(wasWorking: bool, queued: nat, jobs: map<nat, Job>, more: bool, queued1: nat,
      jobs1: map<nat, Job>) {
    if wasWorking then LessWork(queued, queued1, jobs, jobs1) else !more && queued1 == queued && jobs1 == jobs
  }

  lemma ShownStale(outcomes: map<ModId, Outcome>, flushed: map<ModId, seq<Str>>, outs: map<ModId, Outcome>,
      outcomes1: map<ModId, Outcome>, flushed1: map<ModId, seq<Str>>)
    requires ErrorsShown(outcomes, flushed, {})
    requires outcomes1 == outcomes + outs && flushed1 == flushed + ErrorsOf(outs)
    ensures ErrorsShown(outcomes1, flushed1, {})
  {
    ShownChecked(outcomes, flushed, {}, outs, ErrorsOf(outs), outcomes1, flushed1);
  }

  lemma StartedJobsKnown(before: map<nat, Job>, after: map<nat, Job>, outcomes: map<ModId, Outcome>)
    requires JobsKnown(before, outcomes) && Started(before, after)
    ensures JobsKnown(after, outcomes)
  {
  }

  lemma AppendDistinct(a: seq<SccId>, b: seq<SccId>)
    requires Distinct(a) && Distinct(b) && IdSet(a) !! IdSet(b)
    ensures Distinct(a + b) && IdSet(a + b) == IdSet(a) + IdSet(b)
  {
    forall i, j | 0 <= i < |a| && 0 <= j < |b|
      ensures a[i] != b[j]
    {
      assert a[i] in IdSet(a) && b[j] in IdSet(b);
    }
  }

  lemma StoreGrows(s: Setting, metastore: map<ModId, Meta>, id: ModId, e: Meta)
    requires StoreOk(s, metastore) && EntryOk(s, id, e)
    ensures StoreOk(s, metastore[id := e])
  {
    var after := metastore[id := e];
    forall m | m in after
      ensures EntryOk(s, m, after[m])
    {
      if m != id {
        assert EntryOk(s, m, metastore[m]);
      }
    }
  }
}
