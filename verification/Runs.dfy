// Whole builds, one after the other, each using the cache the previous ones left behind.
module Runs {
  import opened Text
  import opened Reach
  import opened ImportHash
  import opened Incremental
  import opened SccTable
  import opened Progress
  import opened Trace
  import opened Schedule
  import opened TopSort
  import opened Workers
  import opened Components
  import opened Records
  import opened Build

  /**
   * What a build uses besides its own logic: checking a cycle of a program, loading the graph from
   * its sources and the store, finding cycles, numbering modules; and which writes of metadata succeed.
   */
  datatype Tools = Tools(
    solve: Program -> Solver,
    workerView: (ModId, map<ModId, Hash>) -> map<ModId, Hash>,
    load: (Program, map<ModId, Meta>) -> map<ModId, State>,
    cycles: Imports -> seq<set<ModId>>,
    order: Imports -> map<ModId, nat>,
    writes: (ModId, Meta) -> bool)

  ghost predicate SolvesCycles(check: Checker, prog: Program, solve: Solver)
    requires ValidProgram(prog)
  {
    forall m, ifaces: map<ModId, Hash> {:trigger solve(Component(prog.imports, m), ifaces)} | m in prog.imports
        && ifaces.Keys == prog.imports.Keys ::
      SolvesTogether(check, prog, Component(prog.imports, m), ifaces, solve(Component(prog.imports, m), ifaces))
  }

  ghost predicate SolvesTogether(check: Checker, prog: Program, members: set<ModId>, ifaces: map<ModId, Hash>,
      outs: map<ModId, Outcome>)
    requires ValidProgram(prog)
  {
    && outs.Keys == members
    && forall m | m in outs :: m in prog.imports && outs[m] == Recheck(check, prog, m, ifaces + Ifaces(outs))
  }

  lemma CyclesAreUnits(check: Checker, prog: Program, t: Table, solve: Solver)
    requires ValidProgram(prog) && ValidTable(prog.imports, t) && SolvesCycles(check, prog, solve)
    ensures SolvesUnits(check, prog, t, solve)
  {
    forall i, ifaces: map<ModId, Hash> | i in t.members && ifaces.Keys == prog.imports.Keys
      ensures SolvedUnit(check, prog, t, i, ifaces, solve(t.members[i], ifaces))
    {
      var m := SomeMember(prog.imports, t, i);
      assert t.of[m] == i && t.members[t.of[m]] == Component(prog.imports, m);
      assert SolvesTogether(check, prog, Component(prog.imports, m), ifaces, solve(Component(prog.imports, m), ifaces));
    }
  }

  /** The state is as loaded from the store or, failing that, from source, except for the import-structure hash. */
  ghost predicate LoadedState(prog: Program, metastore: map<ModId, Meta>, m: ModId, st: State)
    requires ValidProgram(prog)
  {
    && m in prog.imports
    && Loaded(prog, m, st.(transHash := prog.transHash[m]))
    && (st.meta.Some? ==> m in metastore && metastore[m] == st.meta.value)
  }

  /** The tools do their part for this program, with whatever is in the store. */
  ghost predicate ToolsWork(s: Setting, prog: Program, tools: Tools)
    requires ValidProgram(prog)
  {
    && SolvesCycles(s.check, prog, tools.solve(prog))
    && SeesInterfaces(prog.imports, tools.workerView)
    && IsPartition(tools.cycles(prog.imports), prog.imports)
    && tools.order(prog.imports).Keys == prog.imports.Keys
    && forall metastore {:trigger tools.load(prog, metastore)} ::
       LoadsProgram(prog, metastore, tools.load(prog, metastore))
  }

  ghost predicate LoadsProgram(prog: Program, metastore: map<ModId, Meta>, graph: map<ModId, State>)
    requires ValidProgram(prog)
  {
    && LoadedGraph(graph) && ImportsOf(graph) == prog.imports
    && forall m {:trigger graph[m]} | m in graph :: LoadedState(prog, metastore, m, graph[m])
  }

  ghost predicate SeesInterfaces(imports: Imports, workerView: (ModId, map<ModId, Hash>) -> map<ModId, Hash>) {
    forall m, ifaces {:trigger workerView(m, ifaces)} | m in imports ::
      AgreeOn(workerView(m, ifaces), ifaces, ifaces.Keys * Closure(imports, m))
  }

  /** One object per unit, in the state in which scheduling starts. */
  ghost predicate NewObjects(t: Table, sccs: set<Scc>, sccById: map<SccId, Scc>)
    reads sccs
  {
    && t.members.Keys == t.deps.Keys
    && forall i {:trigger sccById[i]} | i in sccById ::
         && i in t.members && sccById[i] in sccs && Represents(sccById[i], t, i)
         && sccById[i].notReadyCount == |t.deps[i]|
  }

  /** A rough estimate of the work for a unit: that for its modules together. */
  method TotalHint(ids: set<ModId>, sizeHints: map<ModId, nat>) returns (n: nat)
    ensures n == HintSum(ids, sizeHints)
  {
    n := 0;
    var left := ids;
    while left != {}
      invariant left <= ids && n + HintSum(left, sizeHints) == HintSum(ids, sizeHints)
      decreases left
    {
      var id :| id in left;
      HintSumWithout(left, sizeHints, id);
      left := left - {id};
      n := n + HintOf(id, sizeHints);
    }
  }

  function HintOf(id: ModId, sizeHints: map<ModId, nat>): nat {
    if id in sizeHints then sizeHints[id] else 0
  }

  ghost function HintSum(ids: set<ModId>, sizeHints: map<ModId, nat>): nat {
    if ids == {} then 0 else var id := Least(ids); HintOf(id, sizeHints) + HintSum(ids - {id}, sizeHints)
  }

  lemma {:induction false} HintSumWithout(ids: set<ModId>, sizeHints: map<ModId, nat>, id: ModId)
    requires id in ids
    ensures HintSum(ids, sizeHints) == HintOf(id, sizeHints) + HintSum(ids - {id}, sizeHints)
    decreases ids
  {
    var first := Least(ids);
    if id != first {
      HintSumWithout(ids - {first}, sizeHints, id);
      HintSumWithout(ids - {id}, sizeHints, first);
      assert ids - {first} - {id} == ids - {id} - {first};
    }
  }

  /** Creates the objects for the units. */
  method CreateSccs(t: Table, dependents: map<SccId, seq<SccId>>, sizeHints: map<ModId, nat>)
    returns (sccs: set<Scc>, sccById: map<SccId, Scc>)
    requires t.members.Keys == t.deps.Keys && Reversed(t.deps, dependents)
    ensures NewObjects(t, sccs, sccById) && sccById.Keys == t.members.Keys && fresh(sccs)
    ensures forall i | i in sccById :: i in t.members && sccById[i].sizeHint == HintSum(t.members[i], sizeHints)
  {
    sccs, sccById := {}, map[];
    var ids := t.members.Keys;
    while ids != {}
      invariant ids <= t.members.Keys
      invariant fresh(sccs) && NewObjects(t, sccs, sccById)
      invariant forall i :: i in sccById <==> i in t.members && i !in ids
      invariant forall i | i in sccById :: sccById[i].sizeHint == HintSum(t.members[i], sizeHints)
      decreases ids
    {
      var id :| id in ids;
      ids := ids - {id};
      assert Dependents(t.deps, id, dependents[id]);
      var sizeHint := TotalHint(t.members[id], sizeHints);
      var c := new Scc(id, t.members[id], t.deps[id], dependents[id], sizeHint);
      sccs, sccById := sccs + {c}, sccById[id := c];
    }
  }

  /** A build's interfaces and errors are those of a correct build. */
  ghost predicate Correct(check: Checker, prog: Program, ifaces: map<ModId, Hash>, shown: map<ModId, seq<Str>>)
    requires ValidProgram(prog)
  {
    exists res :: Consistent(check, prog, res) && Shows(res, ifaces, shown)
  }

  ghost predicate Shows(res: map<ModId, Outcome>, ifaces: map<ModId, Hash>, shown: map<ModId, seq<Str>>) {
    && ifaces == Ifaces(res) && shown.Keys <= res.Keys
    && forall m | m in res :: Lines(shown, m) == res[m].errors
  }

  /** The states a build starts from once import structures are hashed. */
  lemma HashedStates(s: Setting, prog: Program, t: Table, metastore: map<ModId, Meta>,
      graph: map<ModId, State>, hashed: map<ModId, State>)
    requires Covers(s, prog) && ValidTable(prog.imports, t) && StoreOk(s, metastore)
    requires LoadsProgram(prog, metastore, graph)
    requires HashesSet(TransHashes(s.digest, prog.imports), t, t.deps.Keys, graph, hashed)
    ensures hashed.Keys == prog.imports.Keys
    ensures forall m {:trigger Untouched(s, prog, m, hashed[m])} | m in hashed :: Untouched(s, prog, m, hashed[m])
    ensures LoadedOk(prog, hashed, metastore) && Hashed(prog, graph, hashed)
  {
    assert graph.Keys == ImportsOf(graph).Keys;
    forall m | m in hashed
      ensures Untouched(s, prog, m, hashed[m]) && LoadedAt(prog, m, hashed[m], metastore)
      ensures hashed[m] == graph[m].(transHash := prog.transHash[m])
    {
      assert t.of[m] in t.members;
      ListOkIff(graph[m]);
      assert prog.transHash[m] == TransHash(s.digest, prog.imports, m);
      assert hashed[m] == graph[m].(transHash := prog.transHash[m]);
      assert LoadedState(prog, metastore, m, graph[m]);
      if hashed[m].meta.Some? {
        assert EntryOk(s, m, metastore[m]);
      }
    }
  }

  /**
   * One build: loads the graph, finds the import cycles and processes them, in this process or with
   * workers, whatever the cache holds, as long as earlier builds wrote it.
   */
  method Rebuild(ghost s: Setting, prog: Program, digest: Digest, tools: Tools, workers: nat,
      sizeHints: map<ModId, nat>, metastore: map<ModId, Meta>)
    returns (ifaces: map<ModId, Hash>, shown: map<ModId, seq<Str>>, metastore1: map<ModId, Meta>,
      ghost units: Table, ghost tr: seq<Event>, ghost outcomes: map<ModId, Outcome>)
    requires ValidSetting(s) && Covers(s, prog) && ToolsWork(s, prog, tools) && StoreOk(s, metastore)
             && digest == s.digest
    ensures Correct(s.check, prog, ifaces, shown) && StoreOk(s, metastore1)
    ensures Consistent(s.check, prog, outcomes) && Shows(outcomes, ifaces, shown)
    ensures ValidTable(prog.imports, units) && HistoryOk(units.deps, tr, units.deps.Keys, {})
    ensures NoneSubmitted(tr) ==> metastore1 == metastore
    ensures UsesStore(prog, metastore, tools.load(prog, metastore)) ==>
              (NoneSubmitted(tr) <==> UpToDate(prog, metastore))
    ensures NeverFails(tools.writes) ==> AllRecorded(prog, tools.load(prog, metastore), metastore1, outcomes)
  {
    var top, t, dependents, graph := Load(s, prog, digest, tools, metastore);
    var sccs, sccById := CreateSccs(t, dependents, sizeHints);
    var manager := CreateManager(s, prog, t, tools, workers, sccs, sccById, top, graph, metastore);
    ifaces, shown, metastore1, tr, outcomes := Run(manager);
    units := t;
    FoundUpToDate(prog, t, metastore, tools.load(prog, metastore), graph);
    if NeverFails(tools.writes) {
      HashedRecorded(prog, tools.load(prog, metastore), graph, metastore1, outcomes);
    }
  }

  /** Everything is found fresh exactly if everything can be served from the store. */
  lemma FoundUpToDate(prog: Program, t: Table, metastore: map<ModId, Meta>, loaded: map<ModId, State>,
      graph: map<ModId, State>)
    requires ValidProgram(prog) && ValidTable(prog.imports, t)
    requires Hashed(prog, loaded, graph) && LoadedOk(prog, graph, metastore)
    ensures UsesStore(prog, metastore, loaded) ==>
              ((forall i | i in t.members :: FreshUnit(t, graph, i)) <==> UpToDate(prog, metastore))
  {
    if UsesStore(prog, metastore, loaded) {
      HashedUsesStore(prog, metastore, loaded, graph);
      forall m | m in graph
        ensures Loaded(prog, m, graph[m])
      {
        assert LoadedAt(prog, m, graph[m], metastore);
      }
      FreshIffUpToDate(prog, t, metastore, graph);
    }
  }

  /** Loads the graph, sorts its import cycles and hashes the import structures. */
  method Load(ghost s: Setting, prog: Program, digest: Digest, tools: Tools, metastore: map<ModId, Meta>)
    returns (top: seq<SccId>, t: Table, dependents: map<SccId, seq<SccId>>, graph: map<ModId, State>)
    requires ValidSetting(s) && Covers(s, prog) && ToolsWork(s, prog, tools) && StoreOk(s, metastore)
             && digest == s.digest
    ensures Setup(s, prog, t, tools.solve(prog))
    ensures InDependencyOrder(t.deps, top) && IdSet(top) == t.deps.Keys && Reversed(t.deps, dependents)
    ensures graph.Keys == prog.imports.Keys
    ensures forall m {:trigger Untouched(s, prog, m, graph[m])} | m in graph :: Untouched(s, prog, m, graph[m])
    ensures LoadedOk(prog, graph, metastore) && Hashed(prog, tools.load(prog, metastore), graph)
  {
    var loaded := tools.load(prog, metastore);
    assert LoadsProgram(prog, metastore, loaded);
    KeysAreImports(prog, metastore, loaded);
    top, t, dependents, graph := SortedComponents(loaded, tools.cycles(prog.imports), tools.order(prog.imports),
        digest);
    HashedStates(s, prog, t, metastore, loaded, graph);
    CyclesAreUnits(s.check, prog, t, tools.solve(prog));
  }

  lemma KeysAreImports(prog: Program, metastore: map<ModId, Meta>, graph: map<ModId, State>)
    requires ValidProgram(prog) && LoadsProgram(prog, metastore, graph)
    ensures graph.Keys == prog.imports.Keys
  {
    assert graph.Keys == ImportsOf(graph).Keys;
  }

  /** Processes the graph, and reads off the results. */
  method Run(manager: BuildManager)
    returns (ifaces: map<ModId, Hash>, shown: map<ModId, seq<Str>>, metastore1: map<ModId, Meta>, ghost tr: seq<Event>,
      ghost outcomes: map<ModId, Outcome>)
    requires manager.Wiring() && manager.WorkersSeeInterfaces() && manager.AtStart()
    modifies manager, manager.pool, manager.pool.queue, manager.memo, manager.sccs
    ensures Correct(manager.s.check, manager.prog, ifaces, shown) && StoreOk(manager.s, metastore1)
    ensures Consistent(manager.s.check, manager.prog, outcomes) && Shows(outcomes, ifaces, shown)
    ensures HistoryOk(manager.t.deps, tr, manager.t.deps.Keys, {})
    ensures NoneSubmitted(tr) <==> forall i | i in manager.t.members :: FreshUnit(manager.t, old(manager.graph), i)
    ensures NoneSubmitted(tr) ==> metastore1 == old(manager.metastore)
    ensures NeverFails(manager.writes) ==> AllRecorded(manager.prog, old(manager.graph), metastore1, outcomes)
  {
    ghost var rounds;
    tr, rounds := manager.ProcessGraph();
    ifaces := map m | m in manager.graph :: manager.graph[m].iface;
    shown, metastore1, outcomes := manager.flushed, manager.metastore, manager.outcomes;
    FinishedShows(manager, ifaces);
  }

  lemma FinishedShows(manager: BuildManager, ifaces: map<ModId, Hash>)
    requires manager.Wiring() && manager.Finished()
    requires ifaces == map m | m in manager.graph :: manager.graph[m].iface
    ensures Shows(manager.outcomes, ifaces, manager.flushed)
    ensures Correct(manager.s.check, manager.prog, ifaces, manager.flushed)
  {
    assert Shows(manager.outcomes, ifaces, manager.flushed);
  }

  method CreateManager(ghost s: Setting, prog: Program, t: Table, tools: Tools, workers: nat,
      sccs: set<Scc>, sccById: map<SccId, Scc>, top: seq<SccId>, graph: map<ModId, State>, metastore: map<ModId, Meta>)
    returns (manager: BuildManager)
    requires Setup(s, prog, t, tools.solve(prog)) && NewObjects(t, sccs, sccById) && sccById.Keys == t.members.Keys
    requires SeesInterfaces(prog.imports, tools.workerView)
    requires InDependencyOrder(t.deps, top) && IdSet(top) == t.deps.Keys
    requires graph.Keys == prog.imports.Keys && StoreOk(s, metastore) && LoadedOk(prog, graph, metastore)
    requires forall m {:trigger Untouched(s, prog, m, graph[m])} | m in graph :: Untouched(s, prog, m, graph[m])
    ensures fresh(manager) && fresh(manager.memo) && fresh(manager.pool) && fresh(manager.pool.queue)
            && manager.sccs == sccs
    ensures manager.s == s && manager.prog == prog && manager.t == t && manager.writes == tools.writes
    ensures manager.graph == graph && manager.metastore == metastore
    ensures manager.Wiring() && manager.WorkersSeeInterfaces() && manager.AtStart()
  {
    var pool := new WorkerPool(workers);
    var sccByModId := map m | m in t.of && t.of[m] in sccById :: sccById[t.of[m]];
    manager := new BuildManager(s, prog, t, tools.solve(prog), pool, tools.workerView, tools.writes, sccs, sccById,
        sccByModId, top, graph, metastore);
    StartsWired(manager);
    StartsReady(manager);
  }

  lemma StartsReady(manager: BuildManager)
    requires manager.Wiring() && NewObjects(manager.t, manager.sccs, manager.sccById)
    requires manager.sccById.Keys == manager.t.members.Keys && manager.memo.Valid()
    requires manager.completed == {} && manager.outcomes == map[] && manager.flushed == map[]
             && manager.localQueue == []
    requires manager.pool.Valid() && manager.pool.where == map[] && manager.pool.busy == map[]
             && manager.pool.queue.items == []
    requires InDependencyOrder(manager.t.deps, manager.topOrder) && IdSet(manager.topOrder) == manager.t.deps.Keys
    requires manager.graph.Keys == manager.prog.imports.Keys && StoreOk(manager.s, manager.metastore)
    requires manager.graph == manager.loaded && manager.metastore == manager.store0
             && LoadedOk(manager.prog, manager.loaded, manager.store0)
    requires forall m {:trigger Untouched(manager.s, manager.prog, m, manager.graph[m])} | m in manager.graph ::
             Untouched(manager.s, manager.prog, m, manager.graph[m])
    ensures manager.AtStart()
  {
    StartsCounted(manager);
    assert forall i :: i in manager.topOrder <==> i in IdSet(manager.topOrder);
  }

  lemma StartsWired(manager: BuildManager)
    requires Setup(manager.s, manager.prog, manager.t, manager.solve)
    requires NewObjects(manager.t, manager.sccs, manager.sccById) && manager.sccById.Keys == manager.t.members.Keys
    requires manager.sccByModId == map m | m in manager.t.of
             && manager.t.of[m] in manager.sccById :: manager.sccById[manager.t.of[m]]
    requires manager.memo.deps == manager.t.deps && manager.lossless == NeverFails(manager.writes)
    ensures manager.Wiring()
  {
    forall i | i in manager.sccById
      ensures manager.SccMatches(manager.sccById[i], i)
    {
    }
    forall m | m in manager.t.of
      ensures m in manager.sccByModId && manager.t.of[m] in manager.sccById
    {
    }
  }

  lemma StartsCounted(manager: BuildManager)
    requires NewObjects(manager.t, manager.sccs, manager.sccById) && manager.sccById.Keys == manager.t.members.Keys
    ensures manager.Counted({})
  {
    forall i | i in manager.sccById
      ensures manager.sccById[i].id == i && manager.sccById[i].notReadyCount == Unfinished(manager.t.deps, {}, i)
    {
      assert manager.t.deps[i] - {} == manager.t.deps[i];
    }
  }

  /** The tools and the digest serve every program of a history. */
  ghost predicate Serves(s: Setting, progs: seq<Program>, tools: Tools) {
    ValidSetting(s) && forall k | 0 <= k < |progs| :: Covers(s, progs[k]) && ToolsWork(s, progs[k], tools)
  }

  /** One build of a history. */
  method BuildNext(ghost s: Setting, prog: Program, digest: Digest, tools: Tools, workers: nat,
      sizeHints: map<ModId, nat>, metastore: map<ModId, Meta>)
    returns (ifaces: map<ModId, Hash>, shown: map<ModId, seq<Str>>, metastore1: map<ModId, Meta>)
    requires ValidSetting(s) && Covers(s, prog) && ToolsWork(s, prog, tools) && StoreOk(s, metastore)
             && digest == s.digest
    ensures Correct(s.check, prog, ifaces, shown) && StoreOk(s, metastore1)
  {
    ghost var units, tr, outcomes;
    ifaces, shown, metastore1, units, tr, outcomes := Rebuild(s, prog, digest, tools, workers, sizeHints, metastore);
  }

  /** Builds programs in turn, each with the cache that the builds before it left behind; the first with no cache. */
  method BuildAll(ghost s: Setting, progs: seq<Program>, digest: Digest, tools: Tools, workers: nat,
      sizeHints: map<ModId, nat>)
    returns (ifaces: seq<map<ModId, Hash>>, shown: seq<map<ModId, seq<Str>>>, metastore: map<ModId, Meta>)
    requires Serves(s, progs, tools) && digest == s.digest
    ensures |ifaces| == |shown| == |progs| && StoreOk(s, metastore)
    ensures forall k | 0 <= k < |progs| :: ValidProgram(progs[k]) && Correct(s.check, progs[k], ifaces[k], shown[k])
  {
    ifaces, shown, metastore := [], [], map[];
    for k := 0 to |progs|
      invariant |ifaces| == |shown| == k && StoreOk(s, metastore)
      invariant forall j | 0 <= j < k :: ValidProgram(progs[j]) && Correct(s.check, progs[j], ifaces[j], shown[j])
    {
      var hashes, errors;
      hashes, errors, metastore := BuildNext(s, progs[k], digest, tools, workers, sizeHints, metastore);
      ifaces, shown := ifaces + [hashes], shown + [errors];
    }
  }

  /** Loading takes from any store what it can. */
  ghost predicate LoadsFromStore(prog: Program, tools: Tools)
    requires ValidProgram(prog)
  {
    forall store {:trigger tools.load(prog, store)} :: UsesStore(prog, store, tools.load(prog, store))
  }

  /**
   * Two builds of the same program, one after the other. If no write fails in the first, the second
   * submits nothing exactly if the hashes that the first recorded for dependencies that a module
   * cannot reach are final, too; which is so whenever the first was loaded with none of these. Then
   * the second leaves the store as it is, and finds the same.
   */
  method RebuildUnchanged(ghost s: Setting, prog: Program, digest: Digest, tools: Tools, workers: nat,
      laterWorkers: nat, sizeHints: map<ModId, nat>, metastore: map<ModId, Meta>)
    returns (ifaces: map<ModId, Hash>, shown: map<ModId, seq<Str>>, metastore1: map<ModId, Meta>,
      laterIfaces: map<ModId, Hash>, laterShown: map<ModId, seq<Str>>, metastore2: map<ModId, Meta>,
      ghost outcomes: map<ModId, Outcome>, ghost tr: seq<Event>)
    requires ValidSetting(s) && Covers(s, prog) && ToolsWork(s, prog, tools) && digest == s.digest
    requires StoreOk(s, metastore) && LoadsFromStore(prog, tools) && NeverFails(tools.writes)
    ensures Consistent(s.check, prog, outcomes) && Shows(outcomes, ifaces, shown)
    ensures forall m | m in prog.imports :: m in metastore1
    ensures NoneSubmitted(tr) <==> forall m | m in prog.imports :: FarHashesFinal(prog, metastore1[m], outcomes, m)
    ensures ListedReachable(prog, tools.load(prog, metastore)) ==> NoneSubmitted(tr)
    ensures metastore == map[] ==> NoneSubmitted(tr)
    ensures NoneSubmitted(tr) ==> metastore2 == metastore1 && laterIfaces == ifaces
    ensures NoneSubmitted(tr) ==> forall m :: Lines(laterShown, m) == Lines(shown, m)
  {
    ghost var units, tr1, later;
    ifaces, shown, metastore1, units, tr1, outcomes := Rebuild(s, prog, digest, tools, workers, sizeHints, metastore);
    ghost var loaded := tools.load(prog, metastore);
    LeavesRecords(prog, metastore, loaded, metastore1, outcomes);
    laterIfaces, laterShown, metastore2, units, tr, later :=
      Rebuild(s, prog, digest, tools, laterWorkers, sizeHints, metastore1);
    if NoneSubmitted(tr) {
      SameRecorded(prog, loaded, tools.load(prog, metastore1), metastore1, outcomes, later);
      SameShown(outcomes, ifaces, shown, laterIfaces, laterShown);
    }
  }

  lemma LeavesRecords(prog: Program, store: map<ModId, Meta>, loaded: map<ModId, State>, store1: map<ModId, Meta>,
      outcomes: map<ModId, Outcome>)
    requires ValidProgram(prog) && LoadsProgram(prog, store, loaded) && UsesStore(prog, store, loaded)
    requires AllRecorded(prog, loaded, store1, outcomes)
    ensures forall m | m in prog.imports :: m in store1
    ensures UpToDate(prog, store1) <==> forall m | m in prog.imports :: FarHashesFinal(prog, store1[m], outcomes, m)
    ensures ListedReachable(prog, loaded) ==> UpToDate(prog, store1)
    ensures store == map[] ==> ListedReachable(prog, loaded)
  {
    RecordedUpToDate(prog, loaded, store1, outcomes);
    if ListedReachable(prog, loaded) {
      LeavesUpToDate(prog, store, loaded, store1, outcomes);
    }
    forall m | m in prog.imports && m in loaded
      ensures LoadedState(prog, store, m, loaded[m])
    {
    }
  }

  lemma SameRecorded(prog: Program, loaded1: map<ModId, State>, loaded2: map<ModId, State>, store: map<ModId, Meta>,
      outcomes1: map<ModId, Outcome>, outcomes2: map<ModId, Outcome>)
    requires ValidProgram(prog) && outcomes1.Keys == outcomes2.Keys == prog.imports.Keys
    requires AllRecorded(prog, loaded1, store, outcomes1) && AllRecorded(prog, loaded2, store, outcomes2)
    ensures forall ifaces, shown | Shows(outcomes2, ifaces, shown) :: Shows(outcomes1, ifaces, shown)
  {
    forall m | m in prog.imports
      ensures outcomes1[m].iface == outcomes2[m].iface && outcomes1[m].errors == outcomes2[m].errors
    {
      assert m in store && Recorded(prog, m, loaded1[m], store[m], outcomes1)
             && Recorded(prog, m, loaded2[m], store[m], outcomes2);
    }
    assert Ifaces(outcomes1) == Ifaces(outcomes2);
  }

  /** Where each import cycle has only one solution, correct builds agree on every interface and every error. */
  lemma CorrectUnique(check: Checker, prog: Program, ifaces1: map<ModId, Hash>, shown1: map<ModId, seq<Str>>,
      ifaces2: map<ModId, Hash>, shown2: map<ModId, seq<Str>>)
    requires ValidProgram(prog) && LocallyUnique(check, prog)
    requires Correct(check, prog, ifaces1, shown1) && Correct(check, prog, ifaces2, shown2)
    ensures ifaces1 == ifaces2 && ifaces1.Keys == prog.imports.Keys
    ensures forall m :: Lines(shown1, m) == Lines(shown2, m)
  {
    var res1 := ResultOf(check, prog, ifaces1, shown1);
    var res2 := ResultOf(check, prog, ifaces2, shown2);
    ConsistentUnique(check, prog, res1, res2);
    SameShown(res1, ifaces1, shown1, ifaces2, shown2);
  }

  lemma ResultOf(check: Checker, prog: Program, ifaces: map<ModId, Hash>, shown: map<ModId, seq<Str>>)
    returns (res: map<ModId, Outcome>)
    requires ValidProgram(prog) && Correct(check, prog, ifaces, shown)
    ensures Consistent(check, prog, res) && res.Keys == prog.imports.Keys && Shows(res, ifaces, shown)
  {
    res :| Consistent(check, prog, res) && Shows(res, ifaces, shown);
  }

  lemma SameShown(res: map<ModId, Outcome>, ifaces1: map<ModId, Hash>, shown1: map<ModId, seq<Str>>,
      ifaces2: map<ModId, Hash>, shown2: map<ModId, seq<Str>>)
    requires Shows(res, ifaces1, shown1) && Shows(res, ifaces2, shown2)
    ensures ifaces1 == ifaces2 && ifaces1.Keys == res.Keys
    ensures forall m :: Lines(shown1, m) == Lines(shown2, m)
  {
    forall m
      ensures Lines(shown1, m) == Lines(shown2, m)
    {
      if m in res {
        assert Lines(shown1, m) == res[m].errors;
      }
    }
  }

  /**
   * Whatever earlier builds have stored, a build with the cache gives exactly the interfaces and
   * errors that a build without a cache gives, whichever of the two uses workers.
   */
  method CachedEqualsClean(ghost s: Setting, prog: Program, digest: Digest, tools: Tools, workers: nat,
      cleanWorkers: nat, sizeHints: map<ModId, nat>, metastore: map<ModId, Meta>)
    returns (ifaces: map<ModId, Hash>, shown: map<ModId, seq<Str>>, cleanIfaces: map<ModId, Hash>,
        cleanShown: map<ModId, seq<Str>>)
    requires ValidSetting(s) && Covers(s, prog) && ToolsWork(s, prog, tools) && digest == s.digest
    requires StoreOk(s, metastore) && LocallyUnique(s.check, prog)
    ensures ifaces == cleanIfaces && ifaces.Keys == prog.imports.Keys
    ensures forall m :: Lines(shown, m) == Lines(cleanShown, m)
  {
    var ignored;
    ghost var units, tr, outcomes;
    ifaces, shown, ignored, units, tr, outcomes := Rebuild(s, prog, digest, tools, workers, sizeHints, metastore);
    cleanIfaces, cleanShown, ignored, units, tr, outcomes :=
      Rebuild(s, prog, digest, tools, cleanWorkers, sizeHints, map[]);
    CorrectUnique(s.check, prog, ifaces, shown, cleanIfaces, cleanShown);
  }

  /** So does a build after any history of builds of other versions of the program. */
  method IncrementalEqualsClean(ghost s: Setting, history: seq<Program>, prog: Program, digest: Digest, tools: Tools,
      workers: nat, cleanWorkers: nat, sizeHints: map<ModId, nat>)
    returns (ifaces: map<ModId, Hash>, shown: map<ModId, seq<Str>>, cleanIfaces: map<ModId, Hash>,
        cleanShown: map<ModId, seq<Str>>)
    requires Serves(s, history + [prog], tools) && digest == s.digest
    requires ValidProgram(prog) && LocallyUnique(s.check, prog)
    ensures ifaces == cleanIfaces && ifaces.Keys == prog.imports.Keys
    ensures forall m :: Lines(shown, m) == Lines(cleanShown, m)
  {
    forall k | 0 <= k < |history|
      ensures Covers(s, history[k]) && ToolsWork(s, history[k], tools)
    {
      assert (history + [prog])[k] == history[k];
    }
    assert (history + [prog])[|history|] == prog;
    var before, errors, metastore := BuildAll(s, history, digest, tools, workers, sizeHints);
    ifaces, shown, cleanIfaces, cleanShown := CachedEqualsClean(s, prog, digest, tools, workers, cleanWorkers,
        sizeHints, metastore);
  }
}
