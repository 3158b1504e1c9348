// What a build leaves in the store, and when the next build of the same program finds nothing to do.
module Records {
  import opened Text
  import opened Reach
  import opened ImportHash
  import opened Incremental
  import opened SccTable
  import opened Progress
  import opened Components

  /** A module taken from the cache. */
  function CachedState(prog: Program, m: ModId, e: Meta): State
    requires m in prog.transHash
  {
    State(e.source, e.dependencies, e.priorities, e.suppressedOpts, Some(e), e.depHashes, e.iface, prog.transHash[m],
        e.errorLines)
  }

  /** The entry is for this source, and for these options and imports. */
  ghost predicate Usable(prog: Program, m: ModId, e: Meta)
    requires ValidProgram(prog) && m in prog.imports
  {
    Loaded(prog, m, CachedState(prog, m, e)) && ListOk(e.dependencies, e.priorities)
  }

  /** No dependency is listed twice, and none has a priority beyond indirect. */
  ghost predicate ListOk(dependencies: seq<ModId>, priorities: map<ModId, int>) {
    Once(dependencies) && forall d | d in dependencies :: Priority(priorities, d) <= PRI_INDIRECT
  }

  ghost predicate Once(names: seq<ModId>) {
    names == [] || (names[0] !in names[1..] && Once(names[1..]))
  }

  lemma {:induction false} OnceIff(names: seq<ModId>)
    ensures Once(names) <==> !Duplicates(names)
  {
    if names != [] {
      OnceIff(names[1..]);
      DuplicatesCons(names[0], names[1..]);
      assert names == [names[0]] + names[1..];
    }
  }

  lemma ListOkIff(st: State)
    ensures StateOk(st) <==> ListOk(st.dependencies, st.priorities)
  {
    OnceIff(st.dependencies);
  }

  /** The import structure of the module is as recorded, or what it lists as indirect can be reached. */
  ghost predicate StructureCurrent(prog: Program, m: ModId, e: Meta)
    requires ValidProgram(prog) && m in prog.imports
  {
    e.transHash == prog.transHash[m] || IndirectReachable(prog.imports, m, e.dependencies, e.priorities)
  }

  /** The entry of a module with this state as loaded, once the outcomes are known. */
  ghost predicate Recorded(prog: Program, m: ModId, st0: State, e: Meta, outcomes: map<ModId, Outcome>)
    requires ValidProgram(prog) && m in prog.imports
  {
    && Usable(prog, m, e) && StructureCurrent(prog, m, e)
    && m in outcomes && e.iface == outcomes[m].iface && e.errorLines == outcomes[m].errors
    && e.depHashes.Keys == ToSet(e.dependencies)
    && (forall d | d in e.depHashes && d in Closure(prog.imports, m) ::
          d in outcomes && e.depHashes[d] == outcomes[d].iface)
    && (IndirectReachable(prog.imports, m, e.dependencies, e.priorities)
        <==> IndirectReachable(prog.imports, m, st0.dependencies, st0.priorities))
  }

  /** The entry of the module is usable, and all that it lists has the interface that is recorded for it. */
  ghost predicate CurrentEntry(prog: Program, store: map<ModId, Meta>, m: ModId)
    requires ValidProgram(prog) && m in prog.imports
  {
    && m in store && Usable(prog, m, store[m]) && StructureCurrent(prog, m, store[m])
    && forall d | d in store[m].depHashes && d in prog.imports ::
         d in store && store[d].iface == store[m].depHashes[d]
  }

  /** Everything in the program can be served from the store. */
  ghost predicate UpToDate(prog: Program, store: map<ModId, Meta>)
    requires ValidProgram(prog)
  {
    forall m | m in prog.imports :: CurrentEntry(prog, store, m)
  }

  /** The store holds what a build with these outcomes records. */
  ghost predicate AllRecorded(prog: Program, loaded: map<ModId, State>, store: map<ModId, Meta>,
      outcomes: map<ModId, Outcome>)
    requires ValidProgram(prog)
  {
    forall m {:trigger m in store} | m in prog.imports ::
      m in store && m in loaded && Recorded(prog, m, loaded[m], store[m], outcomes)
  }

  /** The hashes recorded for dependencies that the module cannot reach are those of the final interfaces, too. */
  ghost predicate FarHashesFinal(prog: Program, e: Meta, outcomes: map<ModId, Outcome>, m: ModId) {
    forall d | d in e.depHashes && d !in Closure(prog.imports, m) ::
      d in outcomes && e.depHashes[d] == outcomes[d].iface
  }

  /** What a build leaves is up to date exactly if the hashes of unreachable dependencies are final, too. */
  lemma RecordedUpToDate(prog: Program, loaded: map<ModId, State>, store: map<ModId, Meta>,
      outcomes: map<ModId, Outcome>)
    requires ValidProgram(prog) && AllRecorded(prog, loaded, store, outcomes)
    ensures UpToDate(prog, store)
            <==> forall m | m in prog.imports :: m in store && FarHashesFinal(prog, store[m], outcomes, m)
  {
    forall m | m in prog.imports
      ensures m in store && (CurrentEntry(prog, store, m) <==> FarHashesFinal(prog, store[m], outcomes, m))
    {
      RecordedCurrent(prog, loaded, store, outcomes, m);
    }
  }

  lemma RecordedCurrent(prog: Program, loaded: map<ModId, State>, store: map<ModId, Meta>,
      outcomes: map<ModId, Outcome>, m: ModId)
    requires ValidProgram(prog) && AllRecorded(prog, loaded, store, outcomes) && m in prog.imports
    ensures m in store && (CurrentEntry(prog, store, m) <==> FarHashesFinal(prog, store[m], outcomes, m))
  {
    assert m in store && Recorded(prog, m, loaded[m], store[m], outcomes);
    forall d | d in store[m].depHashes
      ensures d in prog.imports && d in store && d in outcomes && store[d].iface == outcomes[d].iface
    {
      assert d in ToSet(store[m].dependencies);
      assert d in store && d in loaded && Recorded(prog, d, loaded[d], store[d], outcomes);
    }
  }

  /** That is so if each module could reach what it listed as indirect when it was loaded. */
  lemma ReachableUpToDate(prog: Program, loaded: map<ModId, State>, store: map<ModId, Meta>,
      outcomes: map<ModId, Outcome>)
    requires ValidProgram(prog) && AllRecorded(prog, loaded, store, outcomes)
    requires forall m | m in prog.imports :: m in loaded
               && IndirectReachable(prog.imports, m, loaded[m].dependencies, loaded[m].priorities)
    ensures UpToDate(prog, store)
  {
    forall m | m in prog.imports
      ensures m in store && FarHashesFinal(prog, store[m], outcomes, m)
    {
      AllNear(prog, m, loaded[m], store[m], outcomes);
    }
    RecordedUpToDate(prog, loaded, store, outcomes);
  }

  lemma AllNear(prog: Program, m: ModId, st0: State, e: Meta, outcomes: map<ModId, Outcome>)
    requires ValidProgram(prog) && m in prog.imports && Recorded(prog, m, st0, e, outcomes)
    requires IndirectReachable(prog.imports, m, st0.dependencies, st0.priorities)
    ensures FarHashesFinal(prog, e, outcomes, m)
  {
    forall d | d in e.depHashes
      ensures d in Closure(prog.imports, m)
    {
      assert d in ToSet(e.dependencies);
      if !IsIndirect(e.priorities, d) {
        assert d in DirectOf(e.dependencies, e.priorities);
        EdgeReaches(prog.imports, m, d);
      }
    }
  }

  // The freshness test on states that were loaded from the store.

  /**
   * Modules with a usable entry are loaded from it. Others are parsed, which gives their imports only,
   * or have lists that differ from those of an entry.
   */
  ghost predicate UsesStore(prog: Program, store: map<ModId, Meta>, graph: map<ModId, State>)
    requires ValidProgram(prog)
  {
    forall m {:trigger graph[m]} | m in prog.imports && m in graph ::
      if m in store && Usable(prog, m, store[m]) then
        graph[m].(transHash := prog.transHash[m]) == CachedState(prog, m, store[m])
      else
        !IsFresh(graph[m]) && (graph[m].meta.None? ==> ToSet(graph[m].dependencies) == prog.imports[m])
  }

  /** What modules are loaded with as indirect dependencies can be reached. */
  ghost predicate ListedReachable(prog: Program, loaded: map<ModId, State>)
    requires ValidProgram(prog)
  {
    forall m {:trigger loaded[m]} | m in prog.imports && m in loaded && loaded[m].meta.Some? ::
      IndirectReachable(prog.imports, m, loaded[m].dependencies, loaded[m].priorities)
  }

  /** What was loaded, with the import structures of the program hashed. */
  ghost predicate Hashed(prog: Program, loaded: map<ModId, State>, graph: map<ModId, State>)
    requires ValidProgram(prog)
  {
    && loaded.Keys == graph.Keys == prog.imports.Keys
    && forall m {:trigger graph[m]} | m in graph :: graph[m] == loaded[m].(transHash := prog.transHash[m])
  }

  lemma HashedUsesStore(prog: Program, store: map<ModId, Meta>, loaded: map<ModId, State>, graph: map<ModId, State>)
    requires ValidProgram(prog) && Hashed(prog, loaded, graph) && UsesStore(prog, store, loaded)
    ensures UsesStore(prog, store, graph)
  {
    forall m | m in graph
      ensures graph[m].(transHash := prog.transHash[m]) == loaded[m].(transHash := prog.transHash[m])
      ensures IsFresh(graph[m]) <==> IsFresh(loaded[m])
    {
    }
  }

  lemma HashedRecorded(prog: Program, loaded: map<ModId, State>, graph: map<ModId, State>, store: map<ModId, Meta>,
      outcomes: map<ModId, Outcome>)
    requires ValidProgram(prog) && Hashed(prog, loaded, graph) && AllRecorded(prog, graph, store, outcomes)
    ensures AllRecorded(prog, loaded, store, outcomes)
  {
    forall m | m in prog.imports
      ensures m in store && m in loaded && Recorded(prog, m, loaded[m], store[m], outcomes)
    {
      assert m in store && Recorded(prog, m, graph[m], store[m], outcomes);
    }
  }

  /** If what is listed can be reached, a build leaves a store that is up to date. */
  lemma LeavesUpToDate(prog: Program, store0: map<ModId, Meta>, loaded: map<ModId, State>, store: map<ModId, Meta>,
      outcomes: map<ModId, Outcome>)
    requires ValidProgram(prog) && AllRecorded(prog, loaded, store, outcomes)
    requires UsesStore(prog, store0, loaded) && ListedReachable(prog, loaded)
    ensures UpToDate(prog, store)
  {
    forall m | m in prog.imports
      ensures m in loaded && IndirectReachable(prog.imports, m, loaded[m].dependencies, loaded[m].priorities)
    {
      assert m in store && m in loaded && Recorded(prog, m, loaded[m], store[m], outcomes);
      if loaded[m].meta.None? {
        forall d | d in loaded[m].dependencies
          ensures d in Closure(prog.imports, m)
        {
          assert d in ToSet(loaded[m].dependencies);
          EdgeReaches(prog.imports, m, d);
        }
      }
    }
    ReachableUpToDate(prog, loaded, store, outcomes);
  }

  /** A unit is found fresh exactly if nothing recorded for its modules has changed. */
  lemma UnchangedIffFresh(t: Table, graph: map<ModId, State>, i: SccId)
    requires i in t.members
    ensures FreshUnit(t, graph, i) <==> forall m | m in t.members[i] ::
              && m in graph && graph[m].meta.Some?
              && graph[m].dependencies == graph[m].meta.value.dependencies
              && graph[m].suppressedOpts == graph[m].meta.value.suppressedOpts
              && (forall d | d in graph[m].depHashes && d in graph :: graph[m].depHashes[d] == graph[d].iface)
              && (graph[m].transHash == graph[m].meta.value.transHash
                  || forall d | d in graph[m].dependencies && d in graph[m].priorities
                                && graph[m].priorities[d] == 30 ::
                       d in t.of && (t.of[d] == i || Reaches(t.deps, i, t.of[d])))
  {
  }

  lemma VerifiedIffReachable(prog: Program, t: Table, i: SccId, m: ModId, st: State)
    requires ValidProgram(prog) && ValidTable(prog.imports, t) && Describes(prog, m, st)
    requires i in t.members && m in t.members[i]
    ensures IndirectVerified(t, i, st) <==> IndirectReachable(prog.imports, m, st.dependencies, st.priorities)
  {
    forall d | d in st.dependencies
      ensures d in t.of && (t.of[d] == i || Reaches(t.deps, i, t.of[d]) <==> d in Closure(prog.imports, m))
    {
      assert d in ToSet(st.dependencies);
      UnitReached(prog.imports, t, i, m, d);
    }
  }

  /** What is served from the store when everything is up to date, and only then: all of the program. */
  lemma FreshIffUpToDate(prog: Program, t: Table, store: map<ModId, Meta>, graph: map<ModId, State>)
    requires ValidProgram(prog) && ValidTable(prog.imports, t) && graph.Keys == prog.imports.Keys
    requires UsesStore(prog, store, graph)
    requires forall m | m in graph :: Loaded(prog, m, graph[m])
    ensures (forall i | i in t.members :: FreshUnit(t, graph, i)) <==> UpToDate(prog, store)
  {
    if UpToDate(prog, store) {
      forall i, m | i in t.members && m in t.members[i]
        ensures FreshModule(t, graph, i, m)
      {
        CurrentIsFresh(prog, t, store, graph, i, m);
      }
    }
    if forall i | i in t.members :: FreshUnit(t, graph, i) {
      FreshIsCurrent(prog, t, store, graph);
    }
  }

  lemma FreshIsCurrent(prog: Program, t: Table, store: map<ModId, Meta>, graph: map<ModId, State>)
    requires ValidProgram(prog) && ValidTable(prog.imports, t) && graph.Keys == prog.imports.Keys
    requires UsesStore(prog, store, graph)
    requires forall m | m in graph :: Loaded(prog, m, graph[m])
    requires forall i | i in t.members :: FreshUnit(t, graph, i)
    ensures UpToDate(prog, store)
  {
    forall m | m in prog.imports
      ensures t.of[m] in t.members && FreshModule(t, graph, t.of[m], m)
      ensures m in store && Usable(prog, m, store[m]) && graph[m] == CachedState(prog, m, store[m])
    {
      assert t.of[m] in t.members && m in t.members[t.of[m]] && FreshUnit(t, graph, t.of[m]);
      assert FreshModule(t, graph, t.of[m], m);
      assert graph[m].(transHash := prog.transHash[m]) == graph[m];
    }
    forall m | m in prog.imports
      ensures CurrentEntry(prog, store, m)
    {
      VerifiedIffReachable(prog, t, t.of[m], m, graph[m]);
    }
  }

  lemma CurrentIsFresh(prog: Program, t: Table, store: map<ModId, Meta>, graph: map<ModId, State>, i: SccId, m: ModId)
    requires ValidProgram(prog) && ValidTable(prog.imports, t) && graph.Keys == prog.imports.Keys
    requires UsesStore(prog, store, graph) && UpToDate(prog, store)
    requires forall m | m in graph :: Loaded(prog, m, graph[m])
    requires i in t.members && m in t.members[i]
    ensures FreshModule(t, graph, i, m)
  {
    assert t.of[m] == i;
    forall d | d in prog.imports
      ensures d in store && graph[d] == CachedState(prog, d, store[d])
    {
      assert CurrentEntry(prog, store, d);
      assert Loaded(prog, d, graph[d]);
      assert graph[d].(transHash := prog.transHash[d]) == graph[d];
    }
    VerifiedIffReachable(prog, t, i, m, graph[m]);
  }

  // While a build runs.

  ghost predicate NeverFails(writes: (ModId, Meta) -> bool) {
    forall m, e :: writes(m, e)
  }

  ghost function EntryAt(store: map<ModId, Meta>, m: ModId): Option<Meta> {
    if m in store then Some(store[m]) else None
  }

  /** Where a module is: its outcome is unknown, a worker has yet to check its function bodies, or all is done. */
  datatype Phase = Open | Held | Closed

  function PhaseOf(m: ModId, outcomes: map<ModId, Outcome>, held: bool): Phase {
    if m !in outcomes then Open else if held then Held else Closed
  }

  /** One module: as it was loaded, until its outcome is known, and recorded when all is done. */
  ghost predicate KeptAt(prog: Program, m: ModId, st0: State, before: Option<Meta>, st: State, now: Option<Meta>,
      outcomes: map<ModId, Outcome>, held: bool)
    requires ValidProgram(prog) && m in prog.imports
  {
    match PhaseOf(m, outcomes, held)
    case Open => st == st0 && now == before
    case Held => st == st0.(iface := outcomes[m].iface) && now == before
    case Closed => now.Some? && Recorded(prog, m, st0, now.value, outcomes)
  }

  ghost predicate Kept(prog: Program, loaded: map<ModId, State>, store0: map<ModId, Meta>, graph: map<ModId, State>,
      store: map<ModId, Meta>, outcomes: map<ModId, Outcome>, held: set<ModId>)
    requires ValidProgram(prog)
  {
    && loaded.Keys == graph.Keys == prog.imports.Keys
    && forall m {:trigger loaded[m]} {:trigger graph[m]} | m in prog.imports ::
         KeptAt(prog, m, loaded[m], EntryAt(store0, m), graph[m], EntryAt(store, m), outcomes, m in held)
  }

  /** The state of m is as loading leaves it: well formed, with the entry of the store. */
  ghost predicate LoadedAt(prog: Program, m: ModId, st0: State, store0: map<ModId, Meta>)
    requires ValidProgram(prog)
  {
    && Loaded(prog, m, st0) && ListOk(st0.dependencies, st0.priorities)
    && (st0.meta.Some? ==> m in store0 && store0[m] == st0.meta.value)
  }

  ghost predicate LoadedOk(prog: Program, loaded: map<ModId, State>, store0: map<ModId, Meta>)
    requires ValidProgram(prog)
  {
    forall m {:trigger loaded[m]} | m in loaded :: LoadedAt(prog, m, loaded[m], store0)
  }

  /** The modules that are not as they should be. */
  ghost function Unkept(prog: Program, loaded: map<ModId, State>, store0: map<ModId, Meta>, graph: map<ModId, State>,
      store: map<ModId, Meta>, outcomes: map<ModId, Outcome>, held: set<ModId>): set<ModId>
    requires ValidProgram(prog)
  {
    set m | m in prog.imports.Keys + loaded.Keys + graph.Keys
            && !(m in prog.imports && m in loaded && m in graph && LoadedAt(prog, m, loaded[m], store0)
                 && KeptAt(prog, m, loaded[m], EntryAt(store0, m), graph[m], EntryAt(store, m), outcomes, m in held))
  }

  lemma NoneUnkept(prog: Program, loaded: map<ModId, State>, store0: map<ModId, Meta>, graph: map<ModId, State>,
      store: map<ModId, Meta>, outcomes: map<ModId, Outcome>, held: set<ModId>)
    requires ValidProgram(prog)
    ensures Unkept(prog, loaded, store0, graph, store, outcomes, held) == {}
            <==> Kept(prog, loaded, store0, graph, store, outcomes, held) && LoadedOk(prog, loaded, store0)
  {
    if Unkept(prog, loaded, store0, graph, store, outcomes, held) == {} {
      NoneUnkeptKept(prog, loaded, store0, graph, store, outcomes, held);
    }
  }

  lemma NoneUnkeptKept(prog: Program, loaded: map<ModId, State>, store0: map<ModId, Meta>, graph: map<ModId, State>,
      store: map<ModId, Meta>, outcomes: map<ModId, Outcome>, held: set<ModId>)
    requires ValidProgram(prog) && Unkept(prog, loaded, store0, graph, store, outcomes, held) == {}
    ensures Kept(prog, loaded, store0, graph, store, outcomes, held) && LoadedOk(prog, loaded, store0)
  {
    var bad := Unkept(prog, loaded, store0, graph, store, outcomes, held);
    forall m | m in prog.imports.Keys + loaded.Keys + graph.Keys
      ensures m in prog.imports && m in loaded && m in graph
    {
      assert m !in bad;
    }
    forall m | m in prog.imports
      ensures LoadedAt(prog, m, loaded[m], store0)
      ensures KeptAt(prog, m, loaded[m], EntryAt(store0, m), graph[m], EntryAt(store, m), outcomes, m in held)
    {
      assert m !in bad;
    }
  }

  lemma KeptStarts(prog: Program, loaded: map<ModId, State>, store0: map<ModId, Meta>)
    requires ValidProgram(prog) && loaded.Keys == prog.imports.Keys
    ensures Kept(prog, loaded, store0, loaded, store0, map[], {})
  {
  }

  lemma KeptEnds(prog: Program, loaded: map<ModId, State>, store0: map<ModId, Meta>, graph: map<ModId, State>,
      store: map<ModId, Meta>, outcomes: map<ModId, Outcome>)
    requires ValidProgram(prog) && Kept(prog, loaded, store0, graph, store, outcomes, {})
    requires outcomes.Keys == prog.imports.Keys
    ensures AllRecorded(prog, loaded, store, outcomes)
  {
    forall m | m in prog.imports
      ensures m in store && m in loaded && Recorded(prog, m, loaded[m], store[m], outcomes)
    {
      assert KeptAt(prog, m, loaded[m], EntryAt(store0, m), graph[m], EntryAt(store, m), outcomes, m in {});
    }
  }

  /** What has been recorded stays right when more outcomes are known. */
  lemma RecordedMore(prog: Program, m: ModId, st0: State, e: Meta, outcomes: map<ModId, Outcome>,
      news: map<ModId, Outcome>)
    requires ValidProgram(prog) && m in prog.imports && Recorded(prog, m, st0, e, outcomes)
    requires outcomes.Keys !! news.Keys
    ensures Recorded(prog, m, st0, e, outcomes + news)
  {
  }

  /** The entry of a module that is found fresh. */
  lemma FreshRecorded(s: Setting, prog: Program, t: Table, graph: map<ModId, State>, i: SccId, m: ModId,
      outcomes: map<ModId, Outcome>)
    requires ValidSetting(s) && Covers(s, prog) && ValidTable(prog.imports, t) && graph.Keys == prog.imports.Keys
    requires i in t.members && m in t.members[i] && FreshModule(t, graph, i, m)
    requires Untouched(s, prog, m, graph[m]) && ListOk(graph[m].dependencies, graph[m].priorities)
    requires m in outcomes && outcomes[m].iface == graph[m].iface && outcomes[m].errors == graph[m].errorLines
    requires forall d | d in Closure(prog.imports, m) ::
               d in outcomes && d in graph && graph[d].iface == outcomes[d].iface
    ensures m in prog.imports && Recorded(prog, m, graph[m], graph[m].meta.value, outcomes)
  {
    var st := graph[m];
    var e := st.meta.value;
    assert EntryOk(s, m, e);
    assert t.of[m] == i;
    VerifiedIffReachable(prog, t, i, m, st);
    FreshUsable(s, prog, m, st);
  }

  lemma FreshUsable(s: Setting, prog: Program, m: ModId, st: State)
    requires ValidProgram(prog) && Untouched(s, prog, m, st) && IsFresh(st)
    requires ListOk(st.dependencies, st.priorities)
    ensures var e := st.meta.value;
            && m in prog.imports && Usable(prog, m, e) && e.depHashes.Keys == ToSet(e.dependencies)
            && e.depHashes == st.depHashes && e.iface == st.iface && e.errorLines == st.errorLines
            && (IndirectReachable(prog.imports, m, e.dependencies, e.priorities)
                <==> IndirectReachable(prog.imports, m, st.dependencies, st.priorities))
  {
  }

  lemma PatchedOk(st: State, o: Outcome)
    requires ListOk(st.dependencies, st.priorities)
    ensures ListOk(Patched(st, o).dependencies, Patched(st, o).priorities)
  {
    var found := o.indirect - ToSet(st.dependencies);
    SortedOnce(found);
    OnceIff(Sorted(found));
    MarkedOk(st.dependencies, st.priorities, found, Sorted(found));
  }

  lemma MarkedOk(dependencies: seq<ModId>, priorities: map<ModId, int>, found: set<ModId>, tail: seq<ModId>)
    requires ListOk(dependencies, priorities) && Once(tail)
    requires found !! ToSet(dependencies) && forall d :: d in tail <==> d in found
    ensures ListOk(dependencies + tail, Marked(priorities, found))
  {
    OnceAppend(dependencies, tail);
    forall d | d in dependencies + tail
      ensures Priority(Marked(priorities, found), d) <= PRI_INDIRECT
    {
      assert d in dependencies || d in found;
    }
  }

  lemma {:induction false} OnceAppend(a: seq<ModId>, b: seq<ModId>)
    requires Once(a) && Once(b) && forall d | d in b :: d !in a
    ensures Once(a + b)
  {
    if a == [] {
      assert a + b == b;
    } else {
      OnceAppend(a[1..], b);
      assert (a + b)[1..] == a[1..] + b;
    }
  }

  /** The entry written for a module that was checked. */
  lemma EntryRecorded(s: Setting, prog: Program, m: ModId, st: State, ifaces: map<ModId, Hash>,
      hashes: map<ModId, Hash>, outcomes: map<ModId, Outcome>)
    requires ValidSetting(s) && Covers(s, prog) && Describes(prog, m, st) && ListOk(st.dependencies, st.priorities)
    requires Settled(s.check, prog, m, ifaces) && ifaces == Ifaces(outcomes)
    requires m in outcomes && outcomes[m] == Recheck(s.check, prog, m, ifaces)
    requires AgreeOn(hashes, ifaces, Closure(prog.imports, m))
    ensures Recorded(prog, m, st, Entry(st, outcomes[m], hashes), outcomes)
  {
    var o := outcomes[m];
    PatchedDescribes(s, prog, m, st, ifaces);
    PatchedOk(st, o);
    WrittenReachableIff(s, prog, m, st, ifaces, hashes);
    WrittenRecorded(prog, m, st, Patched(st, o), Entry(st, o, hashes), hashes, outcomes);
  }

  lemma WrittenRecorded(prog: Program, m: ModId, st: State, p: State, e: Meta, hashes: map<ModId, Hash>,
      outcomes: map<ModId, Outcome>)
    requires ValidProgram(prog) && Describes(prog, m, p) && ListOk(p.dependencies, p.priorities) && m in outcomes
    requires e == Meta(p.source, p.dependencies, p.priorities, HashesOf(p.dependencies, hashes), p.suppressedOpts,
                       outcomes[m].iface, p.transHash, outcomes[m].errors)
    requires AgreeOn(hashes, Ifaces(outcomes), Closure(prog.imports, m))
    requires IndirectReachable(prog.imports, m, e.dependencies, e.priorities)
             <==> IndirectReachable(prog.imports, m, st.dependencies, st.priorities)
    ensures Recorded(prog, m, st, e, outcomes)
  {
    assert Describes(prog, m, CachedState(prog, m, e));
  }

  // The steps of a build.

  /** The entries for checked modules, with the hashes that the writing process knows. */
  ghost function Entries(graph: map<ModId, State>, outs: map<ModId, Outcome>,
      hashes: map<ModId, Hash>): map<ModId, Meta>
  {
    map m | m in outs && m in graph :: Entry(graph[m], outs[m], hashes)
  }

  /** The same for a worker, which knows some hashes for each module. */
  ghost function WorkerEntries(graph: map<ModId, State>, outs: map<ModId, Outcome>,
      view: (ModId, map<ModId, Hash>) -> map<ModId, Hash>): map<ModId, Meta>
  {
    map m | m in outs && m in graph :: Entry(graph[m], outs[m], view(m, GraphIfaces(graph)))
  }

  lemma WorkerEntriesHave(graph: map<ModId, State>, outs: map<ModId, Outcome>,
      view: (ModId, map<ModId, Hash>) -> map<ModId, Hash>)
    requires outs.Keys <= graph.Keys
    ensures WorkerEntries(graph, outs, view).Keys == outs.Keys
    ensures forall m | m in outs ::
              WorkerEntries(graph, outs, view)[m] == Entry(graph[m], outs[m], view(m, GraphIfaces(graph)))
  {
  }

  /** The store after the writes that succeed, out of those of the entries that are not left. */
  ghost function StoreAll(writes: (ModId, Meta) -> bool, store: map<ModId, Meta>, entries: map<ModId, Meta>,
      left: set<ModId>): map<ModId, Meta>
  {
    store + map m | m in entries && m !in left && writes(m, entries[m]) :: entries[m]
  }

  lemma StoreNone(writes: (ModId, Meta) -> bool, store: map<ModId, Meta>, entries: map<ModId, Meta>)
    ensures StoreAll(writes, store, entries, entries.Keys) == store
  {
  }

  lemma StoreOne(writes: (ModId, Meta) -> bool, store: map<ModId, Meta>, entries: map<ModId, Meta>, left: set<ModId>,
      id: ModId)
    requires id in entries && id in left
    ensures var before := StoreAll(writes, store, entries, left);
            StoreAll(writes, store, entries, left - {id})
            == if writes(id, entries[id]) then before[id := entries[id]] else before
  {
  }

  lemma AllStored(writes: (ModId, Meta) -> bool, store: map<ModId, Meta>, entries: map<ModId, Meta>)
    requires NeverFails(writes)
    ensures StoreAll(writes, store, entries, {}) == store + entries
  {
  }

  lemma KeptHeldMore(prog: Program, loaded: map<ModId, State>, store0: map<ModId, Meta>, graph: map<ModId, State>,
      store: map<ModId, Meta>, outcomes: map<ModId, Outcome>, held: set<ModId>, more: set<ModId>)
    requires ValidProgram(prog) && Kept(prog, loaded, store0, graph, store, outcomes, held)
    requires more !! outcomes.Keys
    ensures Kept(prog, loaded, store0, graph, store, outcomes, held + more)
  {
    forall m | m in prog.imports
      ensures KeptAt(prog, m, loaded[m], EntryAt(store0, m), graph[m], EntryAt(store, m), outcomes, m in held + more)
    {
      assert KeptAt(prog, m, loaded[m], EntryAt(store0, m), graph[m], EntryAt(store, m), outcomes, m in held);
    }
  }

  /** Workers report interfaces of modules, whose function bodies they go on to check. */
  lemma KeptExposed(prog: Program, loaded: map<ModId, State>, store0: map<ModId, Meta>, graph: map<ModId, State>,
      store: map<ModId, Meta>, outcomes: map<ModId, Outcome>, held: set<ModId>, news: map<ModId, Outcome>)
    requires ValidProgram(prog) && Kept(prog, loaded, store0, graph, store, outcomes, held)
    requires news.Keys !! outcomes.Keys && news.Keys <= held
    ensures Kept(prog, loaded, store0, WithIfaces(graph, news), store, outcomes + news, held)
  {
    var graph1 := WithIfaces(graph, news);
    forall m | m in prog.imports
      ensures KeptAt(prog, m, loaded[m], EntryAt(store0, m), graph1[m], EntryAt(store, m), outcomes + news, m in held)
    {
      var e := EntryAt(store, m);
      assert KeptAt(prog, m, loaded[m], EntryAt(store0, m), graph[m], e, outcomes, m in held);
      if m in outcomes && m !in held {
        RecordedMore(prog, m, loaded[m], e.value, outcomes, news);
      }
    }
  }

  lemma RecordedSame(prog: Program, m: ModId, st: State, st0: State, e: Meta, outcomes: map<ModId, Outcome>)
    requires ValidProgram(prog) && m in prog.imports && Recorded(prog, m, st, e, outcomes)
    requires st.dependencies == st0.dependencies && st.priorities == st0.priorities
    ensures Recorded(prog, m, st0, e, outcomes)
  {
  }

  /** A worker stores entries for modules that it held. */
  lemma KeptWritten(prog: Program, loaded: map<ModId, State>, store0: map<ModId, Meta>, graph: map<ModId, State>,
      store: map<ModId, Meta>, outcomes: map<ModId, Outcome>, held: set<ModId>, entries: map<ModId, Meta>)
    requires ValidProgram(prog) && Kept(prog, loaded, store0, graph, store, outcomes, held)
    requires entries.Keys <= outcomes.Keys * held
    requires forall m | m in entries :: m in prog.imports && Recorded(prog, m, graph[m], entries[m], outcomes)
    ensures Kept(prog, loaded, store0, graph, store + entries, outcomes, held - entries.Keys)
  {
    var store1, held1 := store + entries, held - entries.Keys;
    forall m | m in prog.imports
      ensures KeptAt(prog, m, loaded[m], EntryAt(store0, m), graph[m], EntryAt(store1, m), outcomes, m in held1)
    {
      assert KeptAt(prog, m, loaded[m], EntryAt(store0, m), graph[m], EntryAt(store, m), outcomes, m in held);
      if m in entries {
        RecordedSame(prog, m, graph[m], loaded[m], entries[m], outcomes);
      }
    }
  }

  /** A unit is checked in this process, and all its entries are stored. */
  lemma KeptChecked(prog: Program, loaded: map<ModId, State>, store0: map<ModId, Meta>, graph: map<ModId, State>,
      store: map<ModId, Meta>, outcomes: map<ModId, Outcome>, outs: map<ModId, Outcome>, entries: map<ModId, Meta>,
      graph1: map<ModId, State>)
    requires ValidProgram(prog) && Kept(prog, loaded, store0, graph, store, outcomes, {})
    requires outs.Keys !! outcomes.Keys && outs.Keys == entries.Keys <= prog.imports.Keys
    requires forall m | m in entries :: EntryGood(prog, graph, entries, outcomes + outs, m)
    requires graph1.Keys == graph.Keys && forall m | m in graph && m !in outs :: graph1[m] == graph[m]
    ensures Kept(prog, loaded, store0, graph1, store + entries, outcomes + outs, {})
  {
    var store1 := store + entries;
    forall m | m in prog.imports
      ensures KeptAt(prog, m, loaded[m], EntryAt(store0, m), graph1[m], EntryAt(store1, m), outcomes + outs, false)
    {
      EntryAdded(store, entries, m);
      assert m in entries ==> EntryGood(prog, graph, entries, outcomes + outs, m);
      assert KeptAt(prog, m, loaded[m], EntryAt(store0, m), graph[m], EntryAt(store, m), outcomes, m in {});
      KeptCheckedAt(prog, m, loaded[m], EntryAt(store0, m), graph[m], EntryAt(store, m), outcomes, outs,
                    graph1[m], EntryAt(store1, m));
    }
  }

  lemma EntryAdded(store: map<ModId, Meta>, entries: map<ModId, Meta>, m: ModId)
    ensures EntryAt(store + entries, m) == if m in entries then Some(entries[m]) else EntryAt(store, m)
  {
  }

  lemma KeptCheckedAt(prog: Program, m: ModId, st0: State, before: Option<Meta>, st: State, now: Option<Meta>,
      outcomes: map<ModId, Outcome>, outs: map<ModId, Outcome>, st1: State, now1: Option<Meta>)
    requires ValidProgram(prog) && m in prog.imports && KeptAt(prog, m, st0, before, st, now, outcomes, false)
    requires outcomes.Keys !! outs.Keys
    requires if m in outs then now1.Some? && Recorded(prog, m, st, now1.value, outcomes + outs)
             else st1 == st && now1 == now
    ensures KeptAt(prog, m, st0, before, st1, now1, outcomes + outs, false)
  {
    if m in outs {
      RecordedSame(prog, m, st, st0, now1.value, outcomes + outs);
    } else if m in outcomes {
      RecordedMore(prog, m, st0, now.value, outcomes, outs);
    }
  }

  /** Units are served from the cache. */
  lemma KeptFresh(prog: Program, loaded: map<ModId, State>, store0: map<ModId, Meta>, graph: map<ModId, State>,
      store: map<ModId, Meta>, outcomes: map<ModId, Outcome>, held: set<ModId>, news: map<ModId, Outcome>)
    requires ValidProgram(prog) && Kept(prog, loaded, store0, graph, store, outcomes, held)
    requires LoadedOk(prog, loaded, store0)
    requires news.Keys !! outcomes.Keys && news.Keys !! held && news.Keys <= prog.imports.Keys
    requires forall m | m in news ::
               graph[m].meta.Some? && Recorded(prog, m, graph[m], graph[m].meta.value, outcomes + news)
    ensures Kept(prog, loaded, store0, graph, store, outcomes + news, held)
  {
    forall m | m in prog.imports
      ensures KeptAt(prog, m, loaded[m], EntryAt(store0, m), graph[m], EntryAt(store, m), outcomes + news, m in held)
    {
      var e := EntryAt(store, m);
      assert KeptAt(prog, m, loaded[m], EntryAt(store0, m), graph[m], e, outcomes, m in held);
      if m in outcomes && m !in held {
        RecordedMore(prog, m, loaded[m], e.value, outcomes, news);
      }
    }
  }

  /** The entry of a complete module, written with the final hashes of what the module reaches. */
  lemma StageRecorded(s: Setting, prog: Program, t: Table, solve: Solver, completed: set<SccId>,
      outcomes: map<ModId, Outcome>, graph: map<ModId, State>, m: ModId, hashes: map<ModId, Hash>)
    requires Setup(s, prog, t, solve) && Stage(s, prog, t, solve, completed, outcomes, graph)
    requires m in outcomes && m in graph && ListOk(graph[m].dependencies, graph[m].priorities)
    requires AgreeOn(hashes, GraphIfaces(graph), graph.Keys * Closure(prog.imports, m))
    ensures m in prog.imports && Recorded(prog, m, graph[m], Entry(graph[m], outcomes[m], hashes), outcomes)
  {
    OutcomesSettled(s.check, prog, t, completed, outcomes, m);
    assert Describes(prog, m, graph[m]);
    forall d | d in Closure(prog.imports, m)
      ensures d in hashes && hashes[d] == Ifaces(outcomes)[d]
    {
      assert d in outcomes && graph[d].iface == outcomes[d].iface;
    }
    EntryRecorded(s, prog, m, graph[m], Ifaces(outcomes), hashes, outcomes);
  }

  /** The entry of a module of a unit that has been found fresh. */
  lemma CachedRecorded(s: Setting, prog: Program, t: Table, completed: set<SccId>, outcomes: map<ModId, Outcome>,
      graph: map<ModId, State>, i: SccId, m: ModId)
    requires ValidSetting(s) && Covers(s, prog) && ValidTable(prog.imports, t) && graph.Keys == prog.imports.Keys
    requires Done(s.check, prog, t, completed, outcomes) && FinalIfaces(graph, outcomes)
    requires i in completed && i in t.members && m in t.members[i] && m in outcomes && FreshModule(t, graph, i, m)
    requires Untouched(s, prog, m, graph[m]) && ListOk(graph[m].dependencies, graph[m].priorities)
    requires outcomes[m].errors == graph[m].errorLines
    ensures m in prog.imports && Recorded(prog, m, graph[m], graph[m].meta.value, outcomes)
  {
    ClosureDone(prog, t, completed, i, m);
    forall d | d in Closure(prog.imports, m)
      ensures d in outcomes && d in graph && graph[d].iface == outcomes[d].iface
    {
      assert t.members[i] <= ModulesOf(t, completed);
      assert d in outcomes;
    }
    FreshRecorded(s, prog, t, graph, i, m, outcomes);
  }

  lemma KeptState(prog: Program, loaded: map<ModId, State>, store0: map<ModId, Meta>, graph: map<ModId, State>,
      store: map<ModId, Meta>, outcomes: map<ModId, Outcome>, held: set<ModId>, m: ModId)
    requires ValidProgram(prog) && Kept(prog, loaded, store0, graph, store, outcomes, held)
    requires LoadedOk(prog, loaded, store0) && m in prog.imports && (m !in outcomes || m in held)
    ensures m in graph && ListOk(graph[m].dependencies, graph[m].priorities)
    ensures m !in outcomes && graph[m].meta.Some? ==> m in store && store[m] == graph[m].meta.value
  {
    assert KeptAt(prog, m, loaded[m], EntryAt(store0, m), graph[m], EntryAt(store, m), outcomes, m in held);
  }

  ghost predicate ListsOk(graph: map<ModId, State>, ids: set<ModId>) {
    forall m | m in ids :: m in graph && ListOk(graph[m].dependencies, graph[m].priorities)
  }

  lemma KeptLists(prog: Program, loaded: map<ModId, State>, store0: map<ModId, Meta>, graph: map<ModId, State>,
      store: map<ModId, Meta>, outcomes: map<ModId, Outcome>, held: set<ModId>, ids: set<ModId>)
    requires ValidProgram(prog) && Kept(prog, loaded, store0, graph, store, outcomes, held)
    requires LoadedOk(prog, loaded, store0) && ids <= prog.imports.Keys
    requires forall m | m in ids :: m !in outcomes || m in held
    ensures ListsOk(graph, ids)
  {
    forall m | m in ids
      ensures m in graph && ListOk(graph[m].dependencies, graph[m].priorities)
    {
      KeptState(prog, loaded, store0, graph, store, outcomes, held, m);
    }
  }

  /** The entry that is written for a module of the next unit. */
  lemma StaleEntry(s: Setting, prog: Program, t: Table, solve: Solver, completed: set<SccId>,
      outcomes: map<ModId, Outcome>, graph: map<ModId, State>, id: SccId, outs: map<ModId, Outcome>, m: ModId)
    requires Setup(s, prog, t, solve) && Stage(s, prog, t, solve, completed, outcomes, graph)
    requires ReadyUnits(t, completed, {id}) && outs == solve(t.members[id], GraphIfaces(graph)) && m in outs
    requires m in graph && ListOk(graph[m].dependencies, graph[m].priorities)
    ensures EntryGood(prog, graph, UnitEntries(graph, outs), outcomes + outs, m)
  {
    var graph1 := WithIfaces(graph, outs);
    assert SolvedUnit(s.check, prog, t, id, GraphIfaces(graph), outs);
    OneUnitSolved(t, solve, graph, id, outs);
    WorkerStage(s, prog, t, solve, completed, outcomes, graph, {id}, outs);
    StageRecorded(s, prog, t, solve, completed + {id}, outcomes + outs, graph1, m, GraphIfaces(graph1));
    RecordedSame(prog, m, graph1[m], graph[m], Entry(graph1[m], outs[m], GraphIfaces(graph1)), outcomes + outs);
  }

  lemma NextOuts(s: Setting, prog: Program, t: Table, solve: Solver, completed: set<SccId>,
      outcomes: map<ModId, Outcome>, graph: map<ModId, State>, id: SccId)
    requires Setup(s, prog, t, solve) && Stage(s, prog, t, solve, completed, outcomes, graph)
    requires ReadyUnits(t, completed, {id})
    ensures var outs := solve(t.members[id], GraphIfaces(graph));
            outs.Keys !! outcomes.Keys && outs.Keys <= prog.imports.Keys && graph.Keys == prog.imports.Keys
  {
    var outs := solve(t.members[id], GraphIfaces(graph));
    assert SolvedUnit(s.check, prog, t, id, GraphIfaces(graph), outs);
    OneUnitSolved(t, solve, graph, id, outs);
    WorkerStage(s, prog, t, solve, completed, outcomes, graph, {id}, outs);
  }

  /** Checking the next unit in this process leads to a store that is as it should be. */
  lemma StaleKept(s: Setting, prog: Program, t: Table, solve: Solver, completed: set<SccId>,
      outcomes: map<ModId, Outcome>, graph: map<ModId, State>, id: SccId, loaded: map<ModId, State>,
      store0: map<ModId, Meta>, store: map<ModId, Meta>, writes: (ModId, Meta) -> bool)
    requires Setup(s, prog, t, solve) && Stage(s, prog, t, solve, completed, outcomes, graph)
    requires ReadyUnits(t, completed, {id}) && NeverFails(writes)
    requires Kept(prog, loaded, store0, graph, store, outcomes, {}) && LoadedOk(prog, loaded, store0)
    ensures var outs := solve(t.members[id], GraphIfaces(graph));
            Kept(prog, loaded, store0, PatchAll(WithIfaces(graph, outs), outs, {}),
                 StoreAll(writes, store, UnitEntries(graph, outs), {}), outcomes + outs, {})
  {
    var outs := solve(t.members[id], GraphIfaces(graph));
    NextOuts(s, prog, t, solve, completed, outcomes, graph, id);
    KeptLists(prog, loaded, store0, graph, store, outcomes, {}, outs.Keys);
    forall m | m in outs
      ensures EntryGood(prog, graph, UnitEntries(graph, outs), outcomes + outs, m)
    {
      StaleEntry(s, prog, t, solve, completed, outcomes, graph, id, outs, m);
    }
    assert UnitEntries(graph, outs).Keys == outs.Keys;
    StaleStored(prog, loaded, store0, graph, store, outcomes, outs, UnitEntries(graph, outs), writes);
  }

  /** What is written for m is as it should be recorded. */
  ghost predicate EntryGood(prog: Program, graph: map<ModId, State>, entries: map<ModId, Meta>,
      outcomes: map<ModId, Outcome>, m: ModId)
    requires ValidProgram(prog)
  {
    && m in prog.imports && m in graph && m in entries
    && Recorded(prog, m, graph[m], entries[m], outcomes)
  }

  /** All entries for the unit, with its interfaces in the graph. */
  ghost function UnitEntries(graph: map<ModId, State>, outs: map<ModId, Outcome>): map<ModId, Meta> {
    Entries(WithIfaces(graph, outs), outs, GraphIfaces(WithIfaces(graph, outs)))
  }

  lemma StaleStored(prog: Program, loaded: map<ModId, State>, store0: map<ModId, Meta>, graph: map<ModId, State>,
      store: map<ModId, Meta>, outcomes: map<ModId, Outcome>, outs: map<ModId, Outcome>, entries: map<ModId, Meta>,
      writes: (ModId, Meta) -> bool)
    requires ValidProgram(prog) && NeverFails(writes) && Kept(prog, loaded, store0, graph, store, outcomes, {})
    requires outs.Keys !! outcomes.Keys && entries.Keys == outs.Keys <= prog.imports.Keys
    requires forall m | m in outs :: EntryGood(prog, graph, entries, outcomes + outs, m)
    ensures Kept(prog, loaded, store0, PatchAll(WithIfaces(graph, outs), outs, {}),
                 StoreAll(writes, store, entries, {}), outcomes + outs, {})
  {
    AllStored(writes, store, entries);
    PatchedOthers(graph, outs);
    KeptChecked(prog, loaded, store0, graph, store, outcomes, outs, entries,
                PatchAll(WithIfaces(graph, outs), outs, {}));
  }

  lemma PatchedOthers(graph: map<ModId, State>, outs: map<ModId, Outcome>)
    ensures var graph1 := PatchAll(WithIfaces(graph, outs), outs, {});
            graph1.Keys == graph.Keys && forall m | m in graph && m !in outs :: graph1[m] == graph[m]
  {
  }

  /** What a worker may store, and with which hashes. */
  ghost predicate WorkerKnows(prog: Program, graph: map<ModId, State>, outcomes: map<ModId, Outcome>,
      outs: map<ModId, Outcome>, view: (ModId, map<ModId, Hash>) -> map<ModId, Hash>, held: set<ModId>) {
    forall m | m in outs :: m in outcomes && outs[m] == outcomes[m] && m in held && m in prog.imports
      && AgreeOn(view(m, GraphIfaces(graph)), GraphIfaces(graph), graph.Keys * Closure(prog.imports, m))
  }

  /** So does what a worker stores. */
  lemma WorkerKept(s: Setting, prog: Program, t: Table, solve: Solver, completed: set<SccId>,
      outcomes: map<ModId, Outcome>, graph: map<ModId, State>, outs: map<ModId, Outcome>,
      view: (ModId, map<ModId, Hash>) -> map<ModId, Hash>, loaded: map<ModId, State>, store0: map<ModId, Meta>,
      store: map<ModId, Meta>, held: set<ModId>, writes: (ModId, Meta) -> bool)
    requires Setup(s, prog, t, solve) && Stage(s, prog, t, solve, completed, outcomes, graph) && NeverFails(writes)
    requires WorkerKnows(prog, graph, outcomes, outs, view, held)
    requires Kept(prog, loaded, store0, graph, store, outcomes, held) && LoadedOk(prog, loaded, store0)
    ensures Kept(prog, loaded, store0, graph, StoreAll(writes, store, WorkerEntries(graph, outs, view), {}), outcomes,
                 held - outs.Keys)
  {
    KeptLists(prog, loaded, store0, graph, store, outcomes, held, outs.Keys);
    forall m | m in outs
      ensures m in prog.imports && m in graph && m in held && m in outcomes && outs[m] == outcomes[m]
      ensures Recorded(prog, m, graph[m], Entry(graph[m], outs[m], view(m, GraphIfaces(graph))), outcomes)
    {
      StageRecorded(s, prog, t, solve, completed, outcomes, graph, m, view(m, GraphIfaces(graph)));
    }
    WorkerStored(prog, loaded, store0, graph, store, outcomes, held, outs, view, writes);
  }

  lemma WorkerStored(prog: Program, loaded: map<ModId, State>, store0: map<ModId, Meta>, graph: map<ModId, State>,
      store: map<ModId, Meta>, outcomes: map<ModId, Outcome>, held: set<ModId>, outs: map<ModId, Outcome>,
      view: (ModId, map<ModId, Hash>) -> map<ModId, Hash>, writes: (ModId, Meta) -> bool)
    requires ValidProgram(prog) && NeverFails(writes) && Kept(prog, loaded, store0, graph, store, outcomes, held)
    requires forall m | m in outs :: m in held && m in outcomes && m in prog.imports && m in graph
               && Recorded(prog, m, graph[m], Entry(graph[m], outs[m], view(m, GraphIfaces(graph))), outcomes)
    ensures Kept(prog, loaded, store0, graph, StoreAll(writes, store, WorkerEntries(graph, outs, view), {}), outcomes,
                 held - outs.Keys)
  {
    var entries := WorkerEntries(graph, outs, view);
    assert entries.Keys == outs.Keys;
    AllStored(writes, store, entries);
    KeptWritten(prog, loaded, store0, graph, store, outcomes, held, entries);
  }

  lemma FreshEntry(s: Setting, prog: Program, t: Table, solve: Solver, completed: set<SccId>,
      outcomes: map<ModId, Outcome>, graph: map<ModId, State>, ids: set<SccId>, m: ModId)
    requires Setup(s, prog, t, solve) && Stage(s, prog, t, solve, completed, outcomes, graph)
    requires ReadyUnits(t, completed, ids) && AllFresh(t, graph, ids)
    requires m in CachedOutcomes(s, prog, t, graph, ids) && m in graph
    requires ListOk(graph[m].dependencies, graph[m].priorities)
    ensures m in prog.imports && m !in outcomes && graph[m].meta.Some?
    ensures Recorded(prog, m, graph[m], graph[m].meta.value, outcomes + CachedOutcomes(s, prog, t, graph, ids))
  {
    StageStates(s, prog, t, solve, completed, outcomes, graph, ids);
    FreshStage(s, prog, t, solve, completed, outcomes, graph, ids);
    var i :| i in ids && i in t.members && m in t.members[i];
    assert FreshUnit(t, graph, i) && FreshModule(t, graph, i, m);
    CachedRecorded(s, prog, t, completed + ids, outcomes + CachedOutcomes(s, prog, t, graph, ids), graph, i, m);
  }

  /** Serving units from the cache leaves the store as it should be. */
  lemma FreshKept(s: Setting, prog: Program, t: Table, solve: Solver, completed: set<SccId>,
      outcomes: map<ModId, Outcome>, graph: map<ModId, State>, ids: set<SccId>, loaded: map<ModId, State>,
      store0: map<ModId, Meta>, store: map<ModId, Meta>, held: set<ModId>)
    requires Setup(s, prog, t, solve) && Stage(s, prog, t, solve, completed, outcomes, graph)
    requires ReadyUnits(t, completed, ids) && AllFresh(t, graph, ids) && held <= outcomes.Keys
    requires Kept(prog, loaded, store0, graph, store, outcomes, held) && LoadedOk(prog, loaded, store0)
    ensures Kept(prog, loaded, store0, graph, store, outcomes + CachedOutcomes(s, prog, t, graph, ids), held)
  {
    var news := CachedOutcomes(s, prog, t, graph, ids);
    StageStates(s, prog, t, solve, completed, outcomes, graph, ids);
    forall m | m in news
      ensures m in prog.imports && m !in outcomes && graph[m].meta.Some?
      ensures Recorded(prog, m, graph[m], graph[m].meta.value, outcomes + news)
    {
      KeptState(prog, loaded, store0, graph, store, outcomes, held, m);
      FreshEntry(s, prog, t, solve, completed, outcomes, graph, ids, m);
    }
    KeptFresh(prog, loaded, store0, graph, store, outcomes, held, news);
  }
}
