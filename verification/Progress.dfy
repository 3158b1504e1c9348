// Partial results of a build: the outcomes known once some units are complete.
module Progress {
  import opened Text
  import opened Reach
  import opened ImportHash
  import opened Incremental
  import opened SccTable

  /** The modules of some units. */
  ghost function ModulesOf(t: Table, ids: set<SccId>): set<ModId> {
    set i, m | i in ids && i in t.members && m in t.members[i] :: m
  }

  /** The units in completed have their final outcomes, and so have all their dependencies. */
  ghost predicate Done(check: Checker, prog: Program, t: Table, completed: set<SccId>, outcomes: map<ModId, Outcome>)
    requires ValidProgram(prog)
  {
    && completed <= t.members.Keys
    && (forall i {:trigger t.deps[i]} | i in completed :: i in t.deps && t.deps[i] <= completed)
    && outcomes.Keys == ModulesOf(t, completed)
    && (forall m {:trigger Recheck(check, prog, m, Ifaces(outcomes))} | m in outcomes ::
          m in prog.imports && outcomes[m] == Recheck(check, prog, m, Ifaces(outcomes)))
  }

  lemma RecheckStable(check: Checker, prog: Program, m: ModId, i1: map<ModId, Hash>, i2: map<ModId, Hash>)
    requires ValidProgram(prog) && m in prog.imports
    requires AgreeOn(i1, i2, Closure(prog.imports, m) - {m})
    ensures Recheck(check, prog, m, i1) == Recheck(check, prog, m, i2)
  {
    assert Visible(prog.imports, m, i1) == Visible(prog.imports, m, i2);
  }

  /** Once its direct dependencies are complete, a unit's transitive dependencies are, apart from its own members. */
  lemma ClosureDone(prog: Program, t: Table, completed: set<SccId>, i: SccId, m: ModId)
    requires ValidTable(prog.imports, t)
    requires forall j | j in completed :: j in t.deps && t.deps[j] <= completed
    requires i in t.members && t.deps[i] <= completed && m in t.members[i]
    ensures Closure(prog.imports, m) <= ModulesOf(t, completed) + t.members[i]
  {
    TableClosed(prog.imports, t);
    ClosureLeast(t.deps, i, completed);
    ClosureWithinUnits(prog.imports, t, i, m, completed);
    forall d | d in Closure(prog.imports, m)
      ensures d in ModulesOf(t, completed) + t.members[i]
    {
      assert d in t.of && (t.of[d] == i || t.of[d] in completed);
    }
  }

  lemma ModulesDisjoint(imports: Imports, t: Table, a: set<SccId>, b: set<SccId>)
    requires ValidTable(imports, t) && a !! b
    ensures ModulesOf(t, a) !! ModulesOf(t, b)
  {
    forall m | m in ModulesOf(t, a)
      ensures m !in ModulesOf(t, b)
    {
      assert t.of[m] in a;
    }
  }

  lemma ModulesUnion(t: Table, a: set<SccId>, b: set<SccId>)
    ensures ModulesOf(t, a + b) == ModulesOf(t, a) + ModulesOf(t, b)
  {
  }

  /** Units whose dependencies are complete can be completed together. */
  lemma CompleteUnits(check: Checker, prog: Program, t: Table, completed: set<SccId>, outcomes: map<ModId, Outcome>,
      ids: set<SccId>, news: map<ModId, Outcome>)
    requires ValidProgram(prog) && ValidTable(prog.imports, t) && Done(check, prog, t, completed, outcomes)
    requires ids <= t.members.Keys && ids !! completed
    requires forall i | i in ids :: t.deps[i] <= completed
    requires news.Keys == ModulesOf(t, ids)
    requires forall m | m in news :: m in prog.imports && news[m] == Recheck(check, prog, m, Ifaces(outcomes + news))
    ensures Done(check, prog, t, completed + ids, outcomes + news)
  {
    ModulesDisjoint(prog.imports, t, completed, ids);
    ModulesUnion(t, completed, ids);
    var all := outcomes + news;
    forall m | m in all
      ensures m in prog.imports && all[m] == Recheck(check, prog, m, Ifaces(all))
    {
      if m in outcomes {
        OldOutcomeStays(check, prog, t, completed, outcomes, news, m);
      }
    }
  }

  lemma OldOutcomeStays(check: Checker, prog: Program, t: Table, completed: set<SccId>, outcomes: map<ModId, Outcome>,
      news: map<ModId, Outcome>, m: ModId)
    requires ValidProgram(prog) && ValidTable(prog.imports, t) && Done(check, prog, t, completed, outcomes)
    requires outcomes.Keys !! news.Keys
    requires m in outcomes
    ensures m in prog.imports && outcomes[m] == Recheck(check, prog, m, Ifaces(outcomes + news))
  {
    assert outcomes[m] == Recheck(check, prog, m, Ifaces(outcomes));
    var i :| i in completed && i in t.members && m in t.members[i];
    ClosureDone(prog, t, completed, i, m);
    assert t.members[i] <= ModulesOf(t, completed);
    assert AgreeOn(Ifaces(outcomes), Ifaces(outcomes + news), Closure(prog.imports, m) - {m});
    RecheckStable(check, prog, m, Ifaces(outcomes), Ifaces(outcomes + news));
  }

  /** When every unit is complete the build is correct. */
  lemma AllComplete(check: Checker, prog: Program, t: Table, outcomes: map<ModId, Outcome>)
    requires ValidProgram(prog) && ValidTable(prog.imports, t) && Done(check, prog, t, t.members.Keys, outcomes)
    ensures Consistent(check, prog, outcomes)
  {
    forall m | m in prog.imports
      ensures m in outcomes
    {
      assert m in t.members[t.of[m]];
    }
  }

  /** The interfaces held by the module states. */
  ghost function GraphIfaces(graph: map<ModId, State>): map<ModId, Hash> {
    map m | m in graph :: graph[m].iface
  }

  /** Every indirect dependency is in the unit itself or in a unit it reaches. */
  ghost predicate IndirectVerified(t: Table, i: SccId, st: State) {
    forall d | d in st.dependencies && IsIndirect(st.priorities, d) ::
        d in t.of && (t.of[d] == i || Reaches(t.deps, i, t.of[d]))
  }

  /** What the scheduler tests of one module before it uses the cache for the module's unit. */
  ghost predicate FreshModule(t: Table, graph: map<ModId, State>, i: SccId, m: ModId) {
    && m in graph && IsFresh(graph[m])
    && (forall d | d in graph[m].depHashes && d in graph :: graph[d].iface == graph[m].depHashes[d])
    && (graph[m].transHash == graph[m].meta.value.transHash || IndirectVerified(t, i, graph[m]))
  }

  ghost predicate FreshUnit(t: Table, graph: map<ModId, State>, i: SccId)
    requires i in t.members
  {
    forall m | m in t.members[i] :: FreshModule(t, graph, i, m)
  }

  ghost predicate AllFresh(t: Table, graph: map<ModId, State>, ids: set<SccId>) {
    forall i {:trigger i in ids} | i in ids :: i in t.members && FreshUnit(t, graph, i)
  }

  ghost predicate AllStale(t: Table, graph: map<ModId, State>, ids: seq<SccId>) {
    forall i | i in ids :: i in t.members && !FreshUnit(t, graph, i)
  }

  /** The state of a module that is not complete: as loaded, with a cache entry some check wrote. */
  ghost predicate Untouched(s: Setting, prog: Program, m: ModId, st: State)
    requires ValidProgram(prog)
  {
    Loaded(prog, m, st) && (st.meta.Some? ==> EntryOk(s, m, st.meta.value))
  }

  /** The states of complete modules hold the interfaces of their outcomes. */
  ghost predicate FinalIfaces(graph: map<ModId, State>, outcomes: map<ModId, Outcome>) {
    forall m {:trigger outcomes[m]} | m in outcomes :: m in graph && graph[m].iface == outcomes[m].iface
  }

  /** One module of a fresh unit: its cached interface and errors are those a check would give. */
  lemma FreshModuleUnchanged(s: Setting, prog: Program, t: Table, graph: map<ModId, State>, i: SccId, m: ModId)
    requires ValidSetting(s) && Covers(s, prog) && ValidTable(prog.imports, t)
    requires graph.Keys == prog.imports.Keys
    requires i in t.members && m in t.members[i]
    requires FreshModule(t, graph, i, m) && Untouched(s, prog, m, graph[m])
    ensures var o := Recheck(s.check, prog, m, GraphIfaces(graph));
            o.iface == graph[m].iface && o.errors == graph[m].errorLines
  {
    var st := graph[m];
    forall d | d in st.dependencies && IsIndirect(st.priorities, d)
      ensures IndirectVerified(t, i, st) ==> d in Closure(prog.imports, m)
    {
      if IndirectVerified(t, i, st) {
        VerifiedInClosure(prog, t, i, m, st, d);
      }
    }
    FreshMeansUnchanged(s, prog, m, st, GraphIfaces(graph));
  }

  lemma VerifiedInClosure(prog: Program, t: Table, i: SccId, m: ModId, st: State, d: ModId)
    requires ValidProgram(prog) && ValidTable(prog.imports, t) && Loaded(prog, m, st)
    requires i in t.members && m in t.members[i] && IndirectVerified(t, i, st)
    requires d in st.dependencies && IsIndirect(st.priorities, d)
    ensures d in Closure(prog.imports, m)
  {
    assert d in ToSet(st.dependencies) && d != m;
    if t.of[d] == i {
      MembersReach(prog.imports, t, i, m, d);
    } else {
      UnitsReachModulesReach(prog.imports, t, i, t.of[d], m, d);
    }
  }

  /** The outcomes of units that are served from the cache. */
  ghost function CachedOutcomes(s: Setting, prog: Program, t: Table, graph: map<ModId, State>,
      ids: set<SccId>): map<ModId, Outcome>
    requires ValidProgram(prog)
  {
    map m | m in ModulesOf(t, ids) && m in prog.imports :: Recheck(s.check, prog, m, GraphIfaces(graph))
  }

  /** The outcomes read off the module states solve the equations of their unit. */
  lemma UnitSolved(check: Checker, prog: Program, t: Table, completed: set<SccId>, outcomes: map<ModId, Outcome>,
      graph: map<ModId, State>, i: SccId, m: ModId, news: map<ModId, Outcome>)
    requires ValidProgram(prog) && ValidTable(prog.imports, t) && Done(check, prog, t, completed, outcomes)
    requires FinalIfaces(graph, outcomes) && FinalIfaces(graph, news)
    requires i in t.members && t.deps[i] <= completed && m in t.members[i]
    requires t.members[i] <= news.Keys && outcomes.Keys !! news.Keys
    ensures Recheck(check, prog, m, GraphIfaces(graph)) == Recheck(check, prog, m, Ifaces(outcomes + news))
  {
    ClosureDone(prog, t, completed, i, m);
    assert AgreeOn(GraphIfaces(graph), Ifaces(outcomes + news), Closure(prog.imports, m) - {m});
    assert t.members[i] <= prog.imports.Keys;
    RecheckStable(check, prog, m, GraphIfaces(graph), Ifaces(outcomes + news));
  }

  /** Using the cache for fresh units completes them correctly, and leaves every state as it is. */
  lemma CompleteFresh(s: Setting, prog: Program, t: Table, completed: set<SccId>, outcomes: map<ModId, Outcome>,
      graph: map<ModId, State>, ids: set<SccId>)
    requires ValidSetting(s) && Covers(s, prog) && ValidTable(prog.imports, t)
             && Done(s.check, prog, t, completed, outcomes)
    requires graph.Keys == prog.imports.Keys && FinalIfaces(graph, outcomes)
    requires ids <= t.members.Keys && ids !! completed
    requires AllFresh(t, graph, ids) && forall i | i in ids :: t.deps[i] <= completed
    requires forall m | m in ModulesOf(t, ids) :: m in graph && Untouched(s, prog, m, graph[m])
    ensures var news := CachedOutcomes(s, prog, t, graph, ids);
            && Done(s.check, prog, t, completed + ids, outcomes + news)
            && FinalIfaces(graph, news)
            && news.Keys == ModulesOf(t, ids)
            && (forall m | m in news :: news[m].errors == graph[m].errorLines)
  {
    var news := CachedOutcomes(s, prog, t, graph, ids);
    CachedMatch(s, prog, t, graph, ids);
    ModulesDisjoint(prog.imports, t, completed, ids);
    forall m | m in news
      ensures news[m] == Recheck(s.check, prog, m, Ifaces(outcomes + news))
    {
      var i :| i in ids && i in t.members && m in t.members[i];
      UnitSolved(s.check, prog, t, completed, outcomes, graph, i, m, news);
    }
    CompleteUnits(s.check, prog, t, completed, outcomes, ids, news);
  }

  lemma CachedMatch(s: Setting, prog: Program, t: Table, graph: map<ModId, State>, ids: set<SccId>)
    requires ValidSetting(s) && Covers(s, prog) && ValidTable(prog.imports, t)
    requires graph.Keys == prog.imports.Keys && ids <= t.members.Keys
    requires AllFresh(t, graph, ids)
    requires forall m | m in ModulesOf(t, ids) :: m in graph && Untouched(s, prog, m, graph[m])
    ensures var news := CachedOutcomes(s, prog, t, graph, ids);
            && news.Keys == ModulesOf(t, ids) && FinalIfaces(graph, news)
            && (forall m | m in news :: news[m].errors == graph[m].errorLines)
  {
    var news := CachedOutcomes(s, prog, t, graph, ids);
    forall m | m in ModulesOf(t, ids)
      ensures m in news && m in graph && news[m].iface == graph[m].iface && news[m].errors == graph[m].errorLines
    {
      var i :| i in ids && i in t.members && m in t.members[i];
      assert FreshUnit(t, graph, i);
      assert FreshModule(t, graph, i, m);
      FreshModuleUnchanged(s, prog, t, graph, i, m);
    }
  }

  // Checking stale units.

  /** Processing the modules of one unit from source, given the interfaces currently known. */
  type Solver = (set<ModId>, map<ModId, Hash>) -> map<ModId, Outcome>

  /** The outcomes of one unit's modules agree with checking each against the others. */
  ghost predicate SolvedUnit(check: Checker, prog: Program, t: Table, i: SccId, ifaces: map<ModId, Hash>,
      outs: map<ModId, Outcome>)
    requires ValidProgram(prog) && i in t.members
  {
    && outs.Keys == t.members[i]
    && forall m | m in outs :: m in prog.imports && outs[m] == Recheck(check, prog, m, ifaces + Ifaces(outs))
  }

  ghost predicate SolvesUnits(check: Checker, prog: Program, t: Table, solve: Solver)
    requires ValidProgram(prog)
  {
    forall i, ifaces: map<ModId, Hash> {:trigger solve(t.members[i], ifaces)} | i in t.members
        && ifaces.Keys == prog.imports.Keys ::
      SolvedUnit(check, prog, t, i, ifaces, solve(t.members[i], ifaces))
  }

  /** Outcomes that agree with news on the unit's members and were computed from final interfaces. */
  lemma CheckedUnitSolved(check: Checker, prog: Program, t: Table, completed: set<SccId>, outcomes: map<ModId, Outcome>,
      graph: map<ModId, State>, i: SccId, outs: map<ModId, Outcome>, news: map<ModId, Outcome>)
    requires ValidProgram(prog) && ValidTable(prog.imports, t) && Done(check, prog, t, completed, outcomes)
    requires FinalIfaces(graph, outcomes)
    requires i in t.members && t.deps[i] <= completed
    requires SolvedUnit(check, prog, t, i, GraphIfaces(graph), outs)
    requires forall m | m in outs :: m in news && news[m] == outs[m]
    requires outcomes.Keys !! news.Keys
    ensures forall m | m in outs :: news[m] == Recheck(check, prog, m, Ifaces(outcomes + news))
  {
    forall m | m in outs
      ensures news[m] == Recheck(check, prog, m, Ifaces(outcomes + news))
    {
      ClosureDone(prog, t, completed, i, m);
      MergedAgree(graph, outcomes, outs, news, Closure(prog.imports, m) - {m});
      RecheckStable(check, prog, m, GraphIfaces(graph) + Ifaces(outs), Ifaces(outcomes + news));
    }
  }

  lemma MergedAgree(graph: map<ModId, State>, outcomes: map<ModId, Outcome>, outs: map<ModId, Outcome>,
      news: map<ModId, Outcome>, visible: set<ModId>)
    requires FinalIfaces(graph, outcomes)
    requires forall m | m in outs :: m in news && news[m] == outs[m]
    requires outcomes.Keys !! news.Keys
    requires visible <= outcomes.Keys + outs.Keys
    ensures AgreeOn(GraphIfaces(graph) + Ifaces(outs), Ifaces(outcomes + news), visible)
  {
  }

  /** The graph after the interfaces of some modules have been replaced by those of their outcomes. */
  function WithIfaces(graph: map<ModId, State>, news: map<ModId, Outcome>): map<ModId, State> {
    map m | m in graph :: if m in news then graph[m].(iface := news[m].iface) else graph[m]
  }

  /** The errors recorded in the states of some modules, where there are any. */
  function RecordedErrors(graph: map<ModId, State>, mods: set<ModId>): map<ModId, seq<Str>> {
    map m | m in mods && m in graph && graph[m].errorLines != [] :: graph[m].errorLines
  }

  lemma RecordedErrorsUnion(graph: map<ModId, State>, shown: map<ModId, seq<Str>>, a: set<ModId>, b: set<ModId>)
    ensures (shown + RecordedErrors(graph, a)) + RecordedErrors(graph, b) == shown + RecordedErrors(graph, a + b)
  {
  }

  lemma RecordedErrorsOne(graph: map<ModId, State>, shown: map<ModId, seq<Str>>, m: ModId)
    requires m in graph
    ensures shown + RecordedErrors(graph, {m})
            == if graph[m].errorLines != [] then shown[m := graph[m].errorLines] else shown
  {
  }

  /** news holds what processing unit i with the interfaces in the graph yields. */
  ghost predicate HoldsUnit(t: Table, solve: Solver, graph: map<ModId, State>, i: SccId, news: map<ModId, Outcome>)
    requires i in t.members
  {
    var outs := solve(t.members[i], GraphIfaces(graph));
    forall m | m in t.members[i] :: m in news && m in outs && news[m] == outs[m]
  }

  /** The outcomes of some units, each obtained by processing the unit with the interfaces in the graph. */
  ghost predicate NewsSolved(t: Table, solve: Solver, graph: map<ModId, State>, ids: set<SccId>,
      news: map<ModId, Outcome>) {
    && news.Keys == ModulesOf(t, ids)
    && forall i | i in ids && i in t.members :: HoldsUnit(t, solve, graph, i, news)
  }

  /** Processing stale units, once their dependencies are complete, completes them correctly. */
  lemma CompleteChecked(check: Checker, prog: Program, t: Table, completed: set<SccId>, outcomes: map<ModId, Outcome>,
      graph: map<ModId, State>, solve: Solver, ids: set<SccId>, news: map<ModId, Outcome>)
    requires ValidProgram(prog) && ValidTable(prog.imports, t) && Done(check, prog, t, completed, outcomes)
    requires graph.Keys == prog.imports.Keys && FinalIfaces(graph, outcomes)
    requires SolvesUnits(check, prog, t, solve)
    requires ids <= t.members.Keys && ids !! completed
    requires forall i | i in ids :: t.deps[i] <= completed
    requires NewsSolved(t, solve, graph, ids, news)
    ensures Done(check, prog, t, completed + ids, outcomes + news)
    ensures FinalIfaces(WithIfaces(graph, news), outcomes + news)
  {
    ModulesDisjoint(prog.imports, t, completed, ids);
    forall m | m in news
      ensures m in prog.imports && news[m] == Recheck(check, prog, m, Ifaces(outcomes + news))
    {
      var i :| i in ids && i in t.members && m in t.members[i];
      NewsOfUnit(check, prog, t, completed, outcomes, graph, solve, ids, news, i);
    }
    CompleteUnits(check, prog, t, completed, outcomes, ids, news);
    IfacesReplaced(graph, outcomes, news);
  }

  lemma NewsOfUnit(check: Checker, prog: Program, t: Table, completed: set<SccId>, outcomes: map<ModId, Outcome>,
      graph: map<ModId, State>, solve: Solver, ids: set<SccId>, news: map<ModId, Outcome>, i: SccId)
    requires ValidProgram(prog) && ValidTable(prog.imports, t) && Done(check, prog, t, completed, outcomes)
    requires graph.Keys == prog.imports.Keys && FinalIfaces(graph, outcomes)
    requires SolvesUnits(check, prog, t, solve) && NewsSolved(t, solve, graph, ids, news)
    requires i in ids && i in t.members && t.deps[i] <= completed && outcomes.Keys !! news.Keys
    ensures forall m | m in t.members[i] ::
              m in prog.imports && m in news && news[m] == Recheck(check, prog, m, Ifaces(outcomes + news))
  {
    var outs := solve(t.members[i], GraphIfaces(graph));
    assert SolvedUnit(check, prog, t, i, GraphIfaces(graph), outs);
    assert HoldsUnit(t, solve, graph, i, news);
    CheckedUnitSolved(check, prog, t, completed, outcomes, graph, i, outs, news);
  }

  lemma IfacesReplaced(graph: map<ModId, State>, outcomes: map<ModId, Outcome>, news: map<ModId, Outcome>)
    requires FinalIfaces(graph, outcomes) && news.Keys <= graph.Keys
    ensures FinalIfaces(WithIfaces(graph, news), outcomes + news)
  {
  }

  /**
   * The cache entry written for a complete module is genuine, if the hashes it records for
   * reachable modules are final.
   */
  lemma EntryForOutcome(s: Setting, prog: Program, t: Table, completed: set<SccId>, outcomes: map<ModId, Outcome>,
      m: ModId, st: State, hashes: map<ModId, Hash>)
    requires ValidSetting(s) && Covers(s, prog) && ValidTable(prog.imports, t)
    requires Done(s.check, prog, t, completed, outcomes) && m in outcomes && Describes(prog, m, st)
    requires AgreeOn(hashes, Ifaces(outcomes), Closure(prog.imports, m) - {m})
    ensures EntryOk(s, m, Entry(st, outcomes[m], hashes))
    ensures Describes(prog, m, Patched(st, outcomes[m]))
  {
    OutcomesSettled(s.check, prog, t, completed, outcomes, m);
    WrittenEntryOk(s, prog, m, st, Ifaces(outcomes), hashes);
    PatchedDescribes(s, prog, m, st, Ifaces(outcomes));
  }

  lemma OutcomesSettled(check: Checker, prog: Program, t: Table, completed: set<SccId>, outcomes: map<ModId, Outcome>,
      m: ModId)
    requires ValidProgram(prog) && ValidTable(prog.imports, t) && Done(check, prog, t, completed, outcomes)
             && m in outcomes
    ensures m in prog.imports && Settled(check, prog, m, Ifaces(outcomes))
  {
    assert outcomes[m] == Recheck(check, prog, m, Ifaces(outcomes));
    var i :| i in completed && i in t.members && m in t.members[i];
    ClosureDone(prog, t, completed, i, m);
    forall d | d in Closure(prog.imports, m)
      ensures d in prog.imports && Ifaces(outcomes)[d] == Recheck(check, prog, d, Ifaces(outcomes)).iface
    {
      assert d in outcomes && outcomes[d] == Recheck(check, prog, d, Ifaces(outcomes));
    }
  }

  // The data of a running build.

  /** Every state describes its module; complete ones hold final interfaces, the others are as loaded. */
  ghost predicate StatesOk(s: Setting, prog: Program, outcomes: map<ModId, Outcome>, graph: map<ModId, State>)
    requires ValidProgram(prog)
  {
    && graph.Keys == prog.imports.Keys
    && FinalIfaces(graph, outcomes)
    && AllDescribed(prog, graph)
    && RestUntouched(s, prog, outcomes, graph)
  }

  /** The cache holds only entries that some check wrote. */
  ghost predicate StoreOk(s: Setting, metastore: map<ModId, Meta>) {
    forall m {:trigger EntryOk(s, m, metastore[m])} | m in metastore :: EntryOk(s, m, metastore[m])
  }

  lemma IfaceKeepsDescription(prog: Program, m: ModId, st: State, h: Hash)
    requires ValidProgram(prog) && Describes(prog, m, st)
    ensures Describes(prog, m, st.(iface := h))
  {
  }

  ghost predicate AllDescribed(prog: Program, graph: map<ModId, State>)
    requires ValidProgram(prog)
  {
    forall m {:trigger Describes(prog, m, graph[m])} | m in graph :: Describes(prog, m, graph[m])
  }

  ghost predicate RestUntouched(s: Setting, prog: Program, outcomes: map<ModId, Outcome>, graph: map<ModId, State>)
    requires ValidProgram(prog)
  {
    forall m {:trigger Untouched(s, prog, m, graph[m])} | m in graph
        && m !in outcomes :: Untouched(s, prog, m, graph[m])
  }

  lemma DescribedWithIfaces(prog: Program, graph: map<ModId, State>, news: map<ModId, Outcome>)
    requires ValidProgram(prog) && AllDescribed(prog, graph)
    ensures AllDescribed(prog, WithIfaces(graph, news))
  {
    var graph1 := WithIfaces(graph, news);
    forall m | m in graph1
      ensures Describes(prog, m, graph1[m])
    {
      assert Describes(prog, m, graph[m]);
      if m in news {
        IfaceKeepsDescription(prog, m, graph[m], news[m].iface);
      }
    }
  }

  lemma RestUntouchedWithIfaces(s: Setting, prog: Program, outcomes: map<ModId, Outcome>, graph: map<ModId, State>,
      news: map<ModId, Outcome>)
    requires ValidProgram(prog) && RestUntouched(s, prog, outcomes, graph)
    ensures RestUntouched(s, prog, outcomes + news, WithIfaces(graph, news))
  {
    var graph1 := WithIfaces(graph, news);
    forall m | m in graph1 && m !in outcomes + news
      ensures Untouched(s, prog, m, graph1[m])
    {
      assert Untouched(s, prog, m, graph[m]) && graph1[m] == graph[m];
    }
  }

  lemma StatesComplete(s: Setting, prog: Program, outcomes: map<ModId, Outcome>, graph: map<ModId, State>,
      news: map<ModId, Outcome>)
    requires ValidProgram(prog) && StatesOk(s, prog, outcomes, graph) && news.Keys <= prog.imports.Keys
    ensures StatesOk(s, prog, outcomes + news, WithIfaces(graph, news))
  {
    DescribedWithIfaces(prog, graph, news);
    RestUntouchedWithIfaces(s, prog, outcomes, graph, news);
    IfacesReplaced(graph, outcomes, news);
  }

  lemma StatesCached(s: Setting, prog: Program, outcomes: map<ModId, Outcome>, graph: map<ModId, State>,
      news: map<ModId, Outcome>)
    requires ValidProgram(prog) && StatesOk(s, prog, outcomes, graph) && FinalIfaces(graph, news)
    ensures StatesOk(s, prog, outcomes + news, graph)
  {
  }

  /** The states after the checks of modules, except those in left, have added the indirect dependencies they found. */
  ghost function PatchAll(graph: map<ModId, State>, outs: map<ModId, Outcome>, left: set<ModId>): map<ModId, State> {
    map m | m in graph :: if m in outs && m !in left then Patched(graph[m], outs[m]) else graph[m]
  }

  lemma PatchNone(graph: map<ModId, State>, outs: map<ModId, Outcome>)
    ensures PatchAll(graph, outs, outs.Keys) == graph
  {
  }

  lemma PatchOne(graph: map<ModId, State>, outs: map<ModId, Outcome>, left: set<ModId>, id: ModId)
    requires id in graph && id in outs && id in left
    ensures var g := PatchAll(graph, outs, left);
            id in g && g[id] == graph[id] && PatchAll(graph, outs, left - {id}) == g[id := Patched(g[id], outs[id])]
  {
  }

  /** What will be stored for the checked modules are valid entries. */
  ghost predicate Writable(s: Setting, graph: map<ModId, State>, outs: map<ModId, Outcome>, hashes: map<ModId, Hash>) {
    && outs.Keys <= graph.Keys
    && forall m {:trigger Entry(graph[m], outs[m], hashes)} | m in outs ::
       EntryOk(s, m, Entry(graph[m], outs[m], hashes))
  }

  /** Processing the unit with these modules now will store valid entries. */
  ghost predicate UnitWritable(s: Setting, solve: Solver, graph: map<ModId, State>, mods: set<ModId>) {
    var outs := solve(mods, GraphIfaces(graph));
    var graph1 := WithIfaces(graph, outs);
    outs.Keys <= graph.Keys && Writable(s, graph1, outs, GraphIfaces(graph1))
  }

  // The stages of a build, and the three ways to get to the next one.

  /** What does not change during a build of prog: the units of t, which solve processes correctly. */
  ghost predicate Setup(s: Setting, prog: Program, t: Table, solve: Solver) {
    ValidSetting(s) && Covers(s, prog) && ValidTable(prog.imports, t) && SolvesUnits(s.check, prog, t, solve)
  }

  ghost predicate Stage(s: Setting, prog: Program, t: Table, solve: Solver,
      completed: set<SccId>, outcomes: map<ModId, Outcome>, graph: map<ModId, State>)
    requires Setup(s, prog, t, solve)
  {
    Done(s.check, prog, t, completed, outcomes) && StatesOk(s, prog, outcomes, graph)
  }

  /** Units that can be worked on: not complete, with complete dependencies. */
  ghost predicate ReadyUnits(t: Table, completed: set<SccId>, ids: set<SccId>) {
    forall i {:trigger i in ids} | i in ids ::
        i in t.members && i !in completed && i in t.deps && t.deps[i] <= completed
  }

  /** The first stage: nothing is complete. */
  lemma StartStage(s: Setting, prog: Program, t: Table, solve: Solver, graph: map<ModId, State>)
    requires Setup(s, prog, t, solve) && graph.Keys == prog.imports.Keys
    requires forall m {:trigger Untouched(s, prog, m, graph[m])} | m in graph :: Untouched(s, prog, m, graph[m])
    ensures Stage(s, prog, t, solve, {}, map[], graph)
  {
    forall m | m in graph
      ensures Describes(prog, m, graph[m])
    {
      assert Untouched(s, prog, m, graph[m]);
    }
  }

  lemma StageStates(s: Setting, prog: Program, t: Table, solve: Solver,
      completed: set<SccId>, outcomes: map<ModId, Outcome>, graph: map<ModId, State>, ids: set<SccId>)
    requires Setup(s, prog, t, solve) && Stage(s, prog, t, solve, completed, outcomes, graph)
             && ReadyUnits(t, completed, ids)
    ensures forall m | m in ModulesOf(t, ids) :: m in graph && m !in outcomes && Untouched(s, prog, m, graph[m])
  {
    ModulesDisjoint(prog.imports, t, completed, ids);
    forall m | m in ModulesOf(t, ids)
      ensures m in graph && m !in outcomes && Untouched(s, prog, m, graph[m])
    {
      var i :| i in ids && i in t.members && m in t.members[i];
      assert t.of[m] == i;
    }
  }

  /** Serving fresh units from the cache. */
  lemma FreshStage(s: Setting, prog: Program, t: Table, solve: Solver,
      completed: set<SccId>, outcomes: map<ModId, Outcome>, graph: map<ModId, State>, ids: set<SccId>)
    requires Setup(s, prog, t, solve) && Stage(s, prog, t, solve, completed, outcomes, graph)
             && ReadyUnits(t, completed, ids)
    requires AllFresh(t, graph, ids)
    ensures var news := CachedOutcomes(s, prog, t, graph, ids);
            && Stage(s, prog, t, solve, completed + ids, outcomes + news, graph)
            && news.Keys == ModulesOf(t, ids) && news.Keys <= graph.Keys
            && forall m | m in news :: news[m].errors == graph[m].errorLines
  {
    StageStates(s, prog, t, solve, completed, outcomes, graph, ids);
    CompleteFresh(s, prog, t, completed, outcomes, graph, ids);
    StatesCached(s, prog, outcomes, graph, CachedOutcomes(s, prog, t, graph, ids));
  }

  /** Recording the interfaces that workers report for units they checked. */
  lemma WorkerStage(s: Setting, prog: Program, t: Table, solve: Solver, completed: set<SccId>,
      outcomes: map<ModId, Outcome>, graph: map<ModId, State>, ids: set<SccId>, news: map<ModId, Outcome>)
    requires Setup(s, prog, t, solve) && Stage(s, prog, t, solve, completed, outcomes, graph)
             && ReadyUnits(t, completed, ids)
    requires NewsSolved(t, solve, graph, ids, news)
    ensures Stage(s, prog, t, solve, completed + ids, outcomes + news, WithIfaces(graph, news))
    ensures news.Keys <= graph.Keys && news.Keys !! outcomes.Keys
  {
    StageStates(s, prog, t, solve, completed, outcomes, graph, ids);
    CompleteChecked(s.check, prog, t, completed, outcomes, graph, solve, ids, news);
    StatesComplete(s, prog, outcomes, graph, news);
  }

  /** Processing one stale unit in this process. */
  lemma StaleStage(s: Setting, prog: Program, t: Table, solve: Solver,
      completed: set<SccId>, outcomes: map<ModId, Outcome>, graph: map<ModId, State>, id: SccId)
    requires Setup(s, prog, t, solve) && Stage(s, prog, t, solve, completed, outcomes, graph)
             && ReadyUnits(t, completed, {id})
    ensures UnitWritable(s, solve, graph, t.members[id])
    ensures var outs := solve(t.members[id], GraphIfaces(graph));
            && outs.Keys == t.members[id]
            && Stage(s, prog, t, solve, completed + {id}, outcomes + outs, PatchAll(WithIfaces(graph, outs), outs, {}))
  {
    var outs := solve(t.members[id], GraphIfaces(graph));
    assert SolvedUnit(s.check, prog, t, id, GraphIfaces(graph), outs);
    OneUnitSolved(t, solve, graph, id, outs);
    WorkerStage(s, prog, t, solve, completed, outcomes, graph, {id}, outs);
    var graph1 := WithIfaces(graph, outs);
    var outcomes1 := outcomes + outs;
    StageWritable(s, prog, t, solve, completed + {id}, outcomes1, graph1, outs);
  }

  lemma OneUnitSolved(t: Table, solve: Solver, graph: map<ModId, State>, id: SccId, outs: map<ModId, Outcome>)
    requires id in t.members && outs == solve(t.members[id], GraphIfaces(graph)) && outs.Keys == t.members[id]
    ensures NewsSolved(t, solve, graph, {id}, outs)
  {
  }

  /** Complete modules can be stored, and may have their states patched. */
  lemma StageWritable(s: Setting, prog: Program, t: Table, solve: Solver,
      completed: set<SccId>, outcomes: map<ModId, Outcome>, graph: map<ModId, State>, outs: map<ModId, Outcome>)
    requires Setup(s, prog, t, solve) && Stage(s, prog, t, solve, completed, outcomes, graph)
    requires forall m | m in outs :: m in outcomes && outs[m] == outcomes[m]
    ensures Writable(s, graph, outs, GraphIfaces(graph))
    ensures Stage(s, prog, t, solve, completed, outcomes, PatchAll(graph, outs, {}))
  {
    forall m | m in outs
      ensures m in graph && EntryOk(s, m, Entry(graph[m], outs[m], GraphIfaces(graph)))
      ensures Describes(prog, m, Patched(graph[m], outs[m]))
    {
      StageEntry(s, prog, t, solve, completed, outcomes, graph, m, GraphIfaces(graph));
    }
    StatesPatchedAll(s, prog, outcomes, graph, outs);
  }

  /** A complete module's entry is valid if the hashes it records for reachable modules are the current ones. */
  lemma StageEntry(s: Setting, prog: Program, t: Table, solve: Solver, completed: set<SccId>,
      outcomes: map<ModId, Outcome>, graph: map<ModId, State>, m: ModId, hashes: map<ModId, Hash>)
    requires Setup(s, prog, t, solve) && Stage(s, prog, t, solve, completed, outcomes, graph) && m in outcomes
    requires AgreeOn(hashes, GraphIfaces(graph), graph.Keys * Closure(prog.imports, m))
    ensures m in graph && EntryOk(s, m, Entry(graph[m], outcomes[m], hashes))
    ensures Describes(prog, m, Patched(graph[m], outcomes[m]))
  {
    OutcomesSettled(s.check, prog, t, completed, outcomes, m);
    assert Describes(prog, m, graph[m]);
    EntryForOutcome(s, prog, t, completed, outcomes, m, graph[m], hashes);
  }

  lemma StatesPatchedAll(s: Setting, prog: Program, outcomes: map<ModId, Outcome>, graph: map<ModId, State>,
      outs: map<ModId, Outcome>)
    requires ValidProgram(prog) && StatesOk(s, prog, outcomes, graph)
    requires forall m | m in outs ::
             m in graph && m in outcomes && outs[m] == outcomes[m] && Describes(prog, m, Patched(graph[m], outs[m]))
    ensures StatesOk(s, prog, outcomes, PatchAll(graph, outs, {}))
  {
    var graph1 := PatchAll(graph, outs, {});
    forall m | m in graph1
      ensures Describes(prog, m, graph1[m]) && (m !in outcomes ==> Untouched(s, prog, m, graph1[m]))
      ensures m in outcomes ==> graph1[m].iface == outcomes[m].iface
    {
      assert Describes(prog, m, graph[m]);
      if m !in outcomes {
        assert Untouched(s, prog, m, graph[m]) && graph1[m] == graph[m];
      }
    }
  }

  /** The last stage is a correct build. */
  lemma FinalStage(s: Setting, prog: Program, t: Table, solve: Solver,
      outcomes: map<ModId, Outcome>, graph: map<ModId, State>)
    requires Setup(s, prog, t, solve) && Stage(s, prog, t, solve, t.members.Keys, outcomes, graph)
    ensures ValidProgram(prog) && Consistent(s.check, prog, outcomes)
    ensures graph.Keys == prog.imports.Keys && forall m | m in graph :: graph[m].iface == outcomes[m].iface
  {
    AllComplete(s.check, prog, t, outcomes);
  }

  // Combining the results of several units.

  ghost predicate DisjointUnits(t: Table) {
    forall i, j | i in t.members && j in t.members && i != j :: t.members[i] !! t.members[j]
  }

  lemma UnitsDisjoint(imports: Imports, t: Table)
    requires ValidTable(imports, t)
    ensures DisjointUnits(t)
  {
    forall i, j, m | i in t.members && j in t.members && i != j && m in t.members[i]
      ensures m !in t.members[j]
    {
      assert t.of[m] == i;
    }
  }

  lemma DisjointModules(t: Table, ids1: set<SccId>, ids2: set<SccId>)
    requires DisjointUnits(t) && ids1 !! ids2
    ensures ModulesOf(t, ids1) !! ModulesOf(t, ids2)
  {
    forall i, j, m | i in ids1 && j in ids2 && i in t.members && j in t.members && m in t.members[i]
      ensures m !in t.members[j]
    {
      assert t.members[i] !! t.members[j];
    }
  }

  lemma NewsUnion(t: Table, solve: Solver, graph: map<ModId, State>,
      ids1: set<SccId>, news1: map<ModId, Outcome>, ids2: set<SccId>, news2: map<ModId, Outcome>)
    requires DisjointUnits(t) && ids1 !! ids2
    requires NewsSolved(t, solve, graph, ids1, news1) && NewsSolved(t, solve, graph, ids2, news2)
    ensures NewsSolved(t, solve, graph, ids1 + ids2, news1 + news2)
    ensures news1.Keys !! news2.Keys
  {
    ModulesUnion(t, ids1, ids2);
    DisjointModules(t, ids1, ids2);
    forall i | i in ids1 + ids2 && i in t.members
      ensures HoldsUnit(t, solve, graph, i, news1 + news2)
    {
      if i in ids2 {
        assert HoldsUnit(t, solve, graph, i, news2);
      } else {
        assert HoldsUnit(t, solve, graph, i, news1);
      }
    }
  }
}
