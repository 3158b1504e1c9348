// When the dependency hashes compared by the freshness test are final.
module Freshness {
  import opened Text
  import opened Reach
  import opened ImportHash
  import opened Incremental
  import opened SccTable
  import opened Progress
  import opened Rounds

  /** The graph when these units are complete: their interfaces are known, everything else is as it was loaded. */
  ghost function GraphAt(t: Table, graph: map<ModId, State>, outcomes: map<ModId, Outcome>, completed: set<SccId>):
      map<ModId, State>
  {
    WithIfaces(graph, map m | m in outcomes && m in ModulesOf(t, completed) :: outcomes[m])
  }

  /** The freshness test of a build that loads this graph and gives its modules these outcomes. */
  ghost function FreshTest(t: Table, graph: map<ModId, State>, outcomes: map<ModId, Outcome>): Test {
    (i: SccId, completed: set<SccId>) => i in t.members && FreshUnit(t, GraphAt(t, graph, outcomes, completed), i)
  }

  /** In round k, no unit whose hashes are compared for unit i changes any more. */
  ghost predicate ComparedFinal(t: Table, graph: map<ModId, State>, run: seq<Moment>, k: nat, i: SccId)
    requires i in t.members && k < |run|
  {
    forall m, d {:trigger d in graph[m].depHashes} | m in t.members[i] && m in graph && d in graph[m].depHashes ::
      d in t.of && FinalFor(run, k, i, t.of[d])
  }

  ghost predicate AlwaysComparedFinal(t: Table, graph: map<ModId, State>, test: Test, i: SccId)
    requires i in t.members
  {
    forall run: seq<Moment>, k: nat |
      IsRun(t.deps, run) && AllAnswered(test, run) && k < |run| && i in run[k].ready ::
      ComparedFinal(t, graph, run, k, i)
  }

  /** The module reaches the dependency, or the dependency is never found stale. */
  ghost predicate Reliable(prog: Program, t: Table, test: Test, m: ModId, d: ModId) {
    d in Closure(prog.imports, m) || (d in t.of && NeverStale(t.deps, test, t.of[d]))
  }

  /** All indirect dependencies of the unit are reliable. */
  ghost predicate UnitReliable(prog: Program, t: Table, graph: map<ModId, State>, test: Test, i: SccId)
    requires i in t.members
  {
    forall m, d {:trigger IsIndirect(graph[m].priorities, d)} |
      m in t.members[i] && m in graph && d in graph[m].dependencies && IsIndirect(graph[m].priorities, d) ::
      Reliable(prog, t, test, m, d)
  }

  /** What a module of a unit that may be fresh was loaded with. */
  ghost predicate LoadedFresh(s: Setting, prog: Program, m: ModId, st: State)
    requires ValidProgram(prog)
  {
    IsFresh(st) && Untouched(s, prog, m, st)
  }

  lemma ComparedListed(s: Setting, prog: Program, m: ModId, st: State)
    requires ValidProgram(prog) && LoadedFresh(s, prog, m, st)
    ensures forall d :: d in st.depHashes <==> d in st.dependencies
    ensures forall d | d in st.dependencies :: d in prog.imports && d != m
  {
    assert EntryOk(s, m, st.meta.value);
    forall d
      ensures d in st.depHashes <==> d in st.dependencies
      ensures d in st.dependencies ==> d in prog.imports && d != m
    {
      assert d in st.depHashes <==> d in ToSet(st.meta.value.dependencies);
      assert d in st.dependencies <==> d in ToSet(st.dependencies);
    }
  }

  /**
   * The hash of one dependency, compared for a module of unit i, is final whenever i is decided, if
   * and only if it is a direct dependency, can be reached, or is never found stale.
   */
  lemma ComparedDependency(s: Setting, prog: Program, t: Table, test: Test, i: SccId, m: ModId, st: State, d: ModId)
    requires ValidProgram(prog) && ValidTable(prog.imports, t) && i in t.members && m in t.members[i]
    requires LoadedFresh(s, prog, m, st) && d in st.depHashes
    ensures d in t.of
    ensures AlwaysFinal(t.deps, test, i, t.of[d])
            <==> (IsIndirect(st.priorities, d) ==> Reliable(prog, t, test, m, d))
  {
    ComparedListed(s, prog, m, st);
    TableClosed(prog.imports, t);
    TableAcyclic(prog.imports, t);
    assert d in t.members[t.of[d]];
    UnitReached(prog.imports, t, i, m, d);
    FinalIffReachable(t.deps, test, i, t.of[d]);
    if !IsIndirect(st.priorities, d) {
      assert d in DirectOf(st.dependencies, st.priorities);
      EdgeReaches(prog.imports, m, d);
    }
  }

  /**
   * Everything that is compared for a unit is final whenever the unit is decided, if and only if each
   * of its indirect dependencies can be reached, as the check skipped for equal import hashes tests,
   * or is never found stale.
   */
  lemma FreshFinalIff(s: Setting, prog: Program, t: Table, graph: map<ModId, State>, test: Test, i: SccId)
    requires ValidProgram(prog) && ValidTable(prog.imports, t) && i in t.members
    requires forall m {:trigger m in t.members[i]} | m in t.members[i] ::
               m in graph && LoadedFresh(s, prog, m, graph[m])
    ensures AlwaysComparedFinal(t, graph, test, i) <==> UnitReliable(prog, t, graph, test, i)
  {
    if UnitReliable(prog, t, graph, test, i) {
      ReliableFinal(s, prog, t, graph, test, i);
    } else {
      var m, d :| m in t.members[i] && m in graph && d in graph[m].dependencies && IsIndirect(graph[m].priorities, d)
                  && !Reliable(prog, t, test, m, d);
      ComparedListed(s, prog, m, graph[m]);
      ComparedDependency(s, prog, t, test, i, m, graph[m], d);
      var run: seq<Moment>, k: nat :| IsRun(t.deps, run) && AllAnswered(test, run) && k < |run| && i in run[k].ready
                                       && !FinalFor(run, k, i, t.of[d]);
      assert d in graph[m].depHashes && !ComparedFinal(t, graph, run, k, i);
    }
  }

  lemma ReliableFinal(s: Setting, prog: Program, t: Table, graph: map<ModId, State>, test: Test, i: SccId)
    requires ValidProgram(prog) && ValidTable(prog.imports, t) && i in t.members
    requires forall m {:trigger m in t.members[i]} | m in t.members[i] ::
               m in graph && LoadedFresh(s, prog, m, graph[m])
    requires UnitReliable(prog, t, graph, test, i)
    ensures AlwaysComparedFinal(t, graph, test, i)
  {
    forall run: seq<Moment>, k: nat, m, d |
      IsRun(t.deps, run) && AllAnswered(test, run) && k < |run| && i in run[k].ready
      && m in t.members[i] && m in graph && d in graph[m].depHashes
      ensures d in t.of && FinalFor(run, k, i, t.of[d])
    {
      ComparedListed(s, prog, m, graph[m]);
      ComparedDependency(s, prog, t, test, i, m, graph[m], d);
      assert AlwaysFinal(t.deps, test, i, t.of[d]);
    }
  }

  // What is final does not differ from the outcome.

  /** The outcomes of a correct build, with those of one unit replaced by what checks in a given graph yield. */
  ghost function Rechecked(check: Checker, prog: Program, outcomes: map<ModId, Outcome>, members: set<ModId>,
      graph: map<ModId, State>): map<ModId, Outcome>
    requires ValidProgram(prog) && outcomes.Keys == prog.imports.Keys
  {
    map x | x in prog.imports :: if x in members then Recheck(check, prog, x, GraphIfaces(graph)) else outcomes[x]
  }

  /** A unit that the test accepts has the interfaces it was loaded with. */
  lemma AcceptedUnchanged(s: Setting, prog: Program, t: Table, now: map<ModId, State>, outcomes: map<ModId, Outcome>,
      j: SccId, m: ModId)
    requires ValidSetting(s) && Covers(s, prog) && ValidTable(prog.imports, t) && LocallyUnique(s.check, prog)
    requires Consistent(s.check, prog, outcomes) && now.Keys == prog.imports.Keys
    requires j in t.members && m in t.members[j] && FreshUnit(t, now, j)
    requires forall x | x in t.members[j] :: Untouched(s, prog, x, now[x])
    requires forall x, d | x in t.members[j] && d in Closure(prog.imports, x) && d !in t.members[j] ::
               now[d].iface == outcomes[d].iface
    ensures now[m].iface == outcomes[m].iface
  {
    var members := t.members[j];
    var res := Rechecked(s.check, prog, outcomes, members, now);
    assert t.of[m] == j && members == Component(prog.imports, m);
    forall x | x in members
      ensures x in prog.imports && res[x].iface == now[x].iface
    {
      assert t.of[x] == j && FreshModule(t, now, j, x);
      FreshModuleUnchanged(s, prog, t, now, j, x);
    }
    RecheckedSolves(s.check, prog, outcomes, members, now, m);
    assert SolvesCycle(s.check, prog, m, outcomes) && SolvesCycle(s.check, prog, m, res);
    OneSolution(s.check, prog, m, outcomes, res);
  }

  /** Replaced outcomes solve the cycle if they have the interfaces that they were obtained with. */
  lemma RecheckedSolves(check: Checker, prog: Program, outcomes: map<ModId, Outcome>, members: set<ModId>,
      now: map<ModId, State>, m: ModId)
    requires ValidProgram(prog) && outcomes.Keys == now.Keys == prog.imports.Keys
    requires m in prog.imports && members == Component(prog.imports, m)
    requires forall x | x in members :: Rechecked(check, prog, outcomes, members, now)[x].iface == now[x].iface
    requires forall x, d | x in members && d in Closure(prog.imports, x) && d !in members ::
               now[d].iface == outcomes[d].iface
    ensures SolvesCycle(check, prog, m, Rechecked(check, prog, outcomes, members, now))
  {
    var res := Rechecked(check, prog, outcomes, members, now);
    forall x | x in members
      ensures res[x] == Recheck(check, prog, x, Ifaces(res))
    {
      assert AgreeOn(GraphIfaces(now), Ifaces(res), Closure(prog.imports, x) - {x});
      RecheckStable(check, prog, x, GraphIfaces(now), Ifaces(res));
    }
  }

  lemma OneSolution(check: Checker, prog: Program, m: ModId, r1: map<ModId, Outcome>, r2: map<ModId, Outcome>)
    requires ValidProgram(prog) && LocallyUnique(check, prog) && m in prog.imports
    requires SolvesCycle(check, prog, m, r1) && SolvesCycle(check, prog, m, r2)
    requires forall x | x in prog.imports && x !in Component(prog.imports, m) :: r1[x] == r2[x]
    ensures r1[m] == r2[m]
  {
    assert AgreeOn(Ifaces(r1), Ifaces(r2), Closure(prog.imports, m) - Component(prog.imports, m));
  }

  /** A unit that is decided, but never found stale, is not changed by the build. */
  lemma CachedUnchanged(s: Setting, prog: Program, t: Table, graph: map<ModId, State>, outcomes: map<ModId, Outcome>,
      run: seq<Moment>, n: nat, j: SccId, m: ModId)
    requires ValidSetting(s) && Covers(s, prog) && ValidTable(prog.imports, t) && LocallyUnique(s.check, prog)
    requires Consistent(s.check, prog, outcomes) && graph.Keys == prog.imports.Keys
    requires forall x | x in graph :: Untouched(s, prog, x, graph[x])
    requires IsRun(t.deps, run) && AllAnswered(FreshTest(t, graph, outcomes), run)
    requires n < |run| && j in run[n].ready && j in run[n].cached && j in t.members && m in t.members[j]
    ensures m in prog.imports && graph[m].iface == outcomes[m].iface
  {
    assert AnsweredAt(FreshTest(t, graph, outcomes), run[n]);
    RunInPlace(t.deps, run, n);
    NotYetComplete(prog, t, graph, outcomes, run[n], j);
    AcceptedUnchanged(s, prog, t, GraphAt(t, graph, outcomes, run[n].completed), outcomes, j, m);
  }

  /** When unit j is decided, its own states are as loaded, and the interfaces of what it reaches are known. */
  lemma NotYetComplete(prog: Program, t: Table, graph: map<ModId, State>, outcomes: map<ModId, Outcome>,
      moment: Moment, j: SccId)
    requires ValidProgram(prog) && ValidTable(prog.imports, t) && graph.Keys == outcomes.Keys == prog.imports.Keys
    requires InPlace(t.deps, moment) && j in moment.ready && j in t.members
    ensures var now := GraphAt(t, graph, outcomes, moment.completed);
            && (forall x | x in t.members[j] :: x in graph && now[x] == graph[x])
            && forall x, d | x in t.members[j] && d in Closure(prog.imports, x) && d !in t.members[j] ::
               now[d].iface == outcomes[d].iface
  {
    forall x | x in t.members[j]
      ensures x in graph && x !in ModulesOf(t, moment.completed)
    {
      assert t.of[x] == j;
    }
    forall x, d | x in t.members[j] && d in Closure(prog.imports, x) && d !in t.members[j]
      ensures d in ModulesOf(t, moment.completed)
    {
      OutsideComplete(prog, t, moment, j, x, d);
    }
  }

  lemma OutsideComplete(prog: Program, t: Table, moment: Moment, j: SccId, x: ModId, d: ModId)
    requires ValidProgram(prog) && ValidTable(prog.imports, t) && InPlace(t.deps, moment) && j in moment.ready
    requires j in t.members && x in t.members[j] && d in Closure(prog.imports, x) && d !in t.members[j]
    ensures d in ModulesOf(t, moment.completed)
  {
    TableClosed(prog.imports, t);
    ReachedComplete(t.deps, moment, j);
    assert d in prog.imports && d in t.members[t.of[d]];
    UnitReached(prog.imports, t, j, x, d);
    assert t.of[d] in Closure(t.deps, j);
  }

  /**
   * What the test compares is then the hash of the final interface: a unit that does not change any
   * more has, in the graph that is tested, the interfaces of its outcomes.
   */
  lemma FinalUnchanged(s: Setting, prog: Program, t: Table, graph: map<ModId, State>, outcomes: map<ModId, Outcome>,
      run: seq<Moment>, k: nat, i: SccId, n: nat, j: SccId, m: ModId)
    requires ValidSetting(s) && Covers(s, prog) && ValidTable(prog.imports, t) && LocallyUnique(s.check, prog)
    requires Consistent(s.check, prog, outcomes) && graph.Keys == prog.imports.Keys
    requires forall x | x in graph :: Untouched(s, prog, x, graph[x])
    requires IsRun(t.deps, run) && AllAnswered(FreshTest(t, graph, outcomes), run)
    requires k < |run| && i in run[k].ready && i != j && FinalFor(run, k, i, j)
    requires n < |run| && j in run[n].ready && j in t.members && m in t.members[j]
    ensures m in prog.imports && GraphAt(t, graph, outcomes, run[k].completed)[m].iface == outcomes[m].iface
  {
    assert t.of[m] == j;
    if j in run[k].completed {
      assert m in ModulesOf(t, run[k].completed);
    } else {
      CachedUnchanged(s, prog, t, graph, outcomes, run, n, j, m);
    }
  }
}
