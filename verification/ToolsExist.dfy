// Tools that do what builds expect of them: they exist exactly for programs whose import cycles can be
// checked, and the same tools do for all of these.
module ToolsExist {
  import opened Text
  import opened Reach
  import opened ImportHash
  import opened Incremental
  import opened Progress
  import opened Components
  import opened Records
  import opened Runs

  // Checking a cycle.

  ghost predicate CycleSolvable(check: Checker, prog: Program, ids: set<ModId>, ifaces: map<ModId, Hash>)
    requires ValidProgram(prog)
  {
    exists outs :: SolvesTogether(check, prog, ids, ifaces, outs)
  }

  /** Whatever the interfaces outside of it, the modules of an import cycle can be given outcomes that fit together. */
  ghost predicate Solvable(check: Checker, prog: Program)
    requires ValidProgram(prog)
  {
    forall m, ifaces: map<ModId, Hash> {:trigger CycleSolvable(check, prog, Component(prog.imports, m), ifaces)} |
      m in prog.imports && ifaces.Keys == prog.imports.Keys ::
      CycleSolvable(check, prog, Component(prog.imports, m), ifaces)
  }

  ghost function SolutionOf(check: Checker, prog: Program, ids: set<ModId>, ifaces: map<ModId, Hash>):
      (r: map<ModId, Outcome>)
    requires ValidProgram(prog)
    ensures CycleSolvable(check, prog, ids, ifaces) ==> SolvesTogether(check, prog, ids, ifaces, r)
  {
    if CycleSolvable(check, prog, ids, ifaces) then
      var outs :| SolvesTogether(check, prog, ids, ifaces, outs);
      outs
    else map[]
  }

  ghost function SolveEach(check: Checker): Program -> Solver {
    (prog: Program) => (ids: set<ModId>, ifaces: map<ModId, Hash>) =>
      if ValidProgram(prog) then SolutionOf(check, prog, ids, ifaces) else map[]
  }

  lemma SolveEachSolves(check: Checker, prog: Program)
    requires ValidProgram(prog) && Solvable(check, prog)
    ensures SolvesCycles(check, prog, SolveEach(check)(prog))
  {
    forall m, ifaces: map<ModId, Hash> | m in prog.imports && ifaces.Keys == prog.imports.Keys
      ensures SolvesTogether(check, prog, Component(prog.imports, m), ifaces,
                             SolveEach(check)(prog)(Component(prog.imports, m), ifaces))
    {
      assert CycleSolvable(check, prog, Component(prog.imports, m), ifaces);
    }
  }

  lemma SolvesMeansSolvable(check: Checker, prog: Program, solve: Solver)
    requires ValidProgram(prog) && SolvesCycles(check, prog, solve)
    ensures Solvable(check, prog)
  {
    forall m, ifaces: map<ModId, Hash> | m in prog.imports && ifaces.Keys == prog.imports.Keys
      ensures CycleSolvable(check, prog, Component(prog.imports, m), ifaces)
    {
      var ids := Component(prog.imports, m);
      assert SolvesTogether(check, prog, ids, ifaces, solve(ids, ifaces));
    }
  }

  /** Without import cycles there is nothing to fit together. */
  lemma AcyclicSolvable(check: Checker, prog: Program)
    requires ValidProgram(prog) && Acyclic(prog.imports)
    ensures Solvable(check, prog)
  {
    forall m, ifaces: map<ModId, Hash> | m in prog.imports && ifaces.Keys == prog.imports.Keys
      ensures CycleSolvable(check, prog, Component(prog.imports, m), ifaces)
    {
      OwnCycle(prog.imports, m);
      CheckOne(check, prog, m, ifaces, map[m := Recheck(check, prog, m, ifaces)]);
    }
  }

  lemma CheckOne(check: Checker, prog: Program, m: ModId, ifaces: map<ModId, Hash>, outs: map<ModId, Outcome>)
    requires ValidProgram(prog) && m in prog.imports && outs.Keys == {m} && outs[m] == Recheck(check, prog, m, ifaces)
    ensures SolvesTogether(check, prog, {m}, ifaces, outs)
  {
    SameVisible(prog.imports, m, ifaces, Ifaces(outs));
  }

  lemma OwnCycle(g: Imports, m: ModId)
    requires Acyclic(g) && m in g
    ensures Component(g, m) == {m} && m !in Closure(g, m)
  {
    forall x | x in Component(g, m)
      ensures x == m
    {
      if x != m { ReachesTransitive(g, m, x, m); }
    }
  }

  lemma SameVisible(g: Imports, m: ModId, ifaces: map<ModId, Hash>, more: map<ModId, Hash>)
    requires more.Keys == {m}
    ensures Visible(g, m, ifaces + more) == Visible(g, m, ifaces)
  {
  }

  // Listing the cycles.

  /** The first module of each import cycle. */
  ghost function Heads(g: Imports): set<ModId> {
    set m | m in g && Component(g, m) != {} && Least(Component(g, m)) == m
  }

  ghost function CycleList(g: Imports): seq<set<ModId>> {
    var heads := Sorted(Heads(g));
    seq(|heads|, i requires 0 <= i < |heads| => Component(g, heads[i]))
  }

  lemma HeadOf(g: Imports, m: ModId) returns (head: ModId)
    requires m in g
    ensures head in Heads(g) && head in g && Component(g, head) == Component(g, m) && m in Component(g, m)
  {
    assert m in Component(g, m);
    head := Least(Component(g, m));
    ComponentsEqual(g, m, head);
  }

  lemma CyclesListed(g: Imports)
    ensures IsPartition(CycleList(g), g)
  {
    var heads := Sorted(Heads(g));
    SortedOnce(Heads(g));
    forall i | 0 <= i < |heads|
      ensures heads[i] in g && heads[i] in Component(g, heads[i]) && Least(Component(g, heads[i])) == heads[i]
    {
      assert heads[i] in Heads(g);
    }
    EachCycle(g, heads, CycleList(g));
    forall m | m in g
      ensures exists i :: 0 <= i < |CycleList(g)| && m in CycleList(g)[i]
    {
      var head := HeadOf(g, m);
      var i :| 0 <= i < |heads| && heads[i] == head;
      assert m in CycleList(g)[i];
    }
  }

  lemma EachCycle(g: Imports, heads: seq<ModId>, raw: seq<set<ModId>>)
    requires |raw| == |heads| && forall i | 0 <= i < |heads| :: heads[i] in g && raw[i] == Component(g, heads[i])
    requires forall i | 0 <= i < |heads| :: heads[i] in raw[i] && Least(raw[i]) == heads[i]
    requires forall i, j | 0 <= i < j < |heads| :: heads[i] != heads[j]
    ensures forall i | 0 <= i < |raw| :: raw[i] != {} && raw[i] <= g.Keys
    ensures forall i, m {:trigger m in raw[i]} | 0 <= i < |raw| && m in raw[i] :: raw[i] == Component(g, m)
    ensures forall i, j | 0 <= i < j < |raw| :: raw[i] != raw[j]
  {
    forall i, m {:trigger m in raw[i]} | 0 <= i < |raw| && m in raw[i]
      ensures raw[i] == Component(g, m)
    {
      ComponentsEqual(g, heads[i], m);
    }
  }

  // Loading.

  /** A module read from source. */
  function ParsedState(prog: Program, m: ModId, dependencies: seq<ModId>): State
    requires m in prog.source && m in prog.suppressedOpts && m in prog.transHash
  {
    State(prog.source[m], dependencies, map[], prog.suppressedOpts[m], None, map[], [], prog.transHash[m], [])
  }

  /** The cache is used where it has a usable entry; other modules are read from source. */
  ghost function LoadModule(prog: Program, metastore: map<ModId, Meta>, m: ModId): State
    requires ValidProgram(prog) && m in prog.imports
  {
    if m in metastore && Usable(prog, m, metastore[m]) then CachedState(prog, m, metastore[m])
    else ParsedState(prog, m, Sorted(prog.imports[m]))
  }

  ghost function LoadAll(prog: Program, metastore: map<ModId, Meta>): map<ModId, State>
    requires ValidProgram(prog)
  {
    map m | m in prog.imports :: LoadModule(prog, metastore, m)
  }

  lemma ParsedDescribes(prog: Program, m: ModId, dependencies: seq<ModId>)
    requires ValidProgram(prog) && m in prog.imports && ToSet(dependencies) == prog.imports[m]
    ensures Describes(prog, m, ParsedState(prog, m, dependencies))
  {
    var st := ParsedState(prog, m, dependencies);
    assert forall d | d in dependencies :: d in ToSet(dependencies) && !IsIndirect(st.priorities, d);
    assert DirectOf(st.dependencies, st.priorities) == ToSet(dependencies);
  }

  ghost predicate WellLoaded(prog: Program, metastore: map<ModId, Meta>, m: ModId, st: State)
    requires ValidProgram(prog) && m in prog.imports
  {
    && ListOk(st.dependencies, st.priorities) && Loaded(prog, m, st)
    && (st.meta.Some? ==> m in metastore && metastore[m] == st.meta.value)
  }

  lemma LoadsOne(prog: Program, metastore: map<ModId, Meta>, m: ModId)
    requires ValidProgram(prog) && m in prog.imports
    ensures WellLoaded(prog, metastore, m, LoadModule(prog, metastore, m))
  {
    SortedOnce(prog.imports[m]);
    assert ToSet(Sorted(prog.imports[m])) == prog.imports[m];
    ParsedDescribes(prog, m, Sorted(prog.imports[m]));
    OnceIff(Sorted(prog.imports[m]));
  }

  lemma LoadsAll(prog: Program, metastore: map<ModId, Meta>, graph: map<ModId, State>)
    requires ValidProgram(prog) && graph.Keys == prog.imports.Keys
    requires forall m {:trigger graph[m]} | m in prog.imports :: WellLoaded(prog, metastore, m, graph[m])
    ensures LoadsProgram(prog, metastore, graph)
  {
    assert ImportsOf(graph) == prog.imports;
    forall m | m in graph
      ensures LoadedState(prog, metastore, m, graph[m]) && StateOk(graph[m])
    {
      assert WellLoaded(prog, metastore, m, graph[m]);
      ListOkIff(graph[m]);
      assert graph[m].(transHash := prog.transHash[m]) == graph[m];
    }
  }

  lemma LoadAllLoads(prog: Program, metastore: map<ModId, Meta>)
    requires ValidProgram(prog)
    ensures LoadsProgram(prog, metastore, LoadAll(prog, metastore))
  {
    var graph := LoadAll(prog, metastore);
    forall m | m in prog.imports
      ensures m in graph && WellLoaded(prog, metastore, m, graph[m])
    {
      LoadsOne(prog, metastore, m);
      assert graph[m] == LoadModule(prog, metastore, m);
    }
    LoadsAll(prog, metastore, graph);
  }

  // All together.

  ghost function SeesAll(): (ModId, map<ModId, Hash>) -> map<ModId, Hash> {
    (m, ifaces) => ifaces
  }

  ghost function LoadsFrom(): (Program, map<ModId, Meta>) -> map<ModId, State> {
    (prog, metastore) => if ValidProgram(prog) then LoadAll(prog, metastore) else map[]
  }

  ghost function ListsCycles(): Imports -> seq<set<ModId>> {
    g => CycleList(g)
  }

  ghost function OrdersAlike(): Imports -> map<ModId, nat> {
    g => map m | m in g :: 0
  }

  ghost function NoneFails(): (ModId, Meta) -> bool {
    (m, e) => true
  }

  ghost function ToolsFor(check: Checker): Tools {
    Tools(SolveEach(check), SeesAll(), LoadsFrom(), ListsCycles(), OrdersAlike(), NoneFails())
  }

  /** They load from the store what they can, and no write fails. */
  lemma ToolsUseStore(check: Checker, prog: Program)
    requires ValidProgram(prog)
    ensures LoadsFromStore(prog, ToolsFor(check)) && NeverFails(ToolsFor(check).writes)
  {
    forall store
      ensures UsesStore(prog, store, LoadAll(prog, store))
    {
      LoadAllUses(prog, store);
    }
  }

  lemma LoadAllUses(prog: Program, store: map<ModId, Meta>)
    requires ValidProgram(prog)
    ensures UsesStore(prog, store, LoadAll(prog, store))
  {
    var graph := LoadAll(prog, store);
    forall m | m in prog.imports
      ensures if m in store && Usable(prog, m, store[m]) then
                graph[m].(transHash := prog.transHash[m]) == CachedState(prog, m, store[m])
              else
                !IsFresh(graph[m]) && (graph[m].meta.None? ==> ToSet(graph[m].dependencies) == prog.imports[m])
    {
      assert graph[m] == LoadModule(prog, store, m);
      SortedOnce(prog.imports[m]);
    }
  }

  /** What a build expects of its tools can be met exactly if each import cycle can be checked. */
  lemma ToolsExistIff(s: Setting, prog: Program)
    requires ValidProgram(prog)
    ensures ToolsWork(s, prog, ToolsFor(s.check)) <==> Solvable(s.check, prog)
    ensures (exists tools :: ToolsWork(s, prog, tools)) <==> Solvable(s.check, prog)
  {
    if Solvable(s.check, prog) {
      SolveEachSolves(s.check, prog);
      OthersWork(s, prog);
      AlwaysLoads(prog);
    }
    forall tools | ToolsWork(s, prog, tools)
      ensures Solvable(s.check, prog)
    {
      SolvesMeansSolvable(s.check, prog, tools.solve(prog));
    }
  }

  lemma OthersWork(s: Setting, prog: Program)
    requires ValidProgram(prog)
    ensures SeesInterfaces(prog.imports, SeesAll())
    ensures IsPartition(ListsCycles()(prog.imports), prog.imports)
    ensures OrdersAlike()(prog.imports).Keys == prog.imports.Keys
  {
    CyclesListed(prog.imports);
  }

  lemma AlwaysLoads(prog: Program)
    requires ValidProgram(prog)
    ensures forall metastore {:trigger LoadsFrom()(prog, metastore)} ::
              LoadsProgram(prog, metastore, LoadsFrom()(prog, metastore))
  {
    forall metastore
      ensures LoadsProgram(prog, metastore, LoadAll(prog, metastore))
    {
      LoadAllLoads(prog, metastore);
    }
  }

  /** So the same tools serve any history of such programs, whatever is edited in between. */
  lemma HistoryServed(s: Setting, progs: seq<Program>)
    requires ValidSetting(s)
    requires forall k | 0 <= k < |progs| :: Covers(s, progs[k]) && Solvable(s.check, progs[k])
    ensures Serves(s, progs, ToolsFor(s.check))
  {
    forall k | 0 <= k < |progs|
      ensures ToolsWork(s, progs[k], ToolsFor(s.check))
    {
      ToolsExistIff(s, progs[k]);
    }
  }
}
