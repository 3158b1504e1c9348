// Three builds of four modules, in the last of which the freshness test compares a hash that is not final.
module ShortcutHistory {
  import opened Text
  import opened Reach
  import opened ImportHash
  import opened Incremental
  import opened SccTable
  import opened Progress
  import opened Rounds
  import opened Freshness
  import opened Components
  import opened Records
  import opened Runs
  import opened ToolsExist

  /** The names of the modules. */
  datatype Names = Names(a: ModId, b: ModId, c: ModId, x: ModId)

  predicate Differ(n: Names) {
    && n.a != n.b && n.a != n.c && n.a != n.x && n.b != n.c && n.b != n.x && n.c != n.x
    && |n.a| == |n.b| == |n.c| == |n.x| == 1 && n.a[0] != 0 && n.b[0] != 0 && n.c[0] != 0 && n.x[0] != 0
  }

  // A checker in which a module that imports b exports a type of b, one that imports x exports what x
  // does, and one that imports nothing exports its text. Who imports c reads b, too, if c exports that type.

  function Exports(n: Names, u: Unit, env: map<ModId, Hash>): Hash {
    if n.b in u.direct then [1]
    else if n.x in u.direct && n.x in env then [2] + env[n.x]
    else if u.direct == {} then [3] + u.source
    else [0]
  }

  predicate ReadsThrough(n: Names, u: Unit, env: map<ModId, Hash>) {
    u.id != n.b && n.c in u.direct && n.c in env && env[n.c] == [1]
  }

  function Reexport(n: Names): Checker {
    (u: Unit, env: map<ModId, Hash>) => Outcome(Exports(n, u, env), [], if ReadsThrough(n, u, env) then {n.b} else {})
  }

  lemma ReexportReads(n: Names)
    ensures ReadsRecorded(Reexport(n)) && ReadsInClosure(Reexport(n))
  {
    forall u, env1, env2
      ensures DependsOnReads(Reexport(n), u, env1, env2)
    {
    }
    forall prog, m, ifaces | ValidProgram(prog) && m in prog.imports && Settled(Reexport(n), prog, m, ifaces)
      ensures Recheck(Reexport(n), prog, m, ifaces).indirect <= Closure(prog.imports, m) - {m}
    {
      ReexportInClosure(n, prog, m, ifaces);
    }
  }

  lemma OnlyThroughB(n: Names, u: Unit, env: map<ModId, Hash>)
    requires Exports(n, u, env) == [1]
    ensures n.b in u.direct
  {
    if n.x in u.direct && n.x in env {
      assert ([2] + env[n.x])[0] == 2;
    }
    assert ([3] + u.source)[0] == 3;
  }

  lemma ReexportInClosure(n: Names, prog: Program, m: ModId, ifaces: map<ModId, Hash>)
    requires ValidProgram(prog) && m in prog.imports && Settled(Reexport(n), prog, m, ifaces)
    ensures Recheck(Reexport(n), prog, m, ifaces).indirect <= Closure(prog.imports, m) - {m}
  {
    if ReadsThrough(n, UnitOf(prog, m), Visible(prog.imports, m, ifaces)) {
      assert n.c in Closure(prog.imports, m) && ifaces[n.c] == [1];
      OnlyThroughB(n, UnitOf(prog, n.c), Visible(prog.imports, n.c, ifaces));
      EdgeReaches(prog.imports, n.c, n.b);
      ClosureTransitive(prog.imports, m, n.c);
    }
  }

  ghost function ModuleNames(): iset<ModId> {
    iset m: ModId | m != [] && m[0] != 0
  }

  ghost function History(n: Names): Setting {
    Setting(Reexport(n), MarkedDigest(0), ShortInputs(), ModuleNames())
  }

  lemma HistoryValid(n: Names)
    ensures ValidSetting(History(n)) && Storable(MarkedDigest(0))
  {
    ReexportReads(n);
    MarkedInjective(0);
  }

  // The programs.

  /** a imports c, b imports x, and c imports b, or no longer does. */
  ghost predicate Chain(g: Imports, n: Names, linked: bool) {
    && ImportGraph(g) && Differ(n)
    && (forall m :: m in g <==> m == n.a || m == n.b || m == n.c || m == n.x)
    && g[n.a] == {n.c} && g[n.b] == {n.x} && g[n.x] == {} && g[n.c] == (if linked then {n.b} else {})
  }

  lemma NoImport(g: Imports, m: ModId)
    requires ImportGraph(g) && m in g && g[m] == {}
    ensures Closure(g, m) == {}
  {
    ClosureLeast(g, m, {});
  }

  lemma OneImport(g: Imports, m: ModId, d: ModId)
    requires ImportGraph(g) && m in g && g[m] == {d}
    ensures d in g && Closure(g, m) == {d} + Closure(g, d)
  {
    EdgeReaches(g, m, d);
    ClosureTransitive(g, m, d);
    forall v | v in Below(g, d)
      ensures v in g && g[v] <= Below(g, d)
    {
      BelowClosed(g, d, v);
    }
    ClosureLeast(g, m, Below(g, d));
  }

  lemma ChainClosures(g: Imports, n: Names, linked: bool)
    requires Chain(g, n, linked)
    ensures Closure(g, n.x) == {} && Closure(g, n.b) == {n.x}
    ensures Closure(g, n.c) == (if linked then {n.b, n.x} else {})
    ensures Closure(g, n.a) == {n.c} + Closure(g, n.c)
  {
    NoImport(g, n.x);
    OneImport(g, n.b, n.x);
    OneImport(g, n.a, n.c);
    if linked {
      OneImport(g, n.c, n.b);
    } else {
      NoImport(g, n.c);
    }
  }

  lemma ChainAcyclic(g: Imports, n: Names, linked: bool)
    requires Chain(g, n, linked)
    ensures Acyclic(g)
  {
    ChainClosures(g, n, linked);
    assert forall m | m in g :: m !in Closure(g, m);
  }

  lemma ChainOwn(g: Imports, n: Names, linked: bool, m: ModId)
    requires Chain(g, n, linked) && m in g
    ensures Component(g, m) == {m}
  {
    ChainAcyclic(g, n, linked);
    OwnCycle(g, m);
  }

  lemma MarkedLength(x: Bytes)
    ensures |MarkedDigest(0)(x)| <= |x| + 1
  {
  }

  lemma LeafShort(g: Imports, m: ModId)
    requires ImportGraph(g) && m in g && g[m] == {} && Storable(MarkedDigest(0))
    ensures |Buffer(MarkedDigest(0), g, m)| == 0
  {
    LeafBuffer(MarkedDigest(0), g, m);
  }

  lemma LinkShort(g: Imports, m: ModId, d: ModId)
    requires ImportGraph(g) && m in g && g[m] == {d} && |d| == 1 && Component(g, m) == {m} && Storable(MarkedDigest(0))
    ensures d in g && |Buffer(MarkedDigest(0), g, m)| <= |Buffer(MarkedDigest(0), g, d)| + 10
  {
    OneImportShort(MarkedDigest(0), g, m, d);
    MarkedLength(Buffer(MarkedDigest(0), g, d));
  }

  lemma {:induction false} ChainShort(g: Imports, n: Names, linked: bool, m: ModId)
    requires Chain(g, n, linked) && Storable(MarkedDigest(0)) && m in g
    ensures |Buffer(MarkedDigest(0), g, m)| <= if m == n.a then 30 else if m == n.c then 20 else 10
    decreases m == n.a, m == n.c
  {
    ChainOwn(g, n, linked, m);
    if m == n.a {
      ChainShort(g, n, linked, n.c);
      LinkShort(g, m, n.c);
    } else if m == n.b {
      LeafShort(g, n.x);
      LinkShort(g, m, n.x);
    } else if m == n.c && linked {
      ChainShort(g, n, linked, n.b);
      LinkShort(g, m, n.b);
    } else {
      LeafShort(g, m);
    }
  }

  lemma ShortHashed(g: Imports)
    requires Storable(MarkedDigest(0)) && Over(g, ModuleNames())
    requires forall m | m in g :: |Buffer(MarkedDigest(0), g, m)| <= 30
    ensures HashedWithin(MarkedDigest(0), g, ShortInputs(), ModuleNames())
  {
    MarkedApart(0, ModuleNames());
  }

  /** The program with these imports and sources. */
  ghost function ProgramOf(g: Imports, sources: map<ModId, Str>): Program
    requires ImportGraph(g) && Storable(MarkedDigest(0))
  {
    Program(g, sources, map m | m in g :: [], map m | m in g :: TransHash(MarkedDigest(0), g, m))
  }

  lemma ProgramCovered(g: Imports, sources: map<ModId, Str>, n: Names)
    requires Storable(MarkedDigest(0)) && ImportGraph(g) && sources.Keys == g.Keys
    requires HashedWithin(MarkedDigest(0), g, ShortInputs(), ModuleNames())
    ensures Covers(History(n), ProgramOf(g, sources))
  {
  }

  function TextOfX(edited: bool): Str {
    if edited then [6] else [5]
  }

  /** A version of the program: whether c imports b, and whether x has been edited. */
  ghost predicate Version(prog: Program, n: Names, linked: bool, edited: bool) {
    && ValidProgram(prog) && Chain(prog.imports, n, linked)
    && prog.source[n.c] == (if linked then n.b else []) && prog.source[n.x] == TextOfX(edited)
    && prog.source[n.a] == [] && prog.source[n.b] == []
    && forall m | m in prog.suppressedOpts :: prog.suppressedOpts[m] == []
  }

  lemma Sources(n: Names, linked: bool, edited: bool) returns (sources: map<ModId, Str>)
    requires Differ(n)
    ensures forall m :: m in sources <==> m == n.a || m == n.b || m == n.c || m == n.x
    ensures sources[n.c] == (if linked then n.b else []) && sources[n.x] == TextOfX(edited)
    ensures sources[n.a] == [] && sources[n.b] == []
  {
    sources := map[n.a := [], n.b := [], n.c := if linked then n.b else [], n.x := TextOfX(edited)];
  }

  lemma ChainGraph(n: Names, linked: bool) returns (g: Imports)
    requires Differ(n)
    ensures Chain(g, n, linked)
  {
    g := map[n.a := {n.c}, n.b := {n.x}, n.c := if linked then {n.b} else {}, n.x := {}];
  }

  lemma VersionOf(g: Imports, n: Names, linked: bool, edited: bool) returns (prog: Program)
    requires Storable(MarkedDigest(0)) && Chain(g, n, linked)
    ensures Version(prog, n, linked, edited) && Covers(History(n), prog) && prog.imports == g
  {
    var sources := Sources(n, linked, edited);
    ChainHashed(g, n, linked);
    assert sources.Keys == g.Keys;
    ProgramCovered(g, sources, n);
    prog := ProgramOf(g, sources);
    IsVersion(prog, n, linked, edited, sources);
  }

  lemma ChainHashed(g: Imports, n: Names, linked: bool)
    requires Storable(MarkedDigest(0)) && Chain(g, n, linked)
    ensures HashedWithin(MarkedDigest(0), g, ShortInputs(), ModuleNames())
  {
    forall m | m in g
      ensures |Buffer(MarkedDigest(0), g, m)| <= 30
    {
      ChainShort(g, n, linked, m);
    }
    ChainNamed(g, n, linked);
    ShortHashed(g);
  }

  lemma ChainNamed(g: Imports, n: Names, linked: bool)
    requires Chain(g, n, linked)
    ensures Over(g, ModuleNames())
  {
  }

  lemma IsVersion(prog: Program, n: Names, linked: bool, edited: bool, sources: map<ModId, Str>)
    requires ValidProgram(prog) && Chain(prog.imports, n, linked) && prog.source == sources
    requires forall m | m in prog.suppressedOpts :: prog.suppressedOpts[m] == []
    requires sources[n.c] == (if linked then n.b else []) && sources[n.x] == TextOfX(edited)
    requires sources[n.a] == [] && sources[n.b] == []
    ensures Version(prog, n, linked, edited)
  {
  }

  lemma Versions(n: Names) returns (first: Program, second: Program, third: Program)
    requires Differ(n)
    ensures Version(first, n, true, false) && Version(second, n, false, false) && Version(third, n, false, true)
    ensures Covers(History(n), first) && Covers(History(n), second) && Covers(History(n), third)
    ensures third.imports == second.imports
  {
    HistoryValid(n);
    var g1 := ChainGraph(n, true);
    var g2 := ChainGraph(n, false);
    first := VersionOf(g1, n, true, false);
    second := VersionOf(g2, n, false, false);
    third := VersionOf(g2, n, false, true);
  }

  // What checking a version yields.

  lemma CheckLeaf(n: Names, u: Unit, env: map<ModId, Hash>)
    requires u.direct == {}
    ensures Reexport(n)(u, env) == Outcome([3] + u.source, [], {})
  {
  }

  lemma CheckA(n: Names, u: Unit, env: map<ModId, Hash>)
    requires Differ(n) && u.id == n.a && u.direct == {n.c} && n.c in env
    ensures Reexport(n)(u, env) == Outcome([0], [], if env[n.c] == [1] then {n.b} else {})
  {
  }

  lemma CheckB(n: Names, u: Unit, env: map<ModId, Hash>)
    requires Differ(n) && u.direct == {n.x} && n.x in env
    ensures Reexport(n)(u, env) == Outcome([2] + env[n.x], [], {})
  {
  }

  lemma CheckC(n: Names, u: Unit, env: map<ModId, Hash>)
    requires Differ(n) && u.direct == {n.b}
    ensures Reexport(n)(u, env) == Outcome([1], [], {})
  {
  }

  function HashOfX(edited: bool): Hash {
    [3] + TextOfX(edited)
  }

  function HashOfB(edited: bool): Hash {
    [2] + HashOfX(edited)
  }

  /** The interfaces of a version. */
  ghost predicate ChainIfaces(prog: Program, n: Names, linked: bool, edited: bool, ifaces: map<ModId, Hash>) {
    && ifaces.Keys == prog.imports.Keys && n.a in ifaces && n.b in ifaces && n.c in ifaces && n.x in ifaces
    && ifaces[n.a] == [0] && ifaces[n.b] == HashOfB(edited)
    && ifaces[n.c] == (if linked then [1] else [3]) && ifaces[n.x] == HashOfX(edited)
  }

  lemma VisibleDirect(prog: Program, m: ModId, ifaces: map<ModId, Hash>)
    requires ValidProgram(prog) && m in prog.imports && ifaces.Keys == prog.imports.Keys
    ensures forall d | d in prog.imports[m] ::
              d in Visible(prog.imports, m, ifaces) && Visible(prog.imports, m, ifaces)[d] == ifaces[d]
  {
    ClosureUnfold(prog.imports, m);
  }

  lemma ChainChecked(prog: Program, n: Names, linked: bool, edited: bool, ifaces: map<ModId, Hash>, m: ModId)
    requires Version(prog, n, linked, edited) && ChainIfaces(prog, n, linked, edited, ifaces) && m in prog.imports
    ensures Recheck(Reexport(n), prog, m, ifaces)
            == Outcome(ifaces[m], [], if m == n.a && linked then {n.b} else {})
  {
    VisibleDirect(prog, m, ifaces);
    var u, env := UnitOf(prog, m), Visible(prog.imports, m, ifaces);
    if m == n.a {
      CheckA(n, u, env);
    } else if m == n.b {
      CheckB(n, u, env);
    } else if m == n.c && linked {
      CheckC(n, u, env);
    } else {
      CheckLeaf(n, u, env);
    }
  }

  lemma ChainSettled(prog: Program, n: Names, linked: bool, edited: bool, ifaces: map<ModId, Hash>)
    requires Version(prog, n, linked, edited) && ChainIfaces(prog, n, linked, edited, ifaces)
    ensures forall m | m in prog.imports :: Settled(Reexport(n), prog, m, ifaces)
    ensures Consistent(Reexport(n), prog, Outcomes(Reexport(n), prog, ifaces))
    ensures Ifaces(Outcomes(Reexport(n), prog, ifaces)) == ifaces
  {
    forall m | m in prog.imports
      ensures Recheck(Reexport(n), prog, m, ifaces).iface == ifaces[m]
    {
      ChainChecked(prog, n, linked, edited, ifaces, m);
    }
    AllSettled(Reexport(n), prog, ifaces);
  }

  /** The outcomes of checking everything with these interfaces. */
  ghost function Outcomes(check: Checker, prog: Program, ifaces: map<ModId, Hash>): map<ModId, Outcome>
    requires ValidProgram(prog)
  {
    map m | m in prog.imports :: Recheck(check, prog, m, ifaces)
  }

  lemma AllSettled(check: Checker, prog: Program, ifaces: map<ModId, Hash>)
    requires ValidProgram(prog) && ifaces.Keys == prog.imports.Keys
    requires forall m | m in prog.imports :: Recheck(check, prog, m, ifaces).iface == ifaces[m]
    ensures forall m | m in prog.imports :: Settled(check, prog, m, ifaces)
    ensures Consistent(check, prog, Outcomes(check, prog, ifaces)) && Ifaces(Outcomes(check, prog, ifaces)) == ifaces
  {
    assert Ifaces(Outcomes(check, prog, ifaces)) == ifaces;
  }

  lemma IfacesOf(prog: Program, n: Names, linked: bool, edited: bool) returns (ifaces: map<ModId, Hash>)
    requires Version(prog, n, linked, edited)
    ensures ChainIfaces(prog, n, linked, edited, ifaces)
  {
    ifaces := map[n.a := [0], n.b := HashOfB(edited), n.c := if linked then [1] else [3], n.x := HashOfX(edited)];
  }

  // What the builds store.

  /** An entry lists the dependencies of the state, then those that were found. */
  lemma EntryFields(st: State, o: Outcome, hashes: map<ModId, Hash>, tail: seq<ModId>)
    requires tail == Sorted(o.indirect - ToSet(st.dependencies))
    ensures var e := Entry(st, o, hashes);
            && e.dependencies == st.dependencies + tail && e.depHashes == HashesOf(st.dependencies + tail, hashes)
            && e.priorities == Marked(st.priorities, o.indirect - ToSet(st.dependencies))
            && e.source == st.source && e.suppressedOpts == st.suppressedOpts && e.transHash == st.transHash
            && e.iface == o.iface && e.errorLines == o.errors
  {
  }

  /** An entry for a that lists c and, as an indirect dependency, b. */
  ghost predicate EntryOfA(e: Meta, n: Names, cHash: Hash) {
    && e.dependencies == [n.c, n.b] && e.priorities == map[n.b := PRI_INDIRECT]
    && e.depHashes == map[n.c := cHash, n.b := HashOfB(false)]
    && e.source == [] && e.suppressedOpts == [] && e.iface == [0] && e.errorLines == []
  }

  ghost predicate EntryOfB(e: Meta, n: Names, edited: bool) {
    && e.dependencies == [n.x] && e.priorities == map[] && e.depHashes == map[n.x := HashOfX(edited)]
    && e.source == [] && e.suppressedOpts == [] && e.iface == HashOfB(edited) && e.errorLines == []
  }

  ghost predicate EntryOfLeaf(e: Meta, source: Str) {
    && e.dependencies == [] && e.priorities == map[] && e.depHashes == map[]
    && e.source == source && e.suppressedOpts == [] && e.iface == [3] + source && e.errorLines == []
  }

  lemma NothingFound(st: State, o: Outcome, hashes: map<ModId, Hash>)
    requires o.indirect == {}
    ensures var e := Entry(st, o, hashes);
            && e.dependencies == st.dependencies && e.depHashes == HashesOf(st.dependencies, hashes)
            && e.priorities == st.priorities
            && e.source == st.source && e.suppressedOpts == st.suppressedOpts && e.transHash == st.transHash
            && e.iface == o.iface && e.errorLines == o.errors
  {
    assert o.indirect - ToSet(st.dependencies) == {};
    EntryFields(st, o, hashes, []);
    assert st.dependencies + [] == st.dependencies;
  }

  lemma HashesOfOne(x: ModId, hashes: map<ModId, Hash>)
    requires x in hashes
    ensures HashesOf([x], hashes) == map[x := hashes[x]]
  {
  }

  lemma HashesOfTwo(b: ModId, c: ModId, hashes: map<ModId, Hash>)
    requires b != c && b in hashes && c in hashes
    ensures HashesOf([c, b], hashes) == map[c := hashes[c], b := hashes[b]]
  {
  }

  lemma MarkedOne(b: ModId)
    ensures Marked(map[], {b}) == map[b := PRI_INDIRECT]
  {
  }

  /** The first build finds b. */
  lemma FirstEntryOfA(n: Names, st: State, ifaces: map<ModId, Hash>, e: Meta)
    requires Differ(n) && st.dependencies == [n.c] && st.priorities == map[]
    requires st.source == [] && st.suppressedOpts == [] && e == Entry(st, Outcome([0], [], {n.b}), ifaces)
    requires n.b in ifaces && n.c in ifaces && ifaces[n.b] == HashOfB(false) && ifaces[n.c] == [1]
    ensures EntryOfA(e, n, [1])
  {
    var o := Outcome([0], [], {n.b});
    assert o.indirect - ToSet(st.dependencies) == {n.b};
    SortedUnique([n.b], {n.b});
    EntryFields(st, o, ifaces, [n.b]);
    assert [n.c] + [n.b] == [n.c, n.b];
    HashesOfTwo(n.b, n.c, ifaces);
    MarkedOne(n.b);
  }

  /** The second does not, but keeps it. */
  lemma SecondEntryOfA(n: Names, st: State, ifaces: map<ModId, Hash>, e: Meta)
    requires Differ(n) && st.dependencies == [n.c, n.b] && st.priorities == map[n.b := PRI_INDIRECT]
    requires st.source == [] && st.suppressedOpts == [] && e == Entry(st, Outcome([0], [], {}), ifaces)
    requires n.b in ifaces && n.c in ifaces && ifaces[n.b] == HashOfB(false) && ifaces[n.c] == [3]
    ensures EntryOfA(e, n, [3]) && e.transHash == st.transHash
  {
    NothingFound(st, Outcome([0], [], {}), ifaces);
    HashesOfTwo(n.b, n.c, ifaces);
  }

  lemma LinkEntryOfB(n: Names, edited: bool, st: State, ifaces: map<ModId, Hash>, e: Meta)
    requires st.dependencies == [n.x] && st.priorities == map[] && st.source == [] && st.suppressedOpts == []
    requires n.x in ifaces && ifaces[n.x] == HashOfX(edited) && e == Entry(st, Outcome(HashOfB(edited), [], {}), ifaces)
    ensures EntryOfB(e, n, edited) && e.transHash == st.transHash
  {
    NothingFound(st, Outcome(HashOfB(edited), [], {}), ifaces);
    HashesOfOne(n.x, ifaces);
  }

  lemma LeafEntry(st: State, ifaces: map<ModId, Hash>, e: Meta)
    requires st.dependencies == [] && st.priorities == map[] && st.suppressedOpts == []
    requires e == Entry(st, Outcome([3] + st.source, [], {}), ifaces)
    ensures EntryOfLeaf(e, st.source) && e.transHash == st.transHash
  {
    NothingFound(st, Outcome([3] + st.source, [], {}), ifaces);
  }

  lemma ParsedLink(prog: Program, m: ModId, d: ModId)
    requires ValidProgram(prog) && m in prog.imports && prog.imports[m] == {d}
    ensures Sorted(prog.imports[m]) == [d] && Describes(prog, m, ParsedState(prog, m, [d]))
  {
    SortedUnique([d], {d});
    ParsedDescribes(prog, m, [d]);
  }

  lemma ParsedLeaf(prog: Program, m: ModId)
    requires ValidProgram(prog) && m in prog.imports && prog.imports[m] == {}
    ensures Sorted(prog.imports[m]) == [] && Describes(prog, m, ParsedState(prog, m, []))
  {
    SortedUnique([], {});
    ParsedDescribes(prog, m, []);
  }

  lemma IfacesAgree(ifaces: map<ModId, Hash>, s: set<ModId>)
    requires s <= ifaces.Keys
    ensures AgreeOn(ifaces, ifaces, s)
  {
  }

  /** What a check stores, with these interfaces, is a genuine entry. */
  lemma Stored(s: Setting, prog: Program, m: ModId, st: State, ifaces: map<ModId, Hash>) returns (e: Meta)
    requires ValidSetting(s) && Covers(s, prog) && Describes(prog, m, st)
    requires Settled(s.check, prog, m, ifaces)
    ensures e == Entry(st, Recheck(s.check, prog, m, ifaces), ifaces) && StoreOk(s, map[m := e])
  {
    e := Entry(st, Recheck(s.check, prog, m, ifaces), ifaces);
    IfacesAgree(ifaces, Closure(prog.imports, m) - {m});
    WrittenEntryOk(s, prog, m, st, ifaces, ifaces);
    OneEntry(s, m, e);
  }

  lemma OneEntry(s: Setting, m: ModId, e: Meta)
    requires EntryOk(s, m, e)
    ensures StoreOk(s, map[m := e])
  {
  }

  /** The first build parses everything. */
  lemma FirstBuild(n: Names, first: Program, ifaces: map<ModId, Hash>) returns (e: Meta, eb: Meta, ex: Meta)
    requires ValidSetting(History(n)) && Covers(History(n), first) && Version(first, n, true, false)
    requires ChainIfaces(first, n, true, false, ifaces)
    ensures e == Entry(LoadModule(first, map[], n.a), Recheck(Reexport(n), first, n.a, ifaces), ifaces)
    ensures n.b in Recheck(Reexport(n), first, n.a, ifaces).indirect
    ensures StoreOk(History(n), map[n.a := e]) && EntryOfA(e, n, [1])
    ensures StoreOk(History(n), map[n.b := eb]) && EntryOfB(eb, n, false)
    ensures StoreOk(History(n), map[n.x := ex]) && EntryOfLeaf(ex, TextOfX(false))
  {
    ChainSettled(first, n, true, false, ifaces);
    e := FirstOfA(n, first, ifaces);
    eb := FirstOfB(n, first, ifaces);
    ex := LeafStored(n, first, n.x, ifaces);
  }

  lemma FirstOfA(n: Names, first: Program, ifaces: map<ModId, Hash>) returns (e: Meta)
    requires ValidSetting(History(n)) && Covers(History(n), first) && Version(first, n, true, false)
    requires ChainIfaces(first, n, true, false, ifaces) && Settled(Reexport(n), first, n.a, ifaces)
    ensures e == Entry(LoadModule(first, map[], n.a), Recheck(Reexport(n), first, n.a, ifaces), ifaces)
    ensures n.b in Recheck(Reexport(n), first, n.a, ifaces).indirect
    ensures StoreOk(History(n), map[n.a := e]) && EntryOfA(e, n, [1])
  {
    ParsedLink(first, n.a, n.c);
    var st := LoadModule(first, map[], n.a);
    assert st == ParsedState(first, n.a, [n.c]);
    ChainChecked(first, n, true, false, ifaces, n.a);
    e := Stored(History(n), first, n.a, st, ifaces);
    FirstEntryOfA(n, st, ifaces, e);
  }

  lemma FirstOfB(n: Names, first: Program, ifaces: map<ModId, Hash>) returns (e: Meta)
    requires ValidSetting(History(n)) && Covers(History(n), first) && Version(first, n, true, false)
    requires ChainIfaces(first, n, true, false, ifaces) && Settled(Reexport(n), first, n.b, ifaces)
    ensures StoreOk(History(n), map[n.b := e]) && EntryOfB(e, n, false)
  {
    ParsedLink(first, n.b, n.x);
    var st := ParsedState(first, n.b, [n.x]);
    ChainChecked(first, n, true, false, ifaces, n.b);
    e := Stored(History(n), first, n.b, st, ifaces);
    LinkEntryOfB(n, false, st, ifaces, e);
  }

  lemma LeafStored(n: Names, prog: Program, m: ModId, ifaces: map<ModId, Hash>) returns (e: Meta)
    requires ValidSetting(History(n)) && Covers(History(n), prog)
    requires m in prog.imports && prog.imports[m] == {} && prog.suppressedOpts[m] == []
    requires Settled(Reexport(n), prog, m, ifaces)
    ensures StoreOk(History(n), map[m := e]) && EntryOfLeaf(e, prog.source[m]) && e.transHash == prog.transHash[m]
  {
    ParsedLeaf(prog, m);
    var st := ParsedState(prog, m, []);
    CheckLeaf(n, UnitOf(prog, m), Visible(prog.imports, m, ifaces));
    e := Stored(History(n), prog, m, st, ifaces);
    LeafEntry(st, ifaces, e);
  }

  lemma LoadsUsable(prog: Program, store: map<ModId, Meta>, m: ModId)
    requires ValidProgram(prog) && m in prog.imports && m in store
    requires StateOk(CachedState(prog, m, store[m])) && Describes(prog, m, CachedState(prog, m, store[m]))
    ensures LoadModule(prog, store, m) == CachedState(prog, m, store[m])
    ensures Loaded(prog, m, CachedState(prog, m, store[m])) && IsFresh(CachedState(prog, m, store[m]))
  {
    ListOkIff(CachedState(prog, m, store[m]));
  }

  /** A state loaded from an entry that lists b still describes a. */
  lemma LoadsA(n: Names, prog: Program, edited: bool, store: map<ModId, Meta>, cHash: Hash)
    requires Version(prog, n, false, edited) && n.a in store && EntryOfA(store[n.a], n, cHash)
    ensures LoadModule(prog, store, n.a) == CachedState(prog, n.a, store[n.a])
    ensures Loaded(prog, n.a, CachedState(prog, n.a, store[n.a])) && IsFresh(CachedState(prog, n.a, store[n.a]))
  {
    var e := store[n.a];
    assert ToSet(e.dependencies) == {n.c, n.b};
    assert DirectOf(e.dependencies, e.priorities) == {n.c};
    LoadsUsable(prog, store, n.a);
  }

  lemma LoadsB(n: Names, prog: Program, edited: bool, store: map<ModId, Meta>)
    requires Version(prog, n, false, edited) && n.b in store && EntryOfB(store[n.b], n, false)
    ensures LoadModule(prog, store, n.b) == CachedState(prog, n.b, store[n.b])
    ensures Loaded(prog, n.b, CachedState(prog, n.b, store[n.b])) && IsFresh(CachedState(prog, n.b, store[n.b]))
  {
    var e := store[n.b];
    assert ToSet(e.dependencies) == {n.x};
    assert DirectOf(e.dependencies, e.priorities) == {n.x};
    LoadsUsable(prog, store, n.b);
  }

  lemma LoadsC(n: Names, prog: Program, edited: bool, store: map<ModId, Meta>)
    requires Version(prog, n, false, edited) && n.c in store && EntryOfLeaf(store[n.c], [])
    ensures LoadModule(prog, store, n.c) == CachedState(prog, n.c, store[n.c])
    ensures Loaded(prog, n.c, CachedState(prog, n.c, store[n.c])) && IsFresh(CachedState(prog, n.c, store[n.c]))
  {
    var e := store[n.c];
    assert ToSet(e.dependencies) == {};
    assert DirectOf(e.dependencies, e.priorities) == {};
  }

  /** The edited module is parsed. */
  lemma LoadsX(n: Names, prog: Program, store: map<ModId, Meta>)
    requires Version(prog, n, false, true) && n.x in store && EntryOfLeaf(store[n.x], TextOfX(false))
    ensures LoadModule(prog, store, n.x).meta == None && Loaded(prog, n.x, LoadModule(prog, store, n.x))
  {
    ParsedLeaf(prog, n.x);
    assert !Usable(prog, n.x, store[n.x]);
  }

  /** In the second build the interface of c has changed, so that a is checked again, but not parsed again. */
  lemma SecondBuild(n: Names, second: Program, store: map<ModId, Meta>, ifaces: map<ModId, Hash>)
    returns (st: State, e: Meta, ec: Meta)
    requires ValidSetting(History(n)) && Covers(History(n), second) && Version(second, n, false, false)
    requires ChainIfaces(second, n, false, false, ifaces)
    requires n.a in store && EntryOfA(store[n.a], n, [1])
    ensures st == LoadModule(second, store, n.a) && st.meta == Some(store[n.a])
    ensures n.c in st.depHashes && ifaces[n.c] != st.depHashes[n.c]
    ensures e == Entry(st, Recheck(Reexport(n), second, n.a, ifaces), ifaces) && e.transHash == second.transHash[n.a]
    ensures StoreOk(History(n), map[n.a := e]) && EntryOfA(e, n, [3])
    ensures StoreOk(History(n), map[n.c := ec]) && EntryOfLeaf(ec, []) && ec.transHash == second.transHash[n.c]
  {
    ChainSettled(second, n, false, false, ifaces);
    LoadsA(n, second, false, store, [1]);
    st := LoadModule(second, store, n.a);
    assert st == CachedState(second, n.a, store[n.a]);
    e := SecondOfA(n, second, st, ifaces);
    ec := LeafStored(n, second, n.c, ifaces);
  }

  lemma SecondOfA(n: Names, second: Program, st: State, ifaces: map<ModId, Hash>) returns (e: Meta)
    requires ValidSetting(History(n)) && Covers(History(n), second) && Version(second, n, false, false)
    requires ChainIfaces(second, n, false, false, ifaces) && Settled(Reexport(n), second, n.a, ifaces)
    requires Describes(second, n.a, st) && st.dependencies == [n.c, n.b] && st.priorities == map[n.b := PRI_INDIRECT]
    ensures e == Entry(st, Recheck(Reexport(n), second, n.a, ifaces), ifaces) && e.transHash == second.transHash[n.a]
    ensures StoreOk(History(n), map[n.a := e]) && EntryOfA(e, n, [3])
  {
    ChainChecked(second, n, false, false, ifaces, n.a);
    e := Stored(History(n), second, n.a, st, ifaces);
    SecondEntryOfA(n, st, ifaces, e);
  }

  // The third build.

  /** Each module is its own unit: a is unit 0, b unit 1, c unit 2 and x unit 3. */
  ghost predicate Units(t: Table, n: Names) {
    && (forall i: SccId :: i in t.members <==> i < 4) && (forall i: SccId :: i in t.deps <==> i < 4)
    && t.members[0] == {n.a} && t.members[1] == {n.b} && t.members[2] == {n.c} && t.members[3] == {n.x}
    && (forall m :: m in t.of <==> m == n.a || m == n.b || m == n.c || m == n.x)
    && t.of[n.a] == 0 && t.of[n.b] == 1 && t.of[n.c] == 2 && t.of[n.x] == 3
    && t.deps[0] == {2} && t.deps[1] == {3} && t.deps[2] == {} && t.deps[3] == {}
  }

  lemma UnitsExist(n: Names) returns (t: Table)
    requires Differ(n)
    ensures Units(t, n)
  {
    t := Table(map[0 := {n.a}, 1 := {n.b}, 2 := {n.c}, 3 := {n.x}], map[n.a := 0, n.b := 1, n.c := 2, n.x := 3],
               map[0 := {2}, 1 := {3}, 2 := {}, 3 := {}]);
  }

  /** The unit of one module, with the units of what it imports. */
  ghost predicate OwnUnit(g: Imports, t: Table, m: ModId)
    requires m in g
  {
    && m in t.of && t.of[m] in t.members && t.of[m] in t.deps && t.members[t.of[m]] == {m}
    && Component(g, m) == {m}
    && t.deps[t.of[m]] == set d | d in g[m] && d in t.of :: t.of[d]
  }

  lemma OwnUnitDeps(g: Imports, t: Table, m: ModId)
    requires ImportGraph(g) && m in g && t.of.Keys == g.Keys
    requires forall x | x in g :: OwnUnit(g, t, x)
    ensures OwnUnit(g, t, m) && UnitDeps(g, {m}, t.of) - {t.of[m]} == t.deps[t.of[m]]
  {
    forall d | d in g[m]
      ensures d in g && t.of[d] != t.of[m]
    {
      assert OwnUnit(g, t, d) && OwnUnit(g, t, m);
    }
    assert OwnUnit(g, t, m);
  }

  /** Where each module is its own component, units of one module are a valid table. */
  lemma OwnUnits(g: Imports, t: Table)
    requires ImportGraph(g) && t.of.Keys == g.Keys && t.members.Keys == t.deps.Keys
    requires forall m | m in g :: OwnUnit(g, t, m)
    requires forall i | i in t.members :: exists m :: m in g && t.of[m] == i
    ensures ValidTable(g, t)
  {
    forall i | i in t.members
      ensures t.members[i] != {} && t.deps[i] == UnitDeps(g, t.members[i], t.of) - {i}
      ensures forall m | m in t.members[i] :: m in t.of && t.of[m] == i
    {
      var m :| m in g && t.of[m] == i;
      assert OwnUnit(g, t, m);
      OwnUnitDeps(g, t, m);
    }
    forall m | m in g
      ensures t.of[m] in t.members && t.members[t.of[m]] == Component(g, m) == {m}
    {
      assert OwnUnit(g, t, m);
    }
  }

  lemma ChainUnit(g: Imports, n: Names, t: Table, m: ModId)
    requires Chain(g, n, false) && Units(t, n) && m in g
    ensures OwnUnit(g, t, m)
  {
    ChainOwn(g, n, false, m);
    assert t.deps[t.of[m]] == set d | d in g[m] && d in t.of :: t.of[d];
  }

  lemma ChainGrouped(g: Imports, n: Names, t: Table)
    requires Chain(g, n, false) && Units(t, n)
    ensures ValidTable(g, t)
  {
    forall m | m in g
      ensures OwnUnit(g, t, m)
    {
      ChainUnit(g, n, t, m);
    }
    UnitsUsed(g, n, t);
    OwnUnits(g, t);
  }

  lemma UnitsUsed(g: Imports, n: Names, t: Table)
    requires Chain(g, n, false) && Units(t, n)
    ensures t.of.Keys == g.Keys && t.members.Keys == t.deps.Keys
    ensures forall i | i in t.members :: exists m :: m in g && t.of[m] == i
  {
    forall i | i in t.members
      ensures exists m :: m in g && t.of[m] == i
    {
      var m := if i == 0 then n.a else if i == 1 then n.b else if i == 2 then n.c else n.x;
      assert m in g && t.of[m] == i;
    }
  }

  /** The rounds: c is fresh, while x is being checked; then a is fresh; then b, which imports x, is found stale. */
  lemma FourRounds(deps: Graph<SccId>, test: Test) returns (run: seq<Moment>)
    requires forall i: SccId :: i in deps <==> i < 4
    requires deps[0] == {2} && deps[1] == {3} && deps[2] == {} && deps[3] == {}
    requires test(2, {}) && !test(3, {}) && test(0, {2}) && !test(1, {0, 2, 3})
    ensures |run| == 4 && IsRun(deps, run) && AllAnswered(test, run)
    ensures run[1].completed == {2} && 0 in run[1].ready && 0 in run[1].cached && !FinalFor(run, 1, 0, 1)
    ensures NoOtherMoment(deps, test, run, 1)
  {
    var m0 := Moment({}, {}, {2, 3}, {2});
    var m1 := Moment({2}, {3}, {0}, {0});
    var m2 := Moment({0, 2}, {3}, {}, {});
    var m3 := Moment({0, 2, 3}, {}, {1}, {});
    run := [m0, m1, m2, m3];
    assert FirstRound(deps, m0);
    RoundOne(deps, m0, m1);
    RoundTwo(deps, m1, m2);
    RoundThree(deps, m2, m3);
    assert 1 in run[3].ready && 1 !in run[3].cached;
    forall other: seq<Moment> | IsRun(deps, other) && AllAnswered(test, other) && |other| > 1
      ensures other[1] == m1
    {
      TwoRounds(deps, test, other);
    }
  }

  /** Every run is at this moment then, in whatever order units finish. */
  ghost predicate NoOtherMoment(deps: Graph<SccId>, test: Test, run: seq<Moment>, k: nat)
    requires k < |run|
  {
    forall other: seq<Moment> | IsRun(deps, other) && AllAnswered(test, other) && |other| > k :: other[k] == run[k]
  }

  lemma TwoRounds(deps: Graph<SccId>, test: Test, run: seq<Moment>)
    requires forall i: SccId :: i in deps <==> i < 4
    requires deps[0] == {2} && deps[1] == {3} && deps[2] == {} && deps[3] == {}
    requires test(2, {}) && !test(3, {}) && test(0, {2})
    requires IsRun(deps, run) && AllAnswered(test, run) && |run| > 1
    ensures run[1] == Moment({2}, {3}, {0}, {0})
  {
    assert AnsweredAt(test, run[0]) && AnsweredAt(test, run[1]);
    assert run[0].ready == {2, 3} && run[0].cached == {2};
    RoundAt(deps, run, 0);
    SecondRound(deps, test, run[0], run[1]);
  }

  lemma SecondRound(deps: Graph<SccId>, test: Test, m: Moment, m1: Moment)
    requires forall i: SccId :: i in deps <==> i < 4
    requires deps[0] == {2} && deps[1] == {3} && deps[2] == {} && deps[3] == {} && test(0, {2})
    requires m == Moment({}, {}, {2, 3}, {2}) && NextRound(deps, m, m1) && AnsweredAt(test, m1)
    ensures m1 == Moment({2}, {3}, {0}, {0})
  {
    assert m1.completed - m.completed == {2};
    assert m1.completed == {2};
    assert m1.pending == {3};
    assert m1.ready == {0};
    assert m1.cached == {0};
  }

  lemma RoundOne(deps: Graph<SccId>, m: Moment, m1: Moment)
    requires forall i: SccId :: i in deps <==> i < 4
    requires deps[0] == {2} && deps[1] == {3} && deps[2] == {} && deps[3] == {}
    requires m == Moment({}, {}, {2, 3}, {2}) && m1 == Moment({2}, {3}, {0}, {0})
    ensures NextRound(deps, m, m1)
  {
    assert m1.completed - m.completed == {2};
    assert NowReady(deps, m.completed, m1.completed) == {0};
  }

  lemma RoundTwo(deps: Graph<SccId>, m: Moment, m1: Moment)
    requires forall i: SccId :: i in deps <==> i < 4
    requires deps[0] == {2} && deps[1] == {3} && deps[2] == {} && deps[3] == {}
    requires m == Moment({2}, {3}, {0}, {0}) && m1 == Moment({0, 2}, {3}, {}, {})
    ensures NextRound(deps, m, m1)
  {
    assert m1.completed - m.completed == {0};
    assert NowReady(deps, m.completed, m1.completed) == {};
  }

  lemma RoundThree(deps: Graph<SccId>, m: Moment, m1: Moment)
    requires forall i: SccId :: i in deps <==> i < 4
    requires deps[0] == {2} && deps[1] == {3} && deps[2] == {} && deps[3] == {}
    requires m == Moment({0, 2}, {3}, {}, {}) && m1 == Moment({0, 2, 3}, {}, {1}, {})
    ensures NextRound(deps, m, m1)
  {
    assert m1.completed - m.completed == {3};
    assert NowReady(deps, m.completed, m1.completed) == {1};
  }

  /** What is in the graph at the beginning of a round. */
  lemma GraphThen(imports: Imports, t: Table, graph: map<ModId, State>, outcomes: map<ModId, Outcome>,
      completed: set<SccId>, m: ModId)
    requires ValidTable(imports, t) && m in imports && m in graph && m in outcomes
    ensures var now := GraphAt(t, graph, outcomes, completed);
            && now.Keys == graph.Keys
            && now[m] == if t.of[m] in completed then graph[m].(iface := outcomes[m].iface) else graph[m]
  {
    assert m in t.members[t.of[m]];
  }

  /** The states of the third build as they are loaded. */
  ghost predicate ThirdGraph(n: Names, prog: Program, store: map<ModId, Meta>, graph: map<ModId, State>)
    requires ValidProgram(prog)
  {
    && graph.Keys == prog.imports.Keys && n.a in graph && n.b in graph && n.c in graph && n.x in graph
    && n.a in store && n.b in store && n.c in store && n.x in store
    && graph[n.a] == CachedState(prog, n.a, store[n.a]) && EntryOfA(store[n.a], n, [3])
    && graph[n.b] == CachedState(prog, n.b, store[n.b]) && EntryOfB(store[n.b], n, false)
    && graph[n.c] == CachedState(prog, n.c, store[n.c]) && EntryOfLeaf(store[n.c], [])
    && graph[n.x].meta == None
    && store[n.a].transHash == prog.transHash[n.a] && store[n.c].transHash == prog.transHash[n.c]
  }

  lemma ThirdLoaded(n: Names, prog: Program, store: map<ModId, Meta>)
    requires Version(prog, n, false, true) && LeftBehind(n, prog, store)
    ensures ThirdGraph(n, prog, store, LoadAll(prog, store))
  {
    LoadsA(n, prog, true, store, [3]);
    LoadsB(n, prog, true, store);
    LoadsC(n, prog, true, store);
    LoadsX(n, prog, store);
  }

  lemma CIsFresh(n: Names, prog: Program, t: Table, store: map<ModId, Meta>, graph: map<ModId, State>,
      outcomes: map<ModId, Outcome>)
    requires ValidProgram(prog) && ValidTable(prog.imports, t) && Units(t, n) && outcomes.Keys == prog.imports.Keys
    requires ThirdGraph(n, prog, store, graph)
    ensures FreshTest(t, graph, outcomes)(2, {})
  {
    GraphThen(prog.imports, t, graph, outcomes, {}, n.c);
    assert FreshModule(t, GraphAt(t, graph, outcomes, {}), 2, n.c);
  }

  lemma XIsStale(n: Names, prog: Program, t: Table, store: map<ModId, Meta>, graph: map<ModId, State>,
      outcomes: map<ModId, Outcome>)
    requires ValidProgram(prog) && ValidTable(prog.imports, t) && Units(t, n) && outcomes.Keys == prog.imports.Keys
    requires ThirdGraph(n, prog, store, graph)
    ensures !FreshTest(t, graph, outcomes)(3, {})
  {
    GraphThen(prog.imports, t, graph, outcomes, {}, n.x);
    assert !FreshModule(t, GraphAt(t, graph, outcomes, {}), 3, n.x);
  }

  lemma AIsFresh(n: Names, prog: Program, t: Table, store: map<ModId, Meta>, graph: map<ModId, State>,
      outcomes: map<ModId, Outcome>)
    requires ValidProgram(prog) && ValidTable(prog.imports, t) && Units(t, n) && outcomes.Keys == prog.imports.Keys
    requires ThirdGraph(n, prog, store, graph) && outcomes[n.c].iface == [3] && Differ(n)
    ensures FreshTest(t, graph, outcomes)(0, {2})
    ensures n.b in GraphAt(t, graph, outcomes, {2}) && GraphAt(t, graph, outcomes, {2})[n.b].iface == HashOfB(false)
  {
    GraphThen(prog.imports, t, graph, outcomes, {2}, n.a);
    GraphThen(prog.imports, t, graph, outcomes, {2}, n.b);
    GraphThen(prog.imports, t, graph, outcomes, {2}, n.c);
    AMatches(n, t, GraphAt(t, graph, outcomes, {2}), store[n.a]);
  }

  lemma AMatches(n: Names, t: Table, now: map<ModId, State>, e: Meta)
    requires Differ(n) && Units(t, n) && n.a in now && n.b in now && n.c in now && EntryOfA(e, n, [3])
    requires IsFresh(now[n.a]) && now[n.a].depHashes == e.depHashes
             && now[n.a].transHash == now[n.a].meta.value.transHash
    requires now[n.b].iface == HashOfB(false) && now[n.c].iface == [3]
    ensures FreshUnit(t, now, 0)
  {
    assert FreshModule(t, now, 0, n.a);
  }

  lemma BIsStale(n: Names, prog: Program, t: Table, store: map<ModId, Meta>, graph: map<ModId, State>,
      outcomes: map<ModId, Outcome>)
    requires ValidProgram(prog) && ValidTable(prog.imports, t) && Units(t, n) && outcomes.Keys == prog.imports.Keys
    requires ThirdGraph(n, prog, store, graph) && outcomes[n.x].iface == HashOfX(true)
    ensures !FreshTest(t, graph, outcomes)(1, {0, 2, 3})
  {
    GraphThen(prog.imports, t, graph, outcomes, {0, 2, 3}, n.b);
    GraphThen(prog.imports, t, graph, outcomes, {0, 2, 3}, n.x);
    BDiffers(n, t, GraphAt(t, graph, outcomes, {0, 2, 3}), store[n.b]);
  }

  lemma BDiffers(n: Names, t: Table, now: map<ModId, State>, e: Meta)
    requires Units(t, n) && n.b in now && n.x in now && EntryOfB(e, n, false)
    requires now[n.b].depHashes == e.depHashes && now[n.x].iface == HashOfX(true)
    ensures !FreshUnit(t, now, 1)
  {
    HashesDiffer();
    assert !FreshModule(t, now, 1, n.b);
  }

  /** In the third build, the hash of d is compared for m before d is found stale, and then it changes. */
  ghost predicate ComparesUnfinished(s: Setting, prog: Program, store: map<ModId, Meta>, outcomes: map<ModId, Outcome>,
      t: Table, run: seq<Moment>, k: nat, i: SccId, m: ModId, d: ModId)
    requires ValidProgram(prog)
  {
    && Consistent(s.check, prog, outcomes) && ValidTable(prog.imports, t)
    && IsRun(t.deps, run) && AllAnswered(FreshTest(t, LoadAll(prog, store), outcomes), run)
    && k < |run| && NoOtherMoment(t.deps, FreshTest(t, LoadAll(prog, store), outcomes), run, k)
    && i in run[k].cached && i in t.members && m in t.members[i] && m in prog.imports
    && d in LoadModule(prog, store, m).depHashes && d in t.of && !FinalFor(run, k, i, t.of[d])
    && var now := GraphAt(t, LoadAll(prog, store), outcomes, run[k].completed);
       d in now && d in outcomes && now[d].iface != outcomes[d].iface
  }

  lemma ThirdBuild(n: Names, prog: Program, store: map<ModId, Meta>)
    returns (outcomes: map<ModId, Outcome>, t: Table, run: seq<Moment>)
    requires Version(prog, n, false, true) && ThirdGraph(n, prog, store, LoadAll(prog, store))
    ensures ComparesUnfinished(History(n), prog, store, outcomes, t, run, 1, 0, n.a, n.b)
    ensures NoErrors(outcomes) && ChainIfaces(prog, n, false, true, Ifaces(outcomes))
  {
    outcomes := ThirdOutcomes(n, prog);
    t := UnitsExist(n);
    ChainGrouped(prog.imports, n, t);
    run := ThirdRun(n, prog, store, LoadAll(prog, store), outcomes, t);
    HashesDiffer();
    ThirdShows(History(n), prog, store, outcomes, t, run, n.a, n.b);
  }

  lemma HashesDiffer()
    ensures HashOfX(true) != HashOfX(false) && HashOfB(true) != HashOfB(false)
  {
    assert HashOfX(true)[1] != HashOfX(false)[1] && HashOfB(true)[2] != HashOfB(false)[2];
  }

  lemma ThirdShows(s: Setting, prog: Program, store: map<ModId, Meta>, outcomes: map<ModId, Outcome>, t: Table,
      run: seq<Moment>, a: ModId, b: ModId)
    requires ValidProgram(prog) && Consistent(s.check, prog, outcomes) && ValidTable(prog.imports, t)
    requires |run| == 4 && IsRun(t.deps, run) && AllAnswered(FreshTest(t, LoadAll(prog, store), outcomes), run)
    requires run[1].completed == {2} && 0 in run[1].cached && !FinalFor(run, 1, 0, 1)
    requires NoOtherMoment(t.deps, FreshTest(t, LoadAll(prog, store), outcomes), run, 1)
    requires 0 in t.members && a in t.members[0] && a in prog.imports && b in t.of && t.of[b] == 1
    requires b in LoadModule(prog, store, a).depHashes && b in outcomes
    requires var now := GraphAt(t, LoadAll(prog, store), outcomes, {2}); b in now && now[b].iface != outcomes[b].iface
    ensures ComparesUnfinished(s, prog, store, outcomes, t, run, 1, 0, a, b)
  {
  }

  ghost predicate NoErrors(outcomes: map<ModId, Outcome>) {
    forall m | m in outcomes :: outcomes[m].errors == []
  }

  lemma ThirdOutcomes(n: Names, prog: Program) returns (outcomes: map<ModId, Outcome>)
    requires Version(prog, n, false, true)
    ensures Consistent(Reexport(n), prog, outcomes)
    ensures outcomes[n.b].iface == HashOfB(true) && outcomes[n.c].iface == [3] && outcomes[n.x].iface == HashOfX(true)
    ensures NoErrors(outcomes) && ChainIfaces(prog, n, false, true, Ifaces(outcomes))
  {
    var ifaces := IfacesOf(prog, n, false, true);
    ChainSettled(prog, n, false, true, ifaces);
    forall m | m in prog.imports
      ensures Recheck(Reexport(n), prog, m, ifaces).errors == []
    {
      ChainChecked(prog, n, false, true, ifaces, m);
    }
    outcomes := Outcomes(Reexport(n), prog, ifaces);
    assert ifaces[n.b] == outcomes[n.b].iface && ifaces[n.c] == outcomes[n.c].iface;
    assert ifaces[n.x] == outcomes[n.x].iface;
  }

  lemma ThirdRun(n: Names, prog: Program, store: map<ModId, Meta>, graph: map<ModId, State>,
      outcomes: map<ModId, Outcome>, t: Table) returns (run: seq<Moment>)
    requires ValidProgram(prog) && Differ(n) && ThirdGraph(n, prog, store, graph) && Units(t, n)
    requires ValidTable(prog.imports, t) && outcomes.Keys == prog.imports.Keys
    requires outcomes[n.c].iface == [3] && outcomes[n.x].iface == HashOfX(true)
    ensures |run| == 4 && IsRun(t.deps, run) && AllAnswered(FreshTest(t, graph, outcomes), run)
    ensures run[1].completed == {2} && 0 in run[1].cached && !FinalFor(run, 1, 0, 1)
    ensures NoOtherMoment(t.deps, FreshTest(t, graph, outcomes), run, 1)
    ensures n.b in GraphAt(t, graph, outcomes, {2}) && GraphAt(t, graph, outcomes, {2})[n.b].iface == HashOfB(false)
  {
    CIsFresh(n, prog, t, store, graph, outcomes);
    XIsStale(n, prog, t, store, graph, outcomes);
    AIsFresh(n, prog, t, store, graph, outcomes);
    BIsStale(n, prog, t, store, graph, outcomes);
    run := FourRounds(t.deps, FreshTest(t, graph, outcomes));
  }

  /** In the first build, checking m reads d, which is recorded in the entry that is stored. */
  ghost predicate RecordsRead(s: Setting, prog: Program, ifaces: map<ModId, Hash>, m: ModId, d: ModId, e: Meta)
    requires ValidProgram(prog)
  {
    && m in prog.imports && Settled(s.check, prog, m, ifaces)
    && d in Recheck(s.check, prog, m, ifaces).indirect
    && e == Entry(LoadModule(prog, map[], m), Recheck(s.check, prog, m, ifaces), ifaces)
  }

  /** In the second, m is loaded from this entry, and checked again because of a changed hash. */
  ghost predicate ChecksAgain(s: Setting, prog: Program, store: map<ModId, Meta>, ifaces: map<ModId, Hash>, m: ModId,
      x: ModId, e: Meta)
    requires ValidProgram(prog)
  {
    && m in prog.imports && Settled(s.check, prog, m, ifaces) && m in store
    && var st := LoadModule(prog, store, m);
    && st.meta == Some(store[m]) && x in st.depHashes && x in ifaces && st.depHashes[x] != ifaces[x]
    && e == Entry(st, Recheck(s.check, prog, m, ifaces), ifaces)
  }

  /**
   * In the first build m reaches d and records it as an indirect dependency. In the second it no
   * longer does; it is checked again, because an interface changed, but not parsed again, and keeps d
   * in its list. Before the third, a module that d imports is edited. While that is being checked, m is
   * decided, whatever the order in which units finish: its equal import hash lets it be declared fresh,
   * although d, with whose old hash it was compared, has yet to be found stale and to get another
   * interface.
   */
  lemma ShortcutComparesUnfinished()
    returns (s: Setting, first: Program, ifaces0: map<ModId, Hash>, store1: map<ModId, Meta>,
             second: Program, ifaces1: map<ModId, Hash>, store2: map<ModId, Meta>,
             third: Program, outcomes: map<ModId, Outcome>, t: Table, run: seq<Moment>, k: nat, i: SccId,
             m: ModId, d: ModId, x: ModId)
    ensures ValidSetting(s) && Covers(s, first) && Covers(s, second) && Covers(s, third)
    ensures StoreOk(s, store1) && StoreOk(s, store2) && m in store1 && m in store2
    ensures RecordsRead(s, first, ifaces0, m, d, store1[m])
    ensures ChecksAgain(s, second, store1, ifaces1, m, x, store2[m])
    ensures ComparesUnfinished(s, third, store2, outcomes, t, run, k, i, m, d)
  {
    var n := Names([97], [98], [99], [120]);
    s, m, d, x, k, i := History(n), n.a, n.b, n.c, 1, 0;
    HistoryValid(n);
    first, second, third := Versions(n);
    ifaces0 := IfacesOf(first, n, true, false);
    ifaces1 := IfacesOf(second, n, false, false);
    store1, store2 := TwoBuilds(n, first, ifaces0, second, ifaces1);
    SameHashes(s, second, third);
    ThirdLoaded(n, third, store2);
    outcomes, t, run := ThirdBuild(n, third, store2);
  }

  /** Programs with the same imports have the same import hashes. */
  lemma SameHashes(s: Setting, prog: Program, prog1: Program)
    requires Covers(s, prog) && Covers(s, prog1) && prog.imports == prog1.imports
    ensures prog.transHash == prog1.transHash
  {
    forall m | m in prog.imports
      ensures prog.transHash[m] == prog1.transHash[m]
    {
      assert prog.transHash[m] == TransHash(s.digest, prog.imports, m);
    }
  }

  /** What the first two builds leave in the store. */
  ghost predicate LeftBehind(n: Names, prog: Program, store: map<ModId, Meta>) {
    && store.Keys == prog.imports.Keys && prog.transHash.Keys == prog.imports.Keys
    && n.a in store && n.b in store && n.c in store && n.x in store
    && EntryOfA(store[n.a], n, [3]) && EntryOfB(store[n.b], n, false)
    && EntryOfLeaf(store[n.c], []) && EntryOfLeaf(store[n.x], TextOfX(false))
    && store[n.a].transHash == prog.transHash[n.a] && store[n.c].transHash == prog.transHash[n.c]
  }

  lemma TwoBuilds(n: Names, first: Program, ifaces0: map<ModId, Hash>, second: Program, ifaces1: map<ModId, Hash>)
    returns (store1: map<ModId, Meta>, store2: map<ModId, Meta>)
    requires ValidSetting(History(n)) && Covers(History(n), first) && Covers(History(n), second)
    requires Version(first, n, true, false) && ChainIfaces(first, n, true, false, ifaces0)
    requires Version(second, n, false, false) && ChainIfaces(second, n, false, false, ifaces1)
    ensures StoreOk(History(n), store1) && StoreOk(History(n), store2) && n.a in store1
    ensures RecordsRead(History(n), first, ifaces0, n.a, n.b, store1[n.a])
    ensures LeftBehind(n, second, store2)
    ensures ChecksAgain(History(n), second, store1, ifaces1, n.a, n.c, store2[n.a])
  {
    ChainSettled(first, n, true, false, ifaces0);
    ChainSettled(second, n, false, false, ifaces1);
    var ea, eb, ex := FirstBuild(n, first, ifaces0);
    store1 := map[n.a := ea];
    var st, ea1, ec := SecondBuild(n, second, store1, ifaces1);
    store2 := FourEntries(n.a, ea1, n.b, eb, n.c, ec, n.x, ex);
    FourOk(History(n), n.a, ea1, n.b, eb, n.c, ec, n.x, ex);
    ChainKeys(second.imports, n, false);
  }

  lemma FourEntries(a: ModId, ea: Meta, b: ModId, eb: Meta, c: ModId, ec: Meta, x: ModId, ex: Meta)
    returns (store: map<ModId, Meta>)
    requires a != b && a != c && a != x && b != c && b != x && c != x
    ensures store == map[a := ea, b := eb, c := ec, x := ex]
    ensures store.Keys == {a, b, c, x} && store[a] == ea && store[b] == eb && store[c] == ec && store[x] == ex
  {
    store := map[a := ea, b := eb, c := ec, x := ex];
  }

  lemma BothOk(s: Setting, store1: map<ModId, Meta>, store2: map<ModId, Meta>)
    requires StoreOk(s, store1) && StoreOk(s, store2)
    ensures StoreOk(s, store1 + store2)
  {
    var all := store1 + store2;
    forall m | m in all
      ensures EntryOk(s, m, all[m])
    {
      if m in store2 {
        assert EntryOk(s, m, store2[m]);
      } else {
        assert EntryOk(s, m, store1[m]);
      }
    }
  }

  lemma FourOk(s: Setting, a: ModId, ea: Meta, b: ModId, eb: Meta, c: ModId, ec: Meta, x: ModId, ex: Meta)
    requires a != b && a != c && a != x && b != c && b != x && c != x
    requires StoreOk(s, map[a := ea]) && StoreOk(s, map[b := eb])
    requires StoreOk(s, map[c := ec]) && StoreOk(s, map[x := ex])
    ensures StoreOk(s, map[a := ea, b := eb, c := ec, x := ex])
  {
    BothOk(s, map[a := ea], map[b := eb]);
    BothOk(s, map[c := ec], map[x := ex]);
    BothOk(s, map[a := ea] + map[b := eb], map[c := ec] + map[x := ex]);
    assert (map[a := ea] + map[b := eb]) + (map[c := ec] + map[x := ex]) == map[a := ea, b := eb, c := ec, x := ex];
  }

  lemma ChainKeys(g: Imports, n: Names, linked: bool)
    requires Chain(g, n, linked)
    ensures g.Keys == {n.a, n.b, n.c, n.x}
  {
  }

  // What the third build leaves.

  /** The entries of a and c are as before; b and x, found stale, have new ones. */
  ghost predicate LeftByThird(n: Names, prog: Program, store: map<ModId, Meta>, store1: map<ModId, Meta>) {
    && LeftBehind(n, prog, store) && store1.Keys == prog.imports.Keys
    && n.a in store1 && n.b in store1 && n.c in store1 && n.x in store1
    && store1[n.a] == store[n.a] && store1[n.c] == store[n.c]
    && EntryOfB(store1[n.b], n, true) && EntryOfLeaf(store1[n.x], TextOfX(true))
    && store1[n.b].transHash == prog.transHash[n.b] && store1[n.x].transHash == prog.transHash[n.x]
  }

  lemma NewEntryOfB(n: Names, prog: Program, store: map<ModId, Meta>, ifaces: map<ModId, Hash>) returns (e: Meta)
    requires ValidSetting(History(n)) && Covers(History(n), prog) && Version(prog, n, false, true)
    requires LeftBehind(n, prog, store) && ChainIfaces(prog, n, false, true, ifaces)
    ensures e == Entry(LoadModule(prog, store, n.b), Recheck(Reexport(n), prog, n.b, ifaces), ifaces)
    ensures StoreOk(History(n), map[n.b := e]) && EntryOfB(e, n, true) && e.transHash == prog.transHash[n.b]
  {
    LoadsB(n, prog, true, store);
    ChainSettled(prog, n, false, true, ifaces);
    ChainChecked(prog, n, false, true, ifaces, n.b);
    var st := LoadModule(prog, store, n.b);
    e := Stored(History(n), prog, n.b, st, ifaces);
    LinkEntryOfB(n, true, st, ifaces, e);
  }

  lemma ThirdStore(n: Names, prog: Program, store: map<ModId, Meta>, ifaces: map<ModId, Hash>)
    returns (store1: map<ModId, Meta>)
    requires ValidSetting(History(n)) && Covers(History(n), prog) && Version(prog, n, false, true)
    requires LeftBehind(n, prog, store) && StoreOk(History(n), store)
    requires ChainIfaces(prog, n, false, true, ifaces)
    ensures LeftByThird(n, prog, store, store1) && StoreOk(History(n), store1)
  {
    ChainSettled(prog, n, false, true, ifaces);
    var eb := NewEntryOfB(n, prog, store, ifaces);
    var ex := LeafStored(n, prog, n.x, ifaces);
    OneEntry(History(n), n.a, store[n.a]);
    OneEntry(History(n), n.c, store[n.c]);
    store1 := FourEntries(n.a, store[n.a], n.b, eb, n.c, store[n.c], n.x, ex);
    FourOk(History(n), n.a, store[n.a], n.b, eb, n.c, store[n.c], n.x, ex);
    ChainKeys(prog.imports, n, false);
  }

  lemma RecordedAs(prog: Program, m: ModId, st0: State, e: Meta, outcomes: map<ModId, Outcome>)
    requires ValidProgram(prog) && m in prog.imports && m in outcomes
    requires Usable(prog, m, e) && e.transHash == prog.transHash[m]
    requires e.iface == outcomes[m].iface && e.errorLines == outcomes[m].errors
    requires e.depHashes.Keys == ToSet(e.dependencies)
    requires forall d | d in e.depHashes && d in Closure(prog.imports, m) ::
               d in outcomes && e.depHashes[d] == outcomes[d].iface
    requires st0.dependencies == e.dependencies && st0.priorities == e.priorities
    ensures Recorded(prog, m, st0, e, outcomes)
  {
  }

  lemma UsableLeaf(prog: Program, m: ModId, e: Meta)
    requires ValidProgram(prog) && m in prog.imports && prog.imports[m] == {}
    requires EntryOfLeaf(e, prog.source[m]) && prog.suppressedOpts[m] == []
    ensures Usable(prog, m, e) && e.depHashes.Keys == ToSet(e.dependencies)
  {
    assert ToSet(e.dependencies) == {};
    assert DirectOf(e.dependencies, e.priorities) == {};
  }

  lemma UsableB(n: Names, prog: Program, e: Meta)
    requires Version(prog, n, false, true) && EntryOfB(e, n, true)
    ensures Usable(prog, n.b, e) && e.depHashes.Keys == ToSet(e.dependencies)
  {
    assert ToSet(e.dependencies) == {n.x};
    assert DirectOf(e.dependencies, e.priorities) == {n.x};
    assert Once([n.x]);
  }

  lemma UsableA(n: Names, prog: Program, e: Meta)
    requires Version(prog, n, false, true) && EntryOfA(e, n, [3])
    ensures Usable(prog, n.a, e) && e.depHashes.Keys == ToSet(e.dependencies)
  {
    assert ToSet(e.dependencies) == {n.c, n.b};
    assert DirectOf(e.dependencies, e.priorities) == {n.c};
    assert Once([n.c, n.b]);
  }

  /** All of this is recorded as a build does. */
  lemma ThirdRecorded(n: Names, prog: Program, store: map<ModId, Meta>, store1: map<ModId, Meta>,
      outcomes: map<ModId, Outcome>, m: ModId)
    requires Version(prog, n, false, true) && LeftByThird(n, prog, store, store1) && m in prog.imports
    requires outcomes.Keys == prog.imports.Keys && ChainIfaces(prog, n, false, true, Ifaces(outcomes))
    requires NoErrors(outcomes)
    ensures m in store1 && Recorded(prog, m, LoadModule(prog, store, m), store1[m], outcomes)
  {
    assert forall d | d in outcomes :: Ifaces(outcomes)[d] == outcomes[d].iface;
    if m == n.a || m == n.b {
      LinkRecorded(n, prog, store, store1, outcomes, m);
    } else {
      LeafRecorded(n, prog, store, store1, outcomes, m);
    }
  }

  lemma LinkRecorded(n: Names, prog: Program, store: map<ModId, Meta>, store1: map<ModId, Meta>,
      outcomes: map<ModId, Outcome>, m: ModId)
    requires Version(prog, n, false, true) && LeftByThird(n, prog, store, store1) && (m == n.a || m == n.b)
    requires outcomes.Keys == prog.imports.Keys && NoErrors(outcomes)
    requires outcomes[n.a].iface == [0] && outcomes[n.b].iface == HashOfB(true)
             && outcomes[n.c].iface == [3] && outcomes[n.x].iface == HashOfX(true)
    ensures Recorded(prog, m, LoadModule(prog, store, m), store1[m], outcomes)
  {
    ChainClosures(prog.imports, n, false);
    if m == n.a {
      LoadsA(n, prog, true, store, [3]);
      UsableA(n, prog, store1[m]);
    } else {
      LoadsB(n, prog, true, store);
      UsableB(n, prog, store1[m]);
    }
    RecordedAs(prog, m, LoadModule(prog, store, m), store1[m], outcomes);
  }

  lemma LeafRecorded(n: Names, prog: Program, store: map<ModId, Meta>, store1: map<ModId, Meta>,
      outcomes: map<ModId, Outcome>, m: ModId)
    requires Version(prog, n, false, true) && LeftByThird(n, prog, store, store1) && (m == n.c || m == n.x)
    requires outcomes.Keys == prog.imports.Keys && NoErrors(outcomes)
    requires outcomes[n.c].iface == [3] && outcomes[n.x].iface == HashOfX(true)
    ensures Recorded(prog, m, LoadModule(prog, store, m), store1[m], outcomes)
  {
    if m == n.c {
      LoadsC(n, prog, true, store);
    } else {
      LoadsX(n, prog, store);
      ParsedLeaf(prog, m);
    }
    UsableLeaf(prog, m, store1[m]);
    RecordedAs(prog, m, LoadModule(prog, store, m), store1[m], outcomes);
  }

  /** The hash of b recorded for a is not that of the interface that b gets. */
  lemma OldHashLeft(n: Names, prog: Program, store: map<ModId, Meta>, store1: map<ModId, Meta>,
      outcomes: map<ModId, Outcome>)
    requires Version(prog, n, false, true) && LeftByThird(n, prog, store, store1)
    requires n.b in outcomes && outcomes[n.b].iface == HashOfB(true)
    ensures n.a in prog.imports && !FarHashesFinal(prog, store1[n.a], outcomes, n.a)
  {
    ChainClosures(prog.imports, n, false);
    HashesDiffer();
    assert n.b in store1[n.a].depHashes && n.b !in Closure(prog.imports, n.a);
  }

  lemma AfterThird(n: Names, prog: Program, store: map<ModId, Meta>, outcomes: map<ModId, Outcome>)
    returns (store1: map<ModId, Meta>)
    requires ValidSetting(History(n)) && Covers(History(n), prog) && Version(prog, n, false, true)
    requires LeftBehind(n, prog, store) && StoreOk(History(n), store) && outcomes.Keys == prog.imports.Keys
    requires NoErrors(outcomes) && ChainIfaces(prog, n, false, true, Ifaces(outcomes))
    ensures StoreOk(History(n), store1) && n.a in store1 && n.a in prog.imports && store1[n.a] == store[n.a]
    ensures AllRecorded(prog, LoadAll(prog, store), store1, outcomes)
    ensures !FarHashesFinal(prog, store1[n.a], outcomes, n.a) && !UpToDate(prog, store1)
  {
    store1 := ThirdStore(n, prog, store, Ifaces(outcomes));
    forall m | m in prog.imports
      ensures m in store1 && m in LoadAll(prog, store) && LoadAll(prog, store)[m] == LoadModule(prog, store, m)
      ensures Recorded(prog, m, LoadModule(prog, store, m), store1[m], outcomes)
    {
      ThirdRecorded(n, prog, store, store1, outcomes, m);
    }
    assert Ifaces(outcomes)[n.b] == outcomes[n.b].iface;
    OldHashLeft(n, prog, store, store1, outcomes);
    RecordedUpToDate(prog, LoadAll(prog, store), store1, outcomes);
  }

  /**
   * After the third of these builds, in which no write fails, a module keeps an entry with the old hash
   * of another: building the same program once more finds it stale, although nothing has changed.
   */
  lemma UnchangedFoundStale()
    returns (s: Setting, prog: Program, tools: Tools, store: map<ModId, Meta>, store1: map<ModId, Meta>,
             outcomes: map<ModId, Outcome>, t: Table, run: seq<Moment>, m: ModId, d: ModId)
    ensures ValidSetting(s) && Covers(s, prog) && StoreOk(s, store) && StoreOk(s, store1)
    ensures ToolsWork(s, prog, tools) && LoadsFromStore(prog, tools) && NeverFails(tools.writes)
    ensures ComparesUnfinished(s, prog, store, outcomes, t, run, 1, 0, m, d)
    ensures m in store && m in store1 && store1[m] == store[m]
    ensures AllRecorded(prog, tools.load(prog, store), store1, outcomes)
    ensures !FarHashesFinal(prog, store1[m], outcomes, m) && !UpToDate(prog, store1)
  {
    var n := Names([97], [98], [99], [120]);
    s, m, d, tools := History(n), n.a, n.b, ToolsFor(Reexport(n));
    HistoryValid(n);
    var first, second;
    first, second, prog := Versions(n);
    store := SomeStore(n, first, second);
    SameHashes(s, second, prog);
    ThirdLoaded(n, prog, store);
    outcomes, t, run := ThirdBuild(n, prog, store);
    store1 := AfterThird(n, prog, store, outcomes);
    BothServed(n, second, prog);
    ToolsUseStore(Reexport(n), prog);
    assert ToolsWork(s, [second, prog][1], tools);
  }

  /** An edit of x changes what checking x yields. */
  ghost predicate EditChanges(check: Checker, before: Program, after: Program, x: ModId) {
    && ValidProgram(before) && ValidProgram(after) && after.imports == before.imports && x in after.imports
    && before.source[x] != after.source[x]
    && forall ifaces1, ifaces2 ::
         Recheck(check, before, x, ifaces1).iface != Recheck(check, after, x, ifaces2).iface
  }

  /**
   * A history with an edit that changes outcomes while the modules and their imports stay the same: one
   * set of tools serves both versions, takes what it can from the cache, and each version has just one
   * correct build.
   */
  lemma EditedHistory()
    returns (s: Setting, before: Program, after: Program, store: map<ModId, Meta>, tools: Tools, m: ModId, x: ModId)
    ensures Serves(s, [before, after], tools) && EditChanges(s.check, before, after, x)
    ensures LocallyUnique(s.check, before) && LocallyUnique(s.check, after)
    ensures StoreOk(s, store) && m in store && m in tools.load(after, store)
            && tools.load(after, store)[m].meta == Some(store[m])
  {
    var n := Names([97], [98], [99], [120]);
    s, m, x, tools := History(n), n.a, n.x, ToolsFor(Reexport(n));
    HistoryValid(n);
    var first;
    first, before, after := Versions(n);
    store := SomeStore(n, first, before);
    LoadedAgain(n, after, store, tools);
    BothServed(n, before, after);
    EditShows(n, before, after);
  }

  lemma LoadedAgain(n: Names, after: Program, store: map<ModId, Meta>, tools: Tools)
    requires Version(after, n, false, true) && n.a in store && EntryOfA(store[n.a], n, [3])
    requires tools == ToolsFor(Reexport(n))
    ensures n.a in tools.load(after, store) && tools.load(after, store)[n.a].meta == Some(store[n.a])
  {
    LoadsA(n, after, true, store, [3]);
    assert tools.load(after, store) == LoadAll(after, store);
  }

  lemma SomeStore(n: Names, first: Program, second: Program) returns (store: map<ModId, Meta>)
    requires ValidSetting(History(n)) && Covers(History(n), first) && Covers(History(n), second)
    requires Version(first, n, true, false) && Version(second, n, false, false)
    ensures StoreOk(History(n), store) && LeftBehind(n, second, store)
  {
    var ifaces0 := IfacesOf(first, n, true, false);
    var ifaces1 := IfacesOf(second, n, false, false);
    var store1;
    store1, store := TwoBuilds(n, first, ifaces0, second, ifaces1);
  }

  lemma BothServed(n: Names, before: Program, after: Program)
    requires ValidSetting(History(n)) && Covers(History(n), before) && Covers(History(n), after)
    requires before.imports == after.imports && Chain(after.imports, n, false)
    ensures Serves(History(n), [before, after], ToolsFor(Reexport(n)))
    ensures LocallyUnique(Reexport(n), before) && LocallyUnique(Reexport(n), after)
  {
    ChainAcyclic(after.imports, n, false);
    AcyclicSolvable(Reexport(n), before);
    AcyclicSolvable(Reexport(n), after);
    AcyclicLocallyUnique(Reexport(n), before);
    AcyclicLocallyUnique(Reexport(n), after);
    HistoryServed(History(n), [before, after]);
  }

  lemma EditShows(n: Names, before: Program, after: Program)
    requires Version(before, n, false, false) && Version(after, n, false, true) && after.imports == before.imports
    ensures EditChanges(Reexport(n), before, after, n.x)
  {
    forall ifaces1, ifaces2
      ensures Recheck(Reexport(n), before, n.x, ifaces1).iface != Recheck(Reexport(n), after, n.x, ifaces2).iface
    {
      CheckLeaf(n, UnitOf(before, n.x), Visible(before.imports, n.x, ifaces1));
      CheckLeaf(n, UnitOf(after, n.x), Visible(after.imports, n.x, ifaces2));
      HashesDiffer();
    }
  }
}
