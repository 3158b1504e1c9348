// What a build computes, what a cache entry promises, and why an entry that passes the freshness
// tests can be used instead of checking the module again.
module Incremental {
  import opened Text
  import opened Reach
  import opened ImportHash

  type Hash = Bytes

  const PRI_INDIRECT := 30

  /** What the checker is given about one module, apart from the interfaces of other modules. */
  datatype Unit = Unit(id: ModId, source: Str, suppressedOpts: Bytes, direct: set<ModId>)

  /** What checking a module yields: its interface, its errors and the modules it read besides its direct imports. */
  datatype Outcome = Outcome(iface: Hash, errors: seq<Str>, indirect: set<ModId>)

  /** Parsing, semantic analysis and type checking of one module, given the interfaces it may read. */
  type Checker = (Unit, map<ModId, Hash>) -> Outcome

  ghost predicate AgreeOn(env1: map<ModId, Hash>, env2: map<ModId, Hash>, s: set<ModId>) {
    forall d | d in s :: d in env1 && d in env2 && env1[d] == env2[d]
  }

  /**
   * A check that found what it read in env1 has the same outcome with env2, if the interfaces that
   * it read are the same.
   */
  ghost predicate DependsOnReads(check: Checker, u: Unit, env1: map<ModId, Hash>, env2: map<ModId, Hash>) {
    AgreeOn(env1, env2, u.direct + check(u, env1).indirect) ==> check(u, env2) == check(u, env1)
  }

  /** A check depends only on the interfaces of the direct imports and of the modules it records. */
  ghost predicate ReadsRecorded(check: Checker) {
    forall u, env1, env2 :: DependsOnReads(check, u, env1, env2)
  }

  /**
   * One build: the import graph and, per module, its source, the options of its missing imports,
   * and its import hash.
   */
  datatype Program = Program(
    imports: Imports,
    source: map<ModId, Str>,
    suppressedOpts: map<ModId, Bytes>,
    transHash: map<ModId, Bytes>)

  ghost predicate ValidProgram(prog: Program) {
    && ImportGraph(prog.imports)
    && prog.source.Keys == prog.imports.Keys == prog.suppressedOpts.Keys
    && prog.transHash.Keys == prog.imports.Keys
  }

  ghost function UnitOf(prog: Program, m: ModId): Unit
    requires ValidProgram(prog) && m in prog.imports
  {
    Unit(m, prog.source[m], prog.suppressedOpts[m], prog.imports[m])
  }

  /** The interfaces visible to module m: those of its transitive imports. */
  ghost function Visible(imports: Imports, m: ModId, ifaces: map<ModId, Hash>): map<ModId, Hash> {
    map d | d in Closure(imports, m) && d != m && d in ifaces :: ifaces[d]
  }

  ghost function Ifaces(res: map<ModId, Outcome>): map<ModId, Hash> {
    map m | m in res :: res[m].iface
  }

  /** The outcome of m's check once all interfaces are known. */
  ghost function Recheck(check: Checker, prog: Program, m: ModId, ifaces: map<ModId, Hash>): Outcome
    requires ValidProgram(prog) && m in prog.imports
  {
    check(UnitOf(prog, m), Visible(prog.imports, m, ifaces))
  }

  /** The interfaces of the transitive imports of m are those that checking these modules gives. */
  ghost predicate Settled(check: Checker, prog: Program, m: ModId, ifaces: map<ModId, Hash>)
    requires ValidProgram(prog) && m in prog.imports
  {
    && Closure(prog.imports, m) <= ifaces.Keys
    && forall d | d in Closure(prog.imports, m) ::
       d in prog.imports && ifaces[d] == Recheck(check, prog, d, ifaces).iface
  }

  /** The interfaces of a module's transitive imports lead a check only to other transitive imports. */
  ghost predicate ReadsInClosure(check: Checker) {
    forall prog, m, ifaces {:trigger Settled(check, prog, m, ifaces)} |
      ValidProgram(prog) && m in prog.imports && Settled(check, prog, m, ifaces) ::
      Recheck(check, prog, m, ifaces).indirect <= Closure(prog.imports, m) - {m}
  }

  /** A correct build: every module's outcome is what checking it against the others gives. */
  ghost predicate Consistent(check: Checker, prog: Program, res: map<ModId, Outcome>)
    requires ValidProgram(prog)
  {
    && res.Keys == prog.imports.Keys
    && forall m | m in res :: res[m] == Recheck(check, prog, m, Ifaces(res))
  }

  // Cache entries.

  /** The metadata stored for a module, with the part written after its function bodies were checked merged in. */
  datatype Meta = Meta(
    source: Str,
    dependencies: seq<ModId>,
    priorities: map<ModId, int>,
    depHashes: map<ModId, Hash>,
    suppressedOpts: Bytes,
    iface: Hash,
    transHash: Bytes,
    errorLines: seq<Str>)

  predicate IsIndirect(priorities: map<ModId, int>, d: ModId) {
    d in priorities && priorities[d] == PRI_INDIRECT
  }

  function DirectOf(dependencies: seq<ModId>, priorities: map<ModId, int>): set<ModId> {
    set d | d in dependencies && !IsIndirect(priorities, d)
  }

  /** The checker and the digest, with the buffers on which it does not collide and the names of modules. */
  datatype Setting = Setting(check: Checker, digest: Digest, inputs: iset<Bytes>, names: iset<ModId>)

  ghost predicate ValidSetting(s: Setting) {
    ReadsRecorded(s.check) && ReadsInClosure(s.check) && Storable(s.digest) && InjectiveOn(s.digest, s.inputs)
  }

  /** A valid program whose import hashes are as computed, within the buffers and names of the setting. */
  ghost predicate Covers(s: Setting, prog: Program) {
    && Storable(s.digest) && ValidProgram(prog)
    && HashedWithin(s.digest, prog.imports, s.inputs, s.names)
    && forall m {:trigger TransHash(s.digest, prog.imports, m)} | m in prog.imports ::
         prog.transHash[m] == TransHash(s.digest, prog.imports, m)
  }

  /** The entry e was written for m by a check in the build of prog, where ifaces were the interfaces. */
  ghost predicate WrittenBy(s: Setting, m: ModId, e: Meta, prog: Program, ifaces: map<ModId, Hash>) {
    && Covers(s, prog) && m in prog.imports
    && Settled(s.check, prog, m, ifaces)
    && e.source == prog.source[m]
    && e.suppressedOpts == prog.suppressedOpts[m]
    && DirectOf(e.dependencies, e.priorities) == prog.imports[m]
    && e.transHash == prog.transHash[m]
    && var o := Recheck(s.check, prog, m, ifaces);
    && e.iface == o.iface && e.errorLines == o.errors
    && o.indirect <= ToSet(e.dependencies)
    && e.depHashes.Keys == ToSet(e.dependencies)
    && (forall d | d in prog.imports[m] + o.indirect :: d in e.depHashes && d in ifaces && e.depHashes[d] == ifaces[d])
  }

  /** The entry was written by some earlier check, of whatever program. */
  ghost predicate EntryOk(s: Setting, m: ModId, e: Meta) {
    exists prog, ifaces :: WrittenBy(s, m, e, prog, ifaces)
  }

  // Modules of the current build.

  datatype State = State(
    source: Str,
    dependencies: seq<ModId>,
    priorities: map<ModId, int>,
    suppressedOpts: Bytes,
    meta: Option<Meta>,
    depHashes: map<ModId, Hash>,
    iface: Hash,
    transHash: Bytes,
    errorLines: seq<Str>)

  /** The state of m describes the module m of prog. */
  ghost predicate Describes(prog: Program, m: ModId, st: State)
    requires ValidProgram(prog)
  {
    && m in prog.imports
    && st.source == prog.source[m]
    && st.suppressedOpts == prog.suppressedOpts[m]
    && ToSet(st.dependencies) <= prog.imports.Keys - {m}
    && DirectOf(st.dependencies, st.priorities) == prog.imports[m]
    && st.transHash == prog.transHash[m]
  }

  /** The state of m as left by loading the graph of prog and sorting its components. */
  ghost predicate Loaded(prog: Program, m: ModId, st: State)
    requires ValidProgram(prog)
  {
    Describes(prog, m, st) && (st.meta.Some? ==> LoadedFrom(st, st.meta.value))
  }

  predicate SamePriority(a: map<ModId, int>, b: map<ModId, int>, d: ModId) {
    (d in a <==> d in b) && (d in a ==> a[d] == b[d])
  }

  /** The fields that a state takes over from the metadata it was loaded from. */
  ghost predicate LoadedFrom(st: State, e: Meta) {
    && e.source == st.source
    && st.depHashes == e.depHashes && st.iface == e.iface && st.errorLines == e.errorLines
    && forall d | d in e.dependencies :: SamePriority(st.priorities, e.priorities, d)
  }

  /** No change in the module itself, its list of dependencies or the options of missing imports. */
  predicate IsFresh(st: State) {
    && st.meta.Some?
    && st.dependencies == st.meta.value.dependencies
    && st.suppressedOpts == st.meta.value.suppressedOpts
  }

  /**
   * Central step: a module that passes the freshness tests, with dependency hashes that match the
   * final interfaces of whatever it can reach, has the outcome that checking it now would give.
   */
  lemma FreshMeansUnchanged(s: Setting, prog: Program, m: ModId, st: State, ifaces: map<ModId, Hash>)
    requires ValidSetting(s) && Covers(s, prog) && Loaded(prog, m, st)
    requires IsFresh(st) && EntryOk(s, m, st.meta.value)
    requires Closure(prog.imports, m) <= ifaces.Keys
    requires forall d | d in st.depHashes && d in Closure(prog.imports, m) && d != m :: ifaces[d] == st.depHashes[d]
    requires st.transHash == st.meta.value.transHash
             || forall d | d in st.dependencies && IsIndirect(st.priorities, d) :: d in Closure(prog.imports, m)
    ensures var o := Recheck(s.check, prog, m, ifaces); o.iface == st.iface && o.errors == st.errorLines
  {
    var e := st.meta.value;
    var prog0, ifaces0 :| WrittenBy(s, m, e, prog0, ifaces0);
    var env0 := Visible(prog0.imports, m, ifaces0);
    var env := Visible(prog.imports, m, ifaces);
    SameUnit(s, prog, m, st, prog0, ifaces0);
    var u := UnitOf(prog, m);
    var o0 := s.check(u, env0);
    DirectVisible(prog0, m, ifaces0);
    DirectVisible(prog, m, ifaces);
    IndirectInClosure(s, prog0, m, ifaces0);
    assert DependsOnReads(s.check, u, env0, env);
    forall d | d in o0.indirect
      ensures d in Closure(prog.imports, m) && d != m
    {
      if st.transHash == e.transHash {
        EqualHashesEqualClosures(s.digest, s.inputs, s.names, prog.imports, m, prog0.imports, m);
      } else if !IsIndirect(st.priorities, d) {
        assert d in DirectOf(st.dependencies, st.priorities);
      }
    }
    assert AgreeOn(env0, env, u.direct + o0.indirect);
  }

  lemma SameUnit(s: Setting, prog: Program, m: ModId, st: State, prog0: Program, ifaces0: map<ModId, Hash>)
    requires Covers(s, prog) && Loaded(prog, m, st)
    requires IsFresh(st) && WrittenBy(s, m, st.meta.value, prog0, ifaces0)
    ensures UnitOf(prog0, m) == UnitOf(prog, m)
  {
    var e := st.meta.value;
    assert DirectOf(e.dependencies, e.priorities) == DirectOf(st.dependencies, st.priorities);
  }

  lemma DirectVisible(prog: Program, m: ModId, ifaces: map<ModId, Hash>)
    requires ValidProgram(prog) && m in prog.imports
    requires Closure(prog.imports, m) <= ifaces.Keys
    ensures prog.imports[m] <= Visible(prog.imports, m, ifaces).Keys
    ensures Visible(prog.imports, m, ifaces).Keys == Closure(prog.imports, m) - {m}
  {
    DirectReached(prog.imports, m);
  }

  // What a check of a stale module writes.

  function Marked(priorities: map<ModId, int>, found: set<ModId>): map<ModId, int> {
    priorities + map d | d in found :: PRI_INDIRECT
  }

  /** Indirect dependencies found by the check are appended; none already listed is removed. */
  ghost function Patched(st: State, o: Outcome): State {
    var found := o.indirect - ToSet(st.dependencies);
    st.(dependencies := st.dependencies + Sorted(found), priorities := Marked(st.priorities, found), iface := o.iface)
  }

  function HashesOf(dependencies: seq<ModId>, hashes: map<ModId, Hash>): map<ModId, Hash> {
    map d | d in dependencies :: if d in hashes then hashes[d] else []
  }

  /** The entry written for a checked module; hashes holds the interface hashes known when it is written. */
  ghost function Entry(st: State, o: Outcome, hashes: map<ModId, Hash>): Meta {
    var p := Patched(st, o);
    Meta(p.source, p.dependencies, p.priorities, HashesOf(p.dependencies, hashes),
         p.suppressedOpts, o.iface, p.transHash, o.errors)
  }

  lemma AppendedDeps(deps: seq<ModId>, priorities: map<ModId, int>, tail: seq<ModId>, found: set<ModId>)
    requires found !! ToSet(deps) && forall d :: d in tail <==> d in found
    ensures ToSet(deps + tail) == ToSet(deps) + found
    ensures DirectOf(deps + tail, Marked(priorities, found)) == DirectOf(deps, priorities)
    ensures forall d | d in deps :: IsIndirect(Marked(priorities, found), d) == IsIndirect(priorities, d)
  {
    forall d | d in deps
      ensures IsIndirect(Marked(priorities, found), d) == IsIndirect(priorities, d)
    {
      assert d in ToSet(deps) && d !in found;
    }
    assert forall d | d in found :: IsIndirect(Marked(priorities, found), d);
  }

  lemma IndirectInClosure(s: Setting, prog: Program, m: ModId, ifaces: map<ModId, Hash>)
    requires ValidSetting(s) && Covers(s, prog) && m in prog.imports && Settled(s.check, prog, m, ifaces)
    ensures Recheck(s.check, prog, m, ifaces).indirect <= Closure(prog.imports, m) - {m}
  {
  }

  /** What a check writes is a valid entry, as long as the hashes it records for what it read are final. */
  lemma WrittenEntryOk(s: Setting, prog: Program, m: ModId, st: State, ifaces: map<ModId, Hash>,
      hashes: map<ModId, Hash>)
    requires ValidSetting(s) && Covers(s, prog) && Describes(prog, m, st)
    requires Settled(s.check, prog, m, ifaces)
    requires AgreeOn(hashes, ifaces, Closure(prog.imports, m) - {m})
    ensures EntryOk(s, m, Entry(st, Recheck(s.check, prog, m, ifaces), hashes))
  {
    var o := Recheck(s.check, prog, m, ifaces);
    var p := Patched(st, o);
    IndirectInClosure(s, prog, m, ifaces);
    PatchedDeps(st, o);
    DirectReached(prog.imports, m);
    WrittenHashes(p.dependencies, hashes, ifaces, prog.imports[m] + o.indirect);
    assert WrittenBy(s, m, Entry(st, o, hashes), prog, ifaces);
  }

  lemma WrittenHashes(deps: seq<ModId>, hashes: map<ModId, Hash>, ifaces: map<ModId, Hash>, read: set<ModId>)
    requires read <= ToSet(deps) && AgreeOn(hashes, ifaces, read)
    ensures HashesOf(deps, hashes).Keys == ToSet(deps)
    ensures forall d | d in read :: d in HashesOf(deps, hashes) && d in ifaces && HashesOf(deps, hashes)[d] == ifaces[d]
  {
  }

  lemma PatchedDeps(st: State, o: Outcome)
    ensures ToSet(Patched(st, o).dependencies) == ToSet(st.dependencies) + o.indirect
    ensures DirectOf(Patched(st, o).dependencies, Patched(st, o).priorities) == DirectOf(st.dependencies, st.priorities)
    ensures forall d | d in st.dependencies :: IsIndirect(Patched(st, o).priorities, d) == IsIndirect(st.priorities, d)
  {
    var found := o.indirect - ToSet(st.dependencies);
    AppendedDeps(st.dependencies, st.priorities, Sorted(found), found);
  }

  /** What was not listed is appended in order, and marked; all else stays as it was. */
  ghost predicate Appended(st: State, found: set<ModId>, p: State) {
    && st.dependencies <= p.dependencies && Ascending(p.dependencies[|st.dependencies|..])
    && ToSet(p.dependencies[|st.dependencies|..]) == found
    && (forall d | d in found :: IsIndirect(p.priorities, d))
    && p.priorities.Keys == st.priorities.Keys + found
    && forall d | d in st.priorities && d !in found :: p.priorities[d] == st.priorities[d]
  }

  lemma PatchedAppended(st: State, o: Outcome)
    ensures Appended(st, o.indirect - ToSet(st.dependencies), Patched(st, o))
  {
    var found := o.indirect - ToSet(st.dependencies);
    SortedAscending(found);
    IsAppended(st, found, Sorted(found), Patched(st, o));
  }

  lemma IsAppended(st: State, found: set<ModId>, tail: seq<ModId>, p: State)
    requires Ascending(tail) && forall d :: d in tail <==> d in found
    requires p.dependencies == st.dependencies + tail && p.priorities == Marked(st.priorities, found)
    ensures Appended(st, found, p)
  {
    assert p.dependencies[|st.dependencies|..] == tail;
  }

  /** After the check has added what it found, the state still describes its module. */
  lemma PatchedDescribes(s: Setting, prog: Program, m: ModId, st: State, ifaces: map<ModId, Hash>)
    requires ValidSetting(s) && Covers(s, prog) && Describes(prog, m, st)
    requires Settled(s.check, prog, m, ifaces)
    ensures Describes(prog, m, Patched(st, Recheck(s.check, prog, m, ifaces)))
  {
    IndirectInClosure(s, prog, m, ifaces);
    PatchedDeps(st, Recheck(s.check, prog, m, ifaces));
  }

  /** The indirect dependencies a state or entry lists are all transitive dependencies of the module. */
  ghost predicate IndirectReachable(imports: Imports, m: ModId, dependencies: seq<ModId>, priorities: map<ModId, int>) {
    forall d | d in dependencies && IsIndirect(priorities, d) :: d in Closure(imports, m)
  }

  /**
   * A check of a module that was not parsed again keeps the indirect dependencies loaded from the
   * cache, so what it writes lists only reachable ones exactly if those loaded are all reachable.
   */
  lemma WrittenReachableIff(s: Setting, prog: Program, m: ModId, st: State, ifaces: map<ModId, Hash>,
      hashes: map<ModId, Hash>)
    requires ValidSetting(s) && Covers(s, prog) && Describes(prog, m, st)
    requires Settled(s.check, prog, m, ifaces)
    ensures var e := Entry(st, Recheck(s.check, prog, m, ifaces), hashes);
            IndirectReachable(prog.imports, m, e.dependencies, e.priorities)
            <==> IndirectReachable(prog.imports, m, st.dependencies, st.priorities)
  {
    var o := Recheck(s.check, prog, m, ifaces);
    IndirectInClosure(s, prog, m, ifaces);
    PatchedDeps(st, o);
    var p := Patched(st, o);
    assert forall d :: d in p.dependencies <==> d in ToSet(st.dependencies) + o.indirect;
  }

  // Uniqueness of correct builds.

  ghost predicate SolvesCycle(check: Checker, prog: Program, m: ModId, res: map<ModId, Outcome>)
    requires ValidProgram(prog) && m in prog.imports
  {
    && res.Keys == prog.imports.Keys
    && forall x | x in Component(prog.imports, m) :: res[x] == Recheck(check, prog, x, Ifaces(res))
  }

  /** Within each import cycle, the interfaces from outside leave only one solution. */
  ghost predicate LocallyUnique(check: Checker, prog: Program)
    requires ValidProgram(prog)
  {
    forall m, r1, r2 {:trigger SolvesCycle(check, prog, m, r1), SolvesCycle(check, prog, m, r2)} |
      && m in prog.imports && SolvesCycle(check, prog, m, r1) && SolvesCycle(check, prog, m, r2)
      && AgreeOn(Ifaces(r1), Ifaces(r2), Closure(prog.imports, m) - Component(prog.imports, m)) ::
      r1[m] == r2[m]
  }

  lemma {:induction false} ConsistentAt(check: Checker, prog: Program, r1: map<ModId, Outcome>, r2: map<ModId, Outcome>,
      m: ModId)
    requires ValidProgram(prog) && LocallyUnique(check, prog) && m in prog.imports
    requires Consistent(check, prog, r1) && Consistent(check, prog, r2)
    ensures r1[m] == r2[m]
    decreases Below(prog.imports, m)
  {
    forall d | d in Closure(prog.imports, m) - Component(prog.imports, m)
      ensures r1[d] == r2[d]
    {
      ClosureTransitive(prog.imports, m, d);
      assert m !in Below(prog.imports, d);
      ConsistentAt(check, prog, r1, r2, d);
    }
    assert SolvesCycle(check, prog, m, r1) && SolvesCycle(check, prog, m, r2);
  }

  /** Two correct builds of one program give every module the same outcome. */
  lemma ConsistentUnique(check: Checker, prog: Program, r1: map<ModId, Outcome>, r2: map<ModId, Outcome>)
    requires ValidProgram(prog) && LocallyUnique(check, prog)
    requires Consistent(check, prog, r1) && Consistent(check, prog, r2)
    ensures r1 == r2
  {
    forall m | m in prog.imports
      ensures r1[m] == r2[m]
    {
      ConsistentAt(check, prog, r1, r2, m);
    }
  }

  /** Without import cycles nothing need be assumed: there is only one correct build. */
  lemma AcyclicLocallyUnique(check: Checker, prog: Program)
    requires ValidProgram(prog) && Acyclic(prog.imports)
    ensures LocallyUnique(check, prog)
  {
    forall m, r1, r2 | m in prog.imports && SolvesCycle(check, prog, m, r1) && SolvesCycle(check, prog, m, r2)
                       && AgreeOn(Ifaces(r1), Ifaces(r2), Closure(prog.imports, m) - Component(prog.imports, m))
      ensures r1[m] == r2[m]
    {
      forall d | d in Component(prog.imports, m)
        ensures d == m
      {
        assert d != m ==> Reaches(prog.imports, m, d) && Reaches(prog.imports, d, m);
        if d != m { ReachesTransitive(prog.imports, m, d, m); }
      }
      assert Component(prog.imports, m) == {m};
      assert Visible(prog.imports, m, Ifaces(r1)) == Visible(prog.imports, m, Ifaces(r2));
    }
  }
}
