// Loading the graph: starting from the sources, every module that is imported, and keeping the lists
// of dependencies in step with what was found.
module GraphLoading {
  import opened Text
  import opened Reach
  import opened ImportHash
  import opened Incremental
  import opened Trace
  import opened Components

  const PRI_ALL := 99

  // What is found outside.

  /** The dependencies stored in a cache entry, those found out by checking merged in. */
  datatype Listing = Listing(dependencies: seq<ModId>, suppressed: seq<ModId>, priorities: map<ModId, int>)

  /** Lists without repetitions that have nothing in common. */
  ghost predicate WellListed(l: Listing) {
    Distinct(l.dependencies) && Distinct(l.suppressed) && ToSet(l.dependencies) !! ToSet(l.suppressed)
  }

  /** A new state: read from the cache, or still to be parsed. */
  datatype Found = Found(path: Option<Str>, ancestors: seq<ModId>, needsParse: bool, listing: Listing)

  /** On whose behalf a module is looked for. */
  datatype Caller = Root | AncestorOf(id: ModId) | ImportedBy(id: ModId)

  datatype Import = Import(priority: int, id: ModId)

  /**
   * The file system and the cache: what is found, what a simple look-up says, and what parsing a module
   * gives: its imports, and whether it uses template strings.
   */
  datatype World = World(
    find: (ModId, Caller) -> Option<Found>,
    findSimple: ModId -> bool,
    imports: ModId -> seq<Import>,
    usesTemplates: ModId -> bool,
    builtins: ModId,
    templateLib: ModId)

  /** There are finitely many modules to find, and cache entries list dependencies properly. */
  ghost predicate ValidWorld(w: World, modules: set<ModId>) {
    forall id, c {:trigger w.find(id, c)} | w.find(id, c).Some? ::
        id in modules && WellListed(w.find(id, c).value.listing)
  }

  // Lists that are kept together with their sets.

  function Without<T(==)>(s: seq<T>, x: T): (r: seq<T>)
    ensures forall y :: y in r ==> y in s
  {
    if s == [] then [] else if s[0] == x then s[1..] else [s[0]] + Without(s[1..], x)
  }

  lemma {:induction false} WithoutDistinct<T>(s: seq<T>, x: T)
    requires Distinct(s)
    ensures Distinct(Without(s, x)) && ToSet(Without(s, x)) == ToSet(s) - {x}
  {
    if s != [] {
      assert s == [s[0]] + s[1..];
      if s[0] != x {
        WithoutDistinct(s[1..], x);
        var rest := Without(s[1..], x);
        forall y
          ensures y in Without(s, x) <==> y in ToSet(s) - {x}
        {
          assert y in rest <==> y in ToSet(s[1..]) - {x};
        }
        forall j | 0 <= j < |rest|
          ensures rest[j] != s[0]
        {
          assert rest[j] in s[1..];
        }
      }
    }
  }

  lemma AppendDistinctItem<T>(s: seq<T>, x: T)
    requires Distinct(s) && x !in s
    ensures Distinct(s + [x]) && ToSet(s + [x]) == ToSet(s) + {x}
  {
  }

  lemma {:induction false} NothingWithout<T>(s: seq<T>, x: T)
    ensures x !in s ==> Without(s, x) == s
  {
    if s != [] && s[0] != x {
      NothingWithout(s[1..], x);
      assert s == [s[0]] + s[1..];
    }
  }

  /** The modules that parsing says are imported, builtins, and what template strings need. */
  ghost function ParsedDeps(w: World, id: ModId): set<ModId> {
    Imported(w.imports(id)) + {w.builtins} - {id} + if w.usesTemplates(id) then {w.templateLib} else {}
  }

  ghost function Imported(entries: seq<Import>): set<ModId> {
    set i | i in entries :: i.id
  }

  /** The least priority with which d is imported, or PRI_ALL if that is less. */
  ghost predicate LeastPriority(entries: seq<Import>, d: ModId, p: int) {
    && p <= PRI_ALL && (forall i | i in entries && i.id == d :: p <= i.priority)
    && (p == PRI_ALL || exists i :: i in entries && i.id == d && i.priority == p)
  }

  /** Each imported module has its least priority. */
  ghost predicate PrioritiesOf(entries: seq<Import>, priorities: map<ModId, int>) {
    && priorities.Keys == Imported(entries)
    && forall d | d in priorities :: LeastPriority(entries, d, priorities[d])
  }

  /** The dependencies that a module has in all, found or not. */
  ghost function Listed(w: World, id: ModId, found: Found): set<ModId> {
    if found.needsParse then ParsedDeps(w, id) else ToSet(found.listing.dependencies) + ToSet(found.listing.suppressed)
  }

  /** On whose behalf a module looks for d. */
  function CallerFor(id: ModId, found: Found, d: ModId): Caller {
    if d in found.ancestors then AncestorOf(id) else ImportedBy(id)
  }

  /** d is listed, but only as an indirect dependency. */
  ghost predicate Indirect(w: World, id: ModId, found: Found, d: ModId) {
    && d !in found.ancestors
    && if found.needsParse then d in Imported(w.imports(id)) && LeastPriority(w.imports(id), d, PRI_INDIRECT)
       else d in found.listing.dependencies && IsIndirect(found.listing.priorities, d)
  }

  /**
   * d has to be looked for: it contains the module, or is listed, and not only as an indirect
   * dependency; and if it was missing, a simple look-up finds it.
   */
  ghost predicate LookedFor(w: World, id: ModId, found: Found, d: ModId) {
    && (d in found.ancestors || d in Listed(w, id, found)) && !Indirect(w, id, found, d)
    && (!found.needsParse && d in found.listing.suppressed ==> w.findSimple(d))
  }

  // The state of a module.

  datatype Module = Module(
    found: Found,
    dependencies: seq<ModId>,
    dependenciesSet: set<ModId>,
    suppressed: seq<ModId>,
    suppressedSet: set<ModId>,
    priorities: map<ModId, int>)

  ghost predicate ValidModule(st: Module) {
    && Distinct(st.dependencies) && ToSet(st.dependencies) == st.dependenciesSet
    && Distinct(st.suppressed) && ToSet(st.suppressed) == st.suppressedSet
    && st.dependenciesSet !! st.suppressedSet
  }

  function NewModule(found: Found): (st: Module)
    requires WellListed(found.listing)
    ensures ValidModule(st) && st.found == found && st.priorities == found.listing.priorities
    ensures SameLists(st)
    ensures st.dependenciesSet == ToSet(found.listing.dependencies)
            && st.suppressedSet == ToSet(found.listing.suppressed)
  {
    var l := found.listing;
    Module(found, l.dependencies, (set d | d in l.dependencies), l.suppressed, (set d | d in l.suppressed),
        l.priorities)
  }

  /** The lists are those of the cache entry, in the same order. */
  predicate SameLists(st: Module) {
    st.dependencies == st.found.listing.dependencies && st.suppressed == st.found.listing.suppressed
  }

  /** The lists are as read from the cache. */
  ghost predicate AsFound(st: Module) {
    && ValidModule(st) && WellListed(st.found.listing) && st.priorities == st.found.listing.priorities && SameLists(st)
    && st.dependenciesSet == ToSet(st.found.listing.dependencies)
    && st.suppressedSet == ToSet(st.found.listing.suppressed)
  }

  /** The other fields do not change. */
  ghost predicate ListsChanged(st: Module, st1: Module, dependencies: set<ModId>, suppressed: set<ModId>) {
    && ValidModule(st1) && st1.found == st.found && st1.priorities == st.priorities
    && st1.dependenciesSet == dependencies && st1.suppressedSet == suppressed
  }

  method AddDependency(st: Module, dep: ModId) returns (st1: Module)
    requires ValidModule(st)
    ensures ListsChanged(st, st1, st.dependenciesSet + {dep}, st.suppressedSet - {dep})
    ensures st1.dependencies == if dep in st.dependenciesSet then st.dependencies else st.dependencies + [dep]
    ensures st1.suppressed == Without(st.suppressed, dep)
  {
    NothingWithout(st.suppressed, dep);
    st1 := st;
    if dep !in st.dependenciesSet {
      AppendDistinctItem(st.dependencies, dep);
      st1 := st1.(dependencies := st.dependencies + [dep], dependenciesSet := st.dependenciesSet + {dep});
    }
    if dep in st.suppressedSet {
      WithoutDistinct(st.suppressed, dep);
      st1 := st1.(suppressed := Without(st.suppressed, dep), suppressedSet := st.suppressedSet - {dep});
    }
  }

  method SuppressDependency(st: Module, dep: ModId) returns (st1: Module)
    requires ValidModule(st)
    ensures ListsChanged(st, st1, st.dependenciesSet - {dep}, st.suppressedSet + {dep})
    ensures st1.dependencies == Without(st.dependencies, dep)
    ensures st1.suppressed == if dep in st.suppressedSet then st.suppressed else st.suppressed + [dep]
  {
    NothingWithout(st.dependencies, dep);
    st1 := st;
    if dep in st.dependenciesSet {
      WithoutDistinct(st.dependencies, dep);
      st1 := st1.(dependencies := Without(st.dependencies, dep), dependenciesSet := st.dependenciesSet - {dep});
    }
    if dep !in st.suppressedSet {
      AppendDistinctItem(st.suppressed, dep);
      st1 := st1.(suppressed := st.suppressed + [dep], suppressedSet := st.suppressedSet + {dep});
    }
  }

  /** The dependencies of a module that has just been parsed. */
  method ComputeDependencies(w: World, id: ModId, st: Module) returns (st1: Module)
    ensures ValidModule(st1) && st1.found == st.found
    ensures st1.dependenciesSet == ParsedDeps(w, id) && st1.suppressedSet == {}
    ensures st1.priorities.Keys == set i | i in w.imports(id) :: i.id
    ensures forall d | d in st1.priorities ::
              && st1.priorities[d] <= 99
              && (forall i | i in w.imports(id) && i.id == d :: st1.priorities[d] <= i.priority)
              && (st1.priorities[d] == 99
                  || exists i :: i in w.imports(id) && i.id == d && i.priority == st1.priorities[d])
    ensures PrioritiesOf(w.imports(id), st1.priorities)
  {
    var entries := w.imports(id);
    st1 := AddImports(id, st.found, entries);
    PrioritiesSpelled(entries, st1.priorities);
    if id != w.builtins {
      st1 := AddDependency(st1, w.builtins);
    }
    var templates := w.usesTemplates;
    if templates(id) {
      st1 := AddDependency(st1, w.templateLib);
    }
  }

  method AddImports(id: ModId, found: Found, entries: seq<Import>) returns (st: Module)
    ensures ValidModule(st) && st.found == found
    ensures st.dependenciesSet == Imported(entries) - {id} && st.suppressedSet == {}
    ensures PrioritiesOf(entries, st.priorities)
  {
    st := Module(found, [], {}, [], {}, map[]);
    for k := 0 to |entries|
      invariant ValidModule(st) && st.found == found && st.suppressedSet == {}
      invariant st.dependenciesSet == Imported(entries[..k]) - {id}
      invariant PrioritiesOf(entries[..k], st.priorities)
    {
      var entry := entries[k];
      PrefixGrows(entries, k);
      PriorityStep(entries[..k], st.priorities, entry);
      assert Imported(entries[..k + 1]) == Imported(entries[..k]) + {entry.id};
      var known := if entry.id in st.priorities then st.priorities[entry.id] else PRI_ALL;
      st := st.(priorities := st.priorities[entry.id := if entry.priority < known then entry.priority else known]);
      if entry.id != id {
        st := AddDependency(st, entry.id);
      }
    }
    assert entries[..|entries|] == entries;
  }

  lemma PrioritiesSpelled(entries: seq<Import>, priorities: map<ModId, int>)
    requires PrioritiesOf(entries, priorities)
    ensures priorities.Keys == set i | i in entries :: i.id
    ensures forall d | d in priorities ::
              && priorities[d] <= PRI_ALL && (forall i | i in entries && i.id == d :: priorities[d] <= i.priority)
              && (priorities[d] == PRI_ALL || exists i :: i in entries && i.id == d && i.priority == priorities[d])
  {
    assert forall d | d in priorities :: LeastPriority(entries, d, priorities[d]);
  }

  lemma PriorityStep(entries: seq<Import>, priorities: map<ModId, int>, entry: Import)
    requires PrioritiesOf(entries, priorities)
    ensures var known := if entry.id in priorities then priorities[entry.id] else PRI_ALL;
            PrioritiesOf(entries + [entry],
                         priorities[entry.id := if entry.priority < known then entry.priority else known])
    ensures Imported(entries + [entry]) == Imported(entries) + {entry.id}
  {
    var known := if entry.id in priorities then priorities[entry.id] else PRI_ALL;
    var least := if entry.priority < known then entry.priority else known;
    var after := priorities[entry.id := least];
    assert entry in entries + [entry];
    assert Imported(entries + [entry]) == Imported(entries) + {entry.id};
    forall d | d in after
      ensures LeastPriority(entries + [entry], d, after[d])
    {
      if d in priorities {
        assert LeastPriority(entries, d, priorities[d]);
        LeastStays(entries, entry, d, priorities[d]);
      } else {
        assert d !in Imported(entries);
      }
    }
  }

  /** The least priority is that among the entries so far or that of the next one. */
  lemma LeastStays(entries: seq<Import>, entry: Import, d: ModId, p: int)
    requires LeastPriority(entries, d, p)
    ensures d != entry.id || p <= entry.priority ==> LeastPriority(entries + [entry], d, p)
    ensures d == entry.id && entry.priority <= p ==> LeastPriority(entries + [entry], d, entry.priority)
  {
    assert entry in entries + [entry];
    if p != PRI_ALL {
      var i :| i in entries && i.id == d && i.priority == p;
      assert i in entries + [entry];
    }
  }

  // What has been achieved for one module.

  /** The priorities are what the cache or the parser says. */
  ghost predicate PrioritiesRead(w: World, id: ModId, st: Module) {
    if st.found.needsParse then PrioritiesOf(w.imports(id), st.priorities)
    else st.priorities == st.found.listing.priorities
  }

  /** All dependencies of the cache entry that have to be looked for are found. */
  ghost predicate AllFound(w: World, id: ModId, found: Found) {
    forall d | d in found.listing.dependencies && LookedFor(w, id, found, d) ::
      w.find(d, CallerFor(id, found, d)).Some?
  }

  /** Nothing has been moved from one list to the other without need. */
  ghost predicate Unmoved(w: World, id: ModId, st: Module) {
    !st.found.needsParse && AllFound(w, id, st.found) ==> SameLists(st)
  }

  /** The lists have what the cache or the parser says; only what may be missing is listed as missing. */
  ghost predicate ListsRead(w: World, id: ModId, st: Module) {
    && PrioritiesRead(w, id, st) && Unmoved(w, id, st)
    && st.dependenciesSet + st.suppressedSet == Listed(w, id, st.found)
    && (!st.found.needsParse ==>
          WellListed(st.found.listing) && ToSet(st.found.listing.suppressed) <= st.suppressedSet)
    && forall d | d in st.suppressedSet ::
         (!st.found.needsParse && d in st.found.listing.suppressed) || w.find(d, CallerFor(id, st.found, d)).None?
  }

  /** What has to be looked for is known, or is not found. */
  ghost predicate DealtWith(w: World, known: set<ModId>, id: ModId, found: Found, d: ModId) {
    LookedFor(w, id, found, d) ==> d in known || w.find(d, CallerFor(id, found, d)).None?
  }

  /** The direct dependencies are known; of all that had to be looked for, only what is not found is unknown. */
  ghost predicate Followed(w: World, known: set<ModId>, id: ModId, st: Module) {
    && (forall d | d in st.dependenciesSet && !IsIndirect(st.priorities, d) :: d in known)
    && forall d | d in st.found.ancestors || d in Listed(w, id, st.found) :: DealtWith(w, known, id, st.found, d)
  }

  lemma FollowedGrows(w: World, known: set<ModId>, more: set<ModId>, id: ModId, st: Module)
    requires Followed(w, known, id, st) && known <= more
    ensures Followed(w, more, id, st)
  {
    forall d | d in st.found.ancestors || d in Listed(w, id, st.found)
      ensures DealtWith(w, more, id, st.found, d)
    {
      assert DealtWith(w, known, id, st.found, d);
    }
  }

  // The graph.

  /** Why loading fails: a source is given twice, or a file is found under two names. */
  datatype LoadError = DuplicateModule(id: ModId) | DuplicateFile(id: ModId, other: ModId)

  /** Each module is listed once in the order in which they were found, and its lists are in step. */
  ghost predicate Wired(modules: set<ModId>, graph: map<ModId, Module>, ids: seq<ModId>) {
    && Distinct(ids) && ToSet(ids) == graph.Keys && graph.Keys <= modules
    && forall m {:trigger ValidModule(graph[m])} | m in graph :: ValidModule(graph[m])
  }

  /** A module was looked for, and found, for another one. */
  ghost predicate NeededBy(w: World, via: ModId, other: Found, id: ModId, found: Found) {
    LookedFor(w, via, other, id) && w.find(id, CallerFor(via, other, id)) == Some(found)
  }

  ghost predicate Needed(w: World, entryPoints: set<ModId>, graph: map<ModId, Module>, id: ModId, found: Found) {
    || (id in entryPoints && w.find(id, Root) == Some(found))
    || exists m | m in graph :: NeededBy(w, m, graph[m].found, id, found)
  }

  /** The path starts with a source, and each module on it was found for the one before. */
  ghost predicate RootPath(w: World, entryPoints: set<ModId>, graph: map<ModId, Module>, path: seq<ModId>)
    decreases |path|
  {
    && path != []
    && var n := |path| - 1;
       && path[n] in graph
       && if n == 0 then path[n] in entryPoints && w.find(path[n], Root) == Some(graph[path[n]].found)
          else RootPath(w, entryPoints, graph, path[..n])
               && NeededBy(w, path[n - 1], graph[path[n - 1]].found, path[n], graph[path[n]].found)
  }

  ghost predicate HasPath(w: World, entryPoints: set<ModId>, graph: map<ModId, Module>, id: ModId) {
    exists path :: RootPath(w, entryPoints, graph, path) && path[|path| - 1] == id
  }

  /** Every module is a source, or was found on a path from a source. */
  ghost predicate Rooted(w: World, entryPoints: set<ModId>, graph: map<ModId, Module>) {
    && entryPoints <= graph.Keys
    && forall m {:trigger HasPath(w, entryPoints, graph, m)} | m in graph :: HasPath(w, entryPoints, graph, m)
  }

  lemma RootedNeeded(w: World, entryPoints: set<ModId>, graph: map<ModId, Module>, id: ModId)
    requires HasPath(w, entryPoints, graph, id)
    ensures id in graph && Needed(w, entryPoints, graph, id, graph[id].found)
  {
    var path :| RootPath(w, entryPoints, graph, path) && path[|path| - 1] == id;
    if |path| > 1 {
      var via := path[|path| - 2];
      assert RootPath(w, entryPoints, graph, path[..|path| - 1]) && path[..|path| - 1][|path| - 2] == via;
      assert via in graph && NeededBy(w, via, graph[via].found, id, graph[id].found);
    }
  }

  lemma {:induction false} PathStays(w: World, entryPoints: set<ModId>, graph: map<ModId, Module>, more: set<ModId>,
      graph1: map<ModId, Module>, path: seq<ModId>)
    requires RootPath(w, entryPoints, graph, path) && SameFound(graph, graph1)
    ensures RootPath(w, entryPoints + more, graph1, path)
    decreases |path|
  {
    var n := |path| - 1;
    assert graph1[path[n]].found == graph[path[n]].found;
    if n > 0 {
      PathStays(w, entryPoints, graph, more, graph1, path[..n]);
      assert path[..n][n - 1] == path[n - 1];
      assert graph1[path[n - 1]].found == graph[path[n - 1]].found;
    }
  }

  lemma PathGrows(w: World, entryPoints: set<ModId>, graph: map<ModId, Module>, path: seq<ModId>, id: ModId)
    requires RootPath(w, entryPoints, graph, path) && id in graph
    requires var via := path[|path| - 1]; NeededBy(w, via, graph[via].found, id, graph[id].found)
    ensures HasPath(w, entryPoints, graph, id)
  {
    var longer := path + [id];
    assert longer[..|path|] == path;
    assert RootPath(w, entryPoints, graph, longer);
  }

  /** Modules wait to be parsed, or have their lists. */
  ghost predicate Scheduled(w: World, graph: map<ModId, Module>, ready: set<ModId>, notReady: seq<ModId>) {
    && (forall m | m in graph :: m in ready || m in notReady)
    && (forall m | m in notReady :: m in graph && m !in ready && graph[m].found.needsParse)
    && ready <= graph.Keys
    && forall m {:trigger graph[m]} | m in ready :: ListsRead(w, m, graph[m])
  }

  /** The first k modules have been followed. */
  ghost predicate FollowedUpTo(w: World, graph: map<ModId, Module>, ids: seq<ModId>, ready: set<ModId>, k: nat) {
    && k <= |ids|
    && forall i {:trigger ids[i]} | 0 <= i < k ::
       ids[i] in graph && ids[i] in ready && Followed(w, graph.Keys, ids[i], graph[ids[i]])
  }

  /** What is kept while modules are followed. */
  ghost predicate Loading(w: World, modules: set<ModId>, entryPoints: set<ModId>, graph: map<ModId, Module>,
      ids: seq<ModId>, ready: set<ModId>, notReady: seq<ModId>, k: nat)
  {
    && Wired(modules, graph, ids) && Rooted(w, entryPoints, graph)
    && Scheduled(w, graph, ready, notReady) && FollowedUpTo(w, graph, ids, ready, k)
  }

  /** Nothing is removed, and what was found stays. */
  ghost predicate SameFound(graph: map<ModId, Module>, graph1: map<ModId, Module>) {
    graph.Keys <= graph1.Keys && forall m {:trigger graph1[m]} | m in graph :: graph1[m].found == graph[m].found
  }

  lemma RootedMore(w: World, entryPoints: set<ModId>, graph: map<ModId, Module>, more: set<ModId>,
      graph1: map<ModId, Module>)
    requires Rooted(w, entryPoints, graph) && SameFound(graph, graph1) && entryPoints + more <= graph1.Keys
    requires forall m | m in graph1 && m !in graph :: Needed(w, entryPoints + more, graph, m, graph1[m].found)
    ensures Rooted(w, entryPoints + more, graph1)
  {
    forall m | m in graph1
      ensures HasPath(w, entryPoints + more, graph1, m)
    {
      if m in graph {
        var path := PathOf(w, entryPoints, graph, more, graph1, m);
      } else {
        NeededRooted(w, entryPoints, graph, more, graph1, m);
      }
    }
  }

  lemma PathOf(w: World, entryPoints: set<ModId>, graph: map<ModId, Module>, more: set<ModId>,
      graph1: map<ModId, Module>, m: ModId) returns (path: seq<ModId>)
    requires Rooted(w, entryPoints, graph) && SameFound(graph, graph1) && m in graph
    ensures RootPath(w, entryPoints + more, graph1, path) && path[|path| - 1] == m
  {
    assert HasPath(w, entryPoints, graph, m);
    path :| RootPath(w, entryPoints, graph, path) && path[|path| - 1] == m;
    PathStays(w, entryPoints, graph, more, graph1, path);
  }

  lemma NeededRooted(w: World, entryPoints: set<ModId>, graph: map<ModId, Module>, more: set<ModId>,
      graph1: map<ModId, Module>, id: ModId)
    requires Rooted(w, entryPoints, graph) && SameFound(graph, graph1) && entryPoints + more <= graph1.Keys
    requires id in graph1 && Needed(w, entryPoints + more, graph, id, graph1[id].found)
    ensures HasPath(w, entryPoints + more, graph1, id)
  {
    if id in entryPoints + more && w.find(id, Root) == Some(graph1[id].found) {
      assert RootPath(w, entryPoints + more, graph1, [id]);
    } else {
      var m :| m in graph && NeededBy(w, m, graph[m].found, id, graph1[id].found);
      var path := PathOf(w, entryPoints, graph, more, graph1, m);
      assert NeededBy(w, m, graph1[m].found, id, graph1[id].found);
      PathGrows(w, entryPoints + more, graph1, path, id);
    }
  }

  lemma FollowedStays(w: World, graph: map<ModId, Module>, ids: seq<ModId>, ready: set<ModId>, k: nat,
      graph1: map<ModId, Module>, ids1: seq<ModId>, ready1: set<ModId>)
    requires FollowedUpTo(w, graph, ids, ready, k)
    requires ids <= ids1 && ready <= ready1 && graph.Keys <= graph1.Keys
    requires forall i {:trigger ids[i]} | 0 <= i < k :: graph1[ids[i]] == graph[ids[i]]
    ensures FollowedUpTo(w, graph1, ids1, ready1, k)
  {
    forall i | 0 <= i < k
      ensures ids1[i] in graph1 && ids1[i] in ready1 && Followed(w, graph1.Keys, ids1[i], graph1[ids1[i]])
    {
      assert ids1[i] == ids[i];
      FollowedGrows(w, graph.Keys, graph1.Keys, ids[i], graph[ids[i]]);
    }
  }

  lemma AddSchedules(w: World, graph: map<ModId, Module>, ready: set<ModId>, notReady: seq<ModId>, id: ModId,
      st: Module)
    requires Scheduled(w, graph, ready, notReady) && id !in graph && AsFound(st)
    ensures st.found.needsParse ==> Scheduled(w, graph[id := st], ready, notReady + [id])
    ensures !st.found.needsParse ==> Scheduled(w, graph[id := st], ready + {id}, notReady)
  {
    assert !st.found.needsParse ==> ListsRead(w, id, st);
    assert forall m | m in ready :: ListsRead(w, m, graph[m]);
  }

  lemma AddWires(modules: set<ModId>, graph: map<ModId, Module>, ids: seq<ModId>, id: ModId, st: Module)
    requires Wired(modules, graph, ids) && id !in graph && id in modules && ValidModule(st)
    ensures Wired(modules, graph[id := st], ids + [id])
  {
    assert id !in ToSet(ids);
    AppendDistinctItem(ids, id);
  }

  /** A new module does no harm to those that have been followed. */
  lemma AddKeeps(w: World, modules: set<ModId>, entryPoints: set<ModId>, graph: map<ModId, Module>, ids: seq<ModId>,
      ready: set<ModId>, notReady: seq<ModId>, k: nat, id: ModId, st: Module, more: set<ModId>,
      graph1: map<ModId, Module>, ids1: seq<ModId>, ready1: set<ModId>, notReady1: seq<ModId>)
    requires Loading(w, modules, entryPoints, graph, ids, ready, notReady, k)
    requires id !in graph && id in modules && AsFound(st)
    requires more <= {id} && Needed(w, entryPoints + more, graph, id, st.found)
    requires graph1 == graph[id := st] && ids1 == ids + [id]
    requires if st.found.needsParse then ready1 == ready && notReady1 == notReady + [id]
             else ready1 == ready + {id} && notReady1 == notReady
    ensures Loading(w, modules, entryPoints + more, graph1, ids1, ready1, notReady1, k)
  {
    AddWires(modules, graph, ids, id, st);
    RootedMore(w, entryPoints, graph, more, graph1);
    AddSchedules(w, graph, ready, notReady, id, st);
    FollowedStays(w, graph, ids, ready, k, graph1, ids1, ready1);
  }

  /** Moving a missing dependency of the next module does no harm either. */
  lemma SuppressKeeps(w: World, modules: set<ModId>, entryPoints: set<ModId>, graph: map<ModId, Module>,
      ids: seq<ModId>, ready: set<ModId>, notReady: seq<ModId>, k: nat, dep: ModId, st1: Module)
    requires Loading(w, modules, entryPoints, graph, ids, ready, notReady, k)
    requires k < |ids| && ids[k] in graph && ids[k] in ready
    requires ListsChanged(graph[ids[k]], st1, graph[ids[k]].dependenciesSet - {dep},
             graph[ids[k]].suppressedSet + {dep})
    requires dep in graph[ids[k]].dependenciesSet && w.find(dep, CallerFor(ids[k], graph[ids[k]].found, dep)).None?
    requires Visitable(w, ids[k], graph[ids[k]], dep)
    ensures Loading(w, modules, entryPoints, graph[ids[k] := st1], ids, ready, notReady, k)
  {
    var id, graph1 := ids[k], graph[ids[k] := st1];
    assert graph1.Keys == graph.Keys;
    assert entryPoints + {} == entryPoints;
    RootedMore(w, entryPoints, graph, {}, graph1);
    assert ListsRead(w, id, graph[id]) && ValidModule(graph[id]);
    StillUnmoved(w, id, graph[id], st1, dep);
    assert ListsRead(w, id, st1);
    forall i | 0 <= i < k
      ensures ids[i] != id
    {
    }
  }

  /** A dependency that is not found is one that has to be looked for. */
  lemma StillUnmoved(w: World, id: ModId, st: Module, st1: Module, dep: ModId)
    requires ListsRead(w, id, st) && ValidModule(st) && st1.found == st.found
    requires dep in st.dependenciesSet && w.find(dep, CallerFor(id, st.found, dep)).None?
    requires Visitable(w, id, st, dep)
    ensures Unmoved(w, id, st1)
  {
    if !st.found.needsParse && AllFound(w, id, st.found) {
      assert dep in ToSet(st.dependencies) && dep in st.found.listing.dependencies;
      assert dep in Listed(w, id, st.found);
      assert dep in st.found.listing.suppressed ==> dep in ToSet(st.found.listing.suppressed);
      assert LookedFor(w, id, st.found, dep);
    }
  }

  /** Parsing what waits for it leaves nothing waiting. */
  lemma ParsedKeeps(w: World, modules: set<ModId>, entryPoints: set<ModId>, graph: map<ModId, Module>, ids: seq<ModId>,
      ready: set<ModId>, notReady: seq<ModId>, k: nat, graph1: map<ModId, Module>)
    requires Loading(w, modules, entryPoints, graph, ids, ready, notReady, k)
    requires ParsedAll(w, graph, notReady, graph1)
    ensures Loading(w, modules, entryPoints, graph1, ids, ready + ToSet(notReady), [], k)
    ensures graph1.Keys <= ready + ToSet(notReady)
  {
    assert entryPoints + {} == entryPoints;
    RootedMore(w, entryPoints, graph, {}, graph1);
    ParsedSchedules(w, graph, ready, notReady, graph1);
    FollowedStays(w, graph, ids, ready, k, graph1, ids, ready + ToSet(notReady));
  }

  lemma ParsedSchedules(w: World, graph: map<ModId, Module>, ready: set<ModId>, notReady: seq<ModId>,
      graph1: map<ModId, Module>)
    requires Scheduled(w, graph, ready, notReady) && ParsedAll(w, graph, notReady, graph1)
    ensures Scheduled(w, graph1, ready + ToSet(notReady), [])
  {
    forall m | m in ready + ToSet(notReady)
      ensures ListsRead(w, m, graph1[m])
    {
      if m in notReady {
        assert graph1[m].found.needsParse;
      } else {
        assert ListsRead(w, m, graph[m]);
      }
    }
  }

  /** The listed modules have their dependencies from the parser, the others have not changed. */
  ghost predicate ParsedAll(w: World, graph: map<ModId, Module>, states: seq<ModId>, graph1: map<ModId, Module>) {
    && graph1.Keys == graph.Keys
    && (forall m {:trigger graph1[m]} | m in graph && m !in states :: graph1[m] == graph[m])
    && forall m {:trigger graph1[m]} | m in graph && m in states ::
         && ValidModule(graph1[m]) && graph1[m].found == graph[m].found
         && graph1[m].dependenciesSet == ParsedDeps(w, m) && graph1[m].suppressedSet == {}
         && PrioritiesOf(w.imports(m), graph1[m].priorities)
  }

  /** Parses modules and computes their dependencies. */
  method ParseAll(w: World, graph: map<ModId, Module>, states: seq<ModId>) returns (graph1: map<ModId, Module>)
    requires forall m | m in states :: m in graph
    ensures ParsedAll(w, graph, states, graph1)
  {
    graph1 := graph;
    for k := 0 to |states|
      invariant ParsedAll(w, graph, states[..k], graph1)
    {
      PrefixGrows(states, k);
      assert states[k] in states;
      var st := ComputeDependencies(w, states[k], graph1[states[k]]);
      graph1 := graph1[states[k] := st];
    }
    assert states[..|states|] == states;
  }

  // What is missing, and what was missing but has turned up.

  /** After the search: the lists still have what the cache or the parser says. */
  ghost predicate SearchedFor(w: World, known: set<ModId>, id: ModId, st: Module) {
    && ValidModule(st) && PrioritiesRead(w, id, st) && Unmoved(w, id, st)
    && st.dependenciesSet + st.suppressedSet == Listed(w, id, st.found) && Followed(w, known, id, st)
  }

  /** Nothing that is known is listed as missing. */
  ghost predicate BroughtBack(w: World, known: set<ModId>, id: ModId, st: Module) {
    && ValidModule(st) && PrioritiesRead(w, id, st) && KeepsLists(w, known, id, st)
    && st.dependenciesSet + st.suppressedSet == Listed(w, id, st.found) && Followed(w, known, id, st)
    && st.suppressedSet !! known
  }

  /**
   * The lists are exactly those of the cache entry, if all that it lists is there again, and what was
   * missing still is.
   */
  ghost predicate KeepsLists(w: World, known: set<ModId>, id: ModId, st: Module) {
    var l := st.found.listing;
    (!st.found.needsParse && AllFound(w, id, st.found)
     && ToSet(l.dependencies) <= known && ToSet(l.suppressed) !! known) ==> SameLists(st)
  }

  /**
   * The dependencies are what is listed and known, with the priorities that the cache or the parser
   * says; the rest is missing, because it was not to be looked for or was not found.
   */
  ghost predicate InStep(w: World, known: set<ModId>, id: ModId, st: Module) {
    && ValidModule(st) && PrioritiesRead(w, id, st) && KeepsLists(w, known, id, st)
    && st.dependenciesSet == Listed(w, id, st.found) * known
    && st.suppressedSet == Listed(w, id, st.found) - known
    && forall d | d in st.found.ancestors || d in Listed(w, id, st.found) :: DealtWith(w, known, id, st.found, d)
  }

  method BringBack(w: World, graph: map<ModId, Module>, id: ModId, st: Module) returns (st1: Module)
    requires SearchedFor(w, graph.Keys, id, st)
    ensures BroughtBack(w, graph.Keys, id, st1) && st1.found == st.found
  {
    st1 := st;
    for k := 0 to |st.suppressed|
      invariant ValidModule(st1) && st1.found == st.found && st1.priorities == st.priorities
      invariant st1.dependenciesSet + st1.suppressedSet == st.dependenciesSet + st.suppressedSet
      invariant st1.dependenciesSet <= st.dependenciesSet + graph.Keys
      invariant st1.suppressedSet == st.suppressedSet - graph.Keys * ToSet(st.suppressed[..k])
      invariant st.suppressedSet !! graph.Keys ==> st1 == st
    {
      var dep := st.suppressed[k];
      assert dep in ToSet(st.suppressed);
      MoreOf(st.suppressed, k);
      if dep in graph {
        st1 := AddDependency(st1, dep);
      }
    }
    assert st.suppressed[..|st.suppressed|] == st.suppressed;
    StillFollowed(w, graph.Keys, id, st, st1);
  }

  lemma MoreOf<T>(s: seq<T>, k: nat)
    requires k < |s|
    ensures s[..k + 1] == s[..k] + [s[k]] && ToSet(s[..k + 1]) == ToSet(s[..k]) + {s[k]}
  {
  }

  lemma StillFollowed(w: World, known: set<ModId>, id: ModId, st: Module, st1: Module)
    requires Followed(w, known, id, st) && st1.found == st.found && st1.priorities == st.priorities
    requires st1.dependenciesSet <= st.dependenciesSet + known
    ensures Followed(w, known, id, st1)
  {
    forall d | d in st.found.ancestors || d in Listed(w, id, st.found)
      ensures DealtWith(w, known, id, st1.found, d)
    {
      assert DealtWith(w, known, id, st.found, d);
    }
  }

  /** Indirect dependencies have not been looked for; those that are not known are missing. */
  method SuppressIndirect(w: World, graph: map<ModId, Module>, id: ModId, st: Module) returns (st1: Module)
    requires BroughtBack(w, graph.Keys, id, st)
    ensures InStep(w, graph.Keys, id, st1) && st1.found == st.found
  {
    st1 := st;
    var indirect := Kept(st.dependencies, d => IsIndirect(st.priorities, d));
    for k := 0 to |indirect|
      invariant ValidModule(st1) && st1.found == st.found && st1.priorities == st.priorities
      invariant st1.dependenciesSet + st1.suppressedSet == st.dependenciesSet + st.suppressedSet
      invariant st1.dependenciesSet <= st.dependenciesSet && st1.suppressedSet !! graph.Keys
      invariant forall d | d in indirect[..k] && d in st1.dependenciesSet :: d in graph
      invariant st.dependenciesSet <= graph.Keys ==> st1 == st
    {
      PrefixGrows(indirect, k);
      if indirect[k] !in graph {
        st1 := SuppressDependency(st1, indirect[k]);
      }
    }
    assert indirect[..|indirect|] == indirect;
    NowInStep(w, graph.Keys, id, st, st1);
  }

  lemma NowInStep(w: World, known: set<ModId>, id: ModId, st: Module, st1: Module)
    requires BroughtBack(w, known, id, st)
    requires ValidModule(st1) && st1.found == st.found && st1.priorities == st.priorities
    requires st1.dependenciesSet + st1.suppressedSet == st.dependenciesSet + st.suppressedSet
    requires st1.dependenciesSet <= st.dependenciesSet && st1.suppressedSet !! known
    requires forall d | d in st.dependencies && IsIndirect(st.priorities, d) && d in st1.dependenciesSet :: d in known
    requires st.dependenciesSet <= known ==> st1 == st
    ensures InStep(w, known, id, st1)
  {
    StillFollowed(w, known, id, st, st1);
    assert forall d | d in st1.dependenciesSet :: d in ToSet(st.dependencies);
  }

  method BringBackAll(w: World, graph: map<ModId, Module>, ids: seq<ModId>) returns (graph1: map<ModId, Module>)
    requires Distinct(ids) && ToSet(ids) == graph.Keys
    requires forall m {:trigger graph[m]} | m in graph :: SearchedFor(w, graph.Keys, m, graph[m])
    ensures graph1.Keys == graph.Keys && SameFound(graph, graph1)
    ensures forall m {:trigger graph1[m]} | m in graph :: BroughtBack(w, graph.Keys, m, graph1[m])
  {
    graph1 := graph;
    for k := 0 to |ids|
      invariant graph1.Keys == graph.Keys
      invariant forall m {:trigger graph1[m]} | m in graph ::
                  if m in ids[..k] then BroughtBack(w, graph.Keys, m, graph1[m]) && graph1[m].found == graph[m].found
                  else graph1[m] == graph[m]
    {
      MoreOf(ids, k);
      assert ids[k] in ToSet(ids) && ids[k] !in ids[..k];
      var st := BringBack(w, graph, ids[k], graph[ids[k]]);
      graph1 := graph1[ids[k] := st];
    }
    assert ids[..|ids|] == ids;
    assert forall m | m in graph :: m in ToSet(ids);
  }

  method SuppressAll(w: World, graph: map<ModId, Module>, ids: seq<ModId>) returns (graph1: map<ModId, Module>)
    requires Distinct(ids) && ToSet(ids) == graph.Keys
    requires forall m {:trigger graph[m]} | m in graph :: BroughtBack(w, graph.Keys, m, graph[m])
    ensures graph1.Keys == graph.Keys && SameFound(graph, graph1)
    ensures forall m {:trigger graph1[m]} | m in graph :: InStep(w, graph.Keys, m, graph1[m])
  {
    graph1 := graph;
    for k := 0 to |ids|
      invariant graph1.Keys == graph.Keys
      invariant forall m {:trigger graph1[m]} | m in graph ::
                  if m in ids[..k] then InStep(w, graph.Keys, m, graph1[m]) && graph1[m].found == graph[m].found
                  else graph1[m] == graph[m]
    {
      MoreOf(ids, k);
      assert ids[k] in ToSet(ids) && ids[k] !in ids[..k];
      var st := SuppressIndirect(w, graph, ids[k], graph[ids[k]]);
      graph1 := graph1[ids[k] := st];
    }
    assert ids[..|ids|] == ids;
    assert forall m | m in graph :: m in ToSet(ids);
  }

  /** A recorded file is that of a module of the graph. */
  ghost predicate FilesKnown(graph: map<ModId, Module>, seenFiles: map<Str, ModId>) {
    forall p {:trigger seenFiles[p]} | p in seenFiles ::
        seenFiles[p] in graph && graph[seenFiles[p]].found.path == Some(p)
  }

  /** The file of every module is recorded; only sources share theirs, and only with each other. */
  ghost predicate AllFiles(graph: map<ModId, Module>, seenFiles: map<Str, ModId>, entryPoints: set<ModId>) {
    forall m {:trigger graph[m]} | m in graph && graph[m].found.path.Some? ::
      var p := graph[m].found.path.value;
      p in seenFiles && if m in entryPoints then seenFiles[p] in entryPoints else seenFiles[p] == m
  }

  /** No module has the file of another one, unless both are sources. */
  ghost predicate FilesDiffer(w: World, sources: seq<ModId>, graph: map<ModId, Module>) {
    forall a, b {:trigger graph[a], graph[b]} | a in graph && b in graph && a != b && graph[a].found.path.Some?
        && !(a in sources && w.find(a, Root).Some?) :: graph[a].found.path != graph[b].found.path
  }

  lemma AllFilesDiffer(w: World, sources: seq<ModId>, graph: map<ModId, Module>, seenFiles: map<Str, ModId>,
      entryPoints: set<ModId>)
    requires AllFiles(graph, seenFiles, entryPoints)
    requires forall m | m in entryPoints :: m in sources && w.find(m, Root).Some?
    ensures FilesDiffer(w, sources, graph)
  {
    forall a, b | a in graph && b in graph && a != b && graph[a].found.path.Some?
                  && !(a in sources && w.find(a, Root).Some?)
      ensures graph[a].found.path != graph[b].found.path
    {
      assert a !in entryPoints;
    }
  }

  lemma SameFiles(graph: map<ModId, Module>, graph1: map<ModId, Module>, seenFiles: map<Str, ModId>,
      entryPoints: set<ModId>)
    requires AllFiles(graph, seenFiles, entryPoints) && SameFound(graph, graph1) && graph1.Keys == graph.Keys
    ensures AllFiles(graph1, seenFiles, entryPoints)
  {
    forall m | m in graph1
      ensures graph1[m].found == graph[m].found
    {
    }
  }

  lemma OneMoreFile(graph: map<ModId, Module>, graph1: map<ModId, Module>, seenFiles: map<Str, ModId>,
      seenFiles1: map<Str, ModId>, entryPoints: set<ModId>, id: ModId, st: Module)
    requires AllFiles(graph, seenFiles, entryPoints) && id !in graph && id !in entryPoints && graph1 == graph[id := st]
    requires if st.found.path.Some? then st.found.path.value !in seenFiles
                  && seenFiles1 == seenFiles[st.found.path.value := id] else seenFiles1 == seenFiles
    ensures AllFiles(graph1, seenFiles1, entryPoints)
  {
    forall m | m in graph
      ensures graph1[m] == graph[m]
    {
    }
  }

  /** No source that is found is given twice. */
  ghost predicate NoneTwice(w: World, sources: seq<ModId>) {
    sources == []
    || (var n := |sources| - 1;
        NoneTwice(w, sources[..n]) && (w.find(sources[n], Root).Some? ==> sources[n] !in sources[..n]))
  }

  lemma StillKnown(graph: map<ModId, Module>, graph1: map<ModId, Module>, seenFiles: map<Str, ModId>)
    requires FilesKnown(graph, seenFiles) && SameFound(graph, graph1)
    ensures FilesKnown(graph1, seenFiles)
  {
  }

  /** Two modules have the same file. */
  ghost predicate SameFile(w: World, a: ModId, b: ModId) {
    a != b && exists c, d :: SharedFile(w.find(a, c), w.find(b, d))
  }

  ghost predicate SharedFile(a: Option<Found>, b: Option<Found>) {
    a.Some? && b.Some? && a.value.path.Some? && a.value.path == b.value.path
  }

  lemma Clashes(w: World, entryPoints: set<ModId>, graph: map<ModId, Module>, seenFiles: map<Str, ModId>, id: ModId,
      found: Found)
    requires Rooted(w, entryPoints, graph) && FilesKnown(graph, seenFiles) && id !in graph
    requires Needed(w, entryPoints, graph, id, found) && found.path.Some? && found.path.value in seenFiles
    ensures SameFile(w, seenFiles[found.path.value], id)
  {
    var a := seenFiles[found.path.value];
    var c := CallerOf(w, entryPoints, graph, id, found);
    RootedNeeded(w, entryPoints, graph, a);
    var d := CallerOf(w, entryPoints, graph, a, graph[a].found);
    assert SharedFile(w.find(a, d), w.find(id, c));
  }

  lemma CallerOf(w: World, entryPoints: set<ModId>, graph: map<ModId, Module>, id: ModId, found: Found)
    returns (c: Caller)
    requires Needed(w, entryPoints, graph, id, found)
    ensures w.find(id, c) == Some(found)
  {
    if id in entryPoints && w.find(id, Root) == Some(found) {
      c := Root;
    } else {
      var m :| m in graph && NeededBy(w, m, graph[m].found, id, found);
      c := CallerFor(m, graph[m].found, id);
    }
  }

  /** The error is what it says. */
  ghost predicate Justified(w: World, sources: seq<ModId>, e: LoadError) {
    match e
    case DuplicateModule(id) => exists i, j :: 0 <= i < j < |sources| && sources[i] == sources[j] == id
    case DuplicateFile(id, other) => SameFile(w, id, other)
  }

  /** What load_graph keeps in local variables. */
  class GraphLoader {
    const w: World
    ghost const modules: set<ModId>
    var graph: map<ModId, Module>
    var newIds: seq<ModId>
    var ready: set<ModId>
    var notReady: seq<ModId>
    var entryPoints: set<ModId>
    var seenFiles: map<Str, ModId>
    /** The files of the sources have been recorded. */
    ghost var recorded: bool

    /** The first k modules have been followed. */
    ghost predicate At(k: nat)
      reads this
    {
      && Loading(w, modules, entryPoints, graph, newIds, ready, notReady, k) && FilesKnown(graph, seenFiles)
      && (recorded ==> AllFiles(graph, seenFiles, entryPoints))
    }

    constructor (w: World, ghost modules: set<ModId>)
      ensures this.w == w && this.modules == modules && At(0) && graph == map[] && !recorded
    {
      this.w, this.modules := w, modules;
      graph, newIds, ready, notReady, entryPoints, seenFiles := map[], [], {}, [], {}, map[];
      recorded := false;
    }

    /** Parses the modules that wait for it. */
    method ParseNotReady(ghost k: nat)
      requires At(k)
      modifies this`graph, this`ready, this`notReady
      ensures At(k) && graph.Keys == old(graph).Keys && graph.Keys <= ready
    {
      var graph1 := ParseAll(w, graph, notReady);
      ParsedKeeps(w, modules, entryPoints, graph, newIds, ready, notReady, k, graph1);
      if recorded {
        SameFiles(graph, graph1, seenFiles, entryPoints);
      }
      var ready1 := ready + set m | m in notReady;
      assert ready1 == ready + ToSet(notReady);
      assert Loading(w, modules, entryPoints, graph1, newIds, ready1, [], k) && FilesKnown(graph1, seenFiles);
      graph, ready, notReady := graph1, ready1, [];
    }

    /** Adds a module to the graph, to be parsed if need be, and as a source if it is one. */
    method Add(id: ModId, st: Module, isSource: bool, ghost k: nat)
      requires Loading(w, modules, entryPoints, graph, newIds, ready, notReady, k)
      requires id !in graph && id in modules && AsFound(st)
      requires if isSource then w.find(id, Root) == Some(st.found) else Needed(w, entryPoints, graph, id, st.found)
      modifies this`graph, this`newIds, this`ready, this`notReady, this`entryPoints
      ensures Loading(w, modules, entryPoints, graph, newIds, ready, notReady, k)
      ensures graph == old(graph)[id := st] && newIds == old(newIds) + [id] && old(ready) <= ready
      ensures entryPoints == old(entryPoints) + if isSource then {id} else {}
    {
      var more: set<ModId> := if isSource then {id} else {};
      var graph1, ids1 := graph[id := st], newIds + [id];
      var ready1 := if st.found.needsParse then ready else ready + {id};
      var notReady1 := if st.found.needsParse then notReady + [id] else notReady;
      assert !isSource ==> entryPoints + more == entryPoints;
      AddKeeps(w, modules, entryPoints, graph, newIds, ready, notReady, k, id, st, more, graph1, ids1, ready1,
          notReady1);
      entryPoints := entryPoints + more;
      graph, newIds, ready, notReady := graph1, ids1, ready1, notReady1;
    }

    /** Adds a module that was found for another one, unless its file is known under another name. */
    method AddFound(id: ModId, found: Found, ghost k: nat) returns (err: Option<LoadError>)
      requires At(k) && id !in graph && id in modules && WellListed(found.listing)
      requires Needed(w, entryPoints, graph, id, found)
      modifies this`graph, this`newIds, this`ready, this`notReady, this`entryPoints, this`seenFiles
      ensures err.Some? ==> err.value.DuplicateFile? && SameFile(w, err.value.id, err.value.other)
      ensures err.None? ==> At(k)
      ensures err.None? ==>
              graph == old(graph)[id := NewModule(found)] && newIds == old(newIds) + [id] && old(ready) <= ready
      ensures entryPoints == old(entryPoints)
    {
      if found.path.Some? {
        if found.path.value in seenFiles {
          Clashes(w, entryPoints, graph, seenFiles, id, found);
          return Some(DuplicateFile(seenFiles[found.path.value], id));
        }
      }
      ghost var before := graph;
      Add(id, NewModule(found), false, k);
      StillKnown(before, graph, seenFiles);
      ghost var files := seenFiles;
      if found.path.Some? {
        seenFiles := seenFiles[found.path.value := id];
      }
      if recorded {
        OneMoreFile(before, graph, files, seenFiles, entryPoints, id, NewModule(found));
      }
      err := None;
    }

    /** Follows one entry of the lists of the next module. */
    method VisitDep(id: ModId, dep: ModId, added: seq<ModId>, ghost k: nat) returns (err: Option<LoadError>)
      requires ValidWorld(w, modules) && At(k) && k < |newIds| && newIds[k] == id && id in ready
      requires id in graph && (dep in graph[id].found.ancestors || dep in Listed(w, id, graph[id].found))
      requires Visitable(w, id, graph[id], dep)
      requires Skippable(w, id, graph[id], added)
      modifies this`graph, this`newIds, this`ready, this`notReady, this`entryPoints, this`seenFiles
      ensures err.Some? ==> err.value.DuplicateFile? && SameFile(w, err.value.id, err.value.other)
      ensures entryPoints == old(entryPoints)
      ensures err.None? ==> At(k) && Later(old(graph), old(newIds), old(ready), graph, newIds, ready, id)
      ensures err.None? ==> Skippable(w, id, graph[id], added)
      ensures err.None? ==> dep in graph[id].dependenciesSet ==> dep in graph
      ensures err.None? ==> DealtWith(w, graph.Keys, id, graph[id].found, dep)
    {
      err := None;
      var st := graph[id];
      assert ValidModule(st);
      var ignored := dep in st.suppressedSet && dep !in entryPoints;
      if ignored && dep !in added {
      } else if dep !in graph {
        var found := w.find(dep, CallerFor(id, st.found, dep));
        if found.Some? {
          NeededNow(w, entryPoints, graph, ready, id, dep, added, found.value);
          err := AddFound(dep, found.value, k);
        } else if dep in st.dependenciesSet {
          Suppress(id, dep, k);
        }
      }
    }

    /** A dependency that is not found is missing. */
    method Suppress(id: ModId, dep: ModId, ghost k: nat)
      requires At(k) && k < |newIds| && newIds[k] == id && id in ready && id in graph
      requires dep in graph[id].dependenciesSet && w.find(dep, CallerFor(id, graph[id].found, dep)).None?
      requires Visitable(w, id, graph[id], dep)
      modifies this`graph
      ensures At(k) && graph.Keys == old(graph).Keys
      ensures forall m {:trigger graph[m]} | m in graph && m != id :: graph[m] == old(graph)[m]
      ensures ListsChanged(old(graph)[id], graph[id], old(graph)[id].dependenciesSet - {dep},
              old(graph)[id].suppressedSet + {dep})
    {
      var st1 := SuppressDependency(graph[id], dep);
      SuppressKeeps(w, modules, entryPoints, graph, newIds, ready, notReady, k, dep, st1);
      graph := graph[id := st1];
    }

    /** Follows all of the given entries of the lists of the next module. */
    method VisitAll(id: ModId, deps: seq<ModId>, added: seq<ModId>, ghost k: nat) returns (err: Option<LoadError>)
      requires ValidWorld(w, modules) && At(k) && k < |newIds| && newIds[k] == id && id in ready
      requires id in graph && forall d | d in deps ::
               (d in graph[id].found.ancestors || d in Listed(w, id, graph[id].found))
               && Visitable(w, id, graph[id], d)
      requires Skippable(w, id, graph[id], added)
      modifies this`graph, this`newIds, this`ready, this`notReady, this`entryPoints, this`seenFiles
      ensures err.Some? ==> err.value.DuplicateFile? && SameFile(w, err.value.id, err.value.other)
      ensures entryPoints == old(entryPoints)
      ensures err.None? ==> At(k) && Later(old(graph), old(newIds), old(ready), graph, newIds, ready, id)
      ensures err.None? ==> VisitedIn(w, graph, id, deps)
    {
      err := None;
      for j := 0 to |deps|
        invariant entryPoints == old(entryPoints) && err.None?
        invariant At(k) && Later(old(graph), old(newIds), old(ready), graph, newIds, ready, id)
        invariant Skippable(w, id, graph[id], added) && VisitedIn(w, graph, id, deps[..j])
        invariant forall d | d in deps :: Visitable(w, id, graph[id], d)
      {
        ghost var before, known := graph[id], graph.Keys;
        assert deps[j] in deps;
        err := VisitDep(id, deps[j], added, k);
        if err.Some? {
          return;
        }
        PrefixGrows(deps, j);
        VisitedMore(w, known, before, graph, id, deps[..j], deps[j]);
      }
      assert deps[..|deps|] == deps;
    }

    /** Looks for everything that the next module lists, except for indirect dependencies. */
    method FollowDependencies(id: ModId, ghost k: nat) returns (err: Option<LoadError>)
      requires ValidWorld(w, modules) && At(k) && k < |newIds| && newIds[k] == id && id in ready && id in graph
      modifies this`graph, this`newIds, this`ready, this`notReady, this`entryPoints, this`seenFiles
      ensures err.Some? ==> err.value.DuplicateFile? && SameFile(w, err.value.id, err.value.other)
      ensures entryPoints == old(entryPoints)
      ensures err.None? ==> At(k + 1) && old(newIds) <= newIds
    {
      var st := graph[id];
      var dependencies := Kept(st.dependencies, d => !IsIndirect(st.priorities, d));
      var simple := w.findSimple;
      var added := Kept(st.suppressed, d => simple(d));
      assert ListsRead(w, id, st) && ValidModule(st);
      StartsSkippable(w, id, st, added);
      var deps := st.found.ancestors + dependencies + st.suppressed;
      NoneIndirect(w, id, st, dependencies, deps);
      err := VisitAll(id, deps, added, k);
      if err.None? {
        AllFollowed(w, graph, id, st, dependencies, deps);
        FollowedNext(w, graph, newIds, ready, k);
      }
    }

    /** Goes through the modules, those found on the way included. */
    method FollowAll() returns (err: Option<LoadError>)
      requires ValidWorld(w, modules) && At(0)
      modifies this`graph, this`newIds, this`ready, this`notReady, this`entryPoints, this`seenFiles
      ensures err.Some? ==> err.value.DuplicateFile? && SameFile(w, err.value.id, err.value.other)
      ensures entryPoints == old(entryPoints)
      ensures err.None? ==> At(|newIds|) && old(newIds) <= newIds
    {
      var k := 0;
      err := None;
      while k < |newIds|
        invariant At(k) && old(newIds) <= newIds && entryPoints == old(entryPoints) && err.None?
        decreases modules - ToSet(newIds[..k])
      {
        var id := newIds[k];
        assert id in ToSet(newIds);
        if id !in ready {
          assert id in notReady;
          ParseNotReady(k);
        }
        ghost var before := newIds;
        OneLess(modules, before, k);
        err := FollowDependencies(id, k);
        if err.Some? {
          return;
        }
        SamePrefix(before, newIds, k);
        k := k + 1;
      }
    }

    /** Once all modules have been followed: brings the lists in step with the graph. */
    method FinishLists()
      requires At(|newIds|)
      modifies this`graph
      ensures graph.Keys == old(graph).Keys && SameFound(old(graph), graph)
      ensures forall m {:trigger graph[m]} | m in graph :: InStep(w, graph.Keys, m, graph[m])
    {
      AllSearchedFor(w, modules, entryPoints, graph, newIds, ready, notReady);
      var graph1 := BringBackAll(w, graph, newIds);
      graph := SuppressAll(w, graph1, newIds);
    }

    /** Starts with the sources. */
    method Seed(sources: seq<ModId>) returns (err: Option<LoadError>)
      requires ValidWorld(w, modules) && At(0) && graph == map[] && !recorded
      modifies this`graph, this`newIds, this`ready, this`notReady, this`entryPoints, this`seenFiles, this`recorded
      ensures err.None? ==> At(0)
      ensures err.None? ==> forall s {:trigger w.find(s, Root)} | s in sources && w.find(s, Root).Some? ::
              s in entryPoints
      ensures err.None? ==> entryPoints <= ToSet(sources) && recorded
      ensures err.None? ==> NoneTwice(w, sources) && forall m | m in entryPoints :: w.find(m, Root).Some?
      ensures err.Some? ==> err.value.DuplicateModule? && Justified(w, sources, err.value)
    {
      err := None;
      for k := 0 to |sources|
        invariant At(0) && entryPoints == graph.Keys <= ToSet(sources[..k]) && !recorded
        invariant NoneTwice(w, sources[..k]) && forall m | m in entryPoints :: w.find(m, Root).Some?
        invariant forall s {:trigger w.find(s, Root)} | s in sources[..k] && w.find(s, Root).Some? :: s in entryPoints
      {
        MoreOf(sources, k);
        assert sources[..k + 1][..k] == sources[..k];
        var found := w.find(sources[k], Root);
        if found.Some? {
          if sources[k] in graph {
            ghost var i :| 0 <= i < k && sources[..k][i] == sources[k];
            return Some(DuplicateModule(sources[k]));
          }
          ghost var before := graph;
          Add(sources[k], NewModule(found.value), true, 0);
          StillKnown(before, graph, seenFiles);
        }
      }
      assert sources[..|sources|] == sources;
      ParseNotReady(0);
      RecordFiles();
    }

    /** The files of the modules known so far, which are the sources. */
    method RecordFiles()
      requires ToSet(newIds) == graph.Keys == entryPoints
      modifies this`seenFiles, this`recorded
      ensures recorded && FilesKnown(graph, seenFiles) && AllFiles(graph, seenFiles, entryPoints)
    {
      seenFiles := map[];
      for k := 0 to |newIds|
        invariant FilesKnown(graph, seenFiles)
        invariant forall m {:trigger graph[m]} | m in graph && m in newIds[..k] && graph[m].found.path.Some? ::
                    graph[m].found.path.value in seenFiles
      {
        assert newIds[k] in ToSet(newIds);
        MoreOf(newIds, k);
        if graph[newIds[k]].found.path.Some? {
          seenFiles := seenFiles[graph[newIds[k]].found.path.value := newIds[k]];
        }
      }
      assert newIds[..|newIds|] == newIds;
      assert forall m | m in graph :: m in ToSet(newIds);
      recorded := true;
    }
  }

  lemma AllSearchedFor(w: World, modules: set<ModId>, entryPoints: set<ModId>, graph: map<ModId, Module>,
      ids: seq<ModId>, ready: set<ModId>, notReady: seq<ModId>)
    requires Loading(w, modules, entryPoints, graph, ids, ready, notReady, |ids|)
    ensures Distinct(ids) && ToSet(ids) == graph.Keys
    ensures forall m {:trigger graph[m]} | m in graph :: SearchedFor(w, graph.Keys, m, graph[m])
  {
    forall m | m in graph
      ensures SearchedFor(w, graph.Keys, m, graph[m])
    {
      assert m in ToSet(ids);
      var j :| 0 <= j < |ids| && ids[j] == m;
      assert ListsRead(w, m, graph[m]) && ValidModule(graph[m]);
    }
  }

  /**
   * What is loaded: the sources that are found, what they need in turn, and nothing else; all lists are
   * in step, and no module or file is there twice.
   */
  ghost predicate LoadedFrom(w: World, modules: set<ModId>, sources: seq<ModId>, graph: map<ModId, Module>) {
    && graph.Keys <= modules
    && (forall s {:trigger w.find(s, Root)} | s in sources && w.find(s, Root).Some? :: s in graph)
    && (forall m {:trigger graph[m]} | m in graph :: InStep(w, graph.Keys, m, graph[m]))
    && Rooted(w, ToSet(sources) * graph.Keys, graph) && NoneTwice(w, sources) && FilesDiffer(w, sources, graph)
  }

  /**
   * Loads the graph, or finds that a module or a file is there twice. The search ends, parsing never
   * misses a module that waits for it, and the graph is closed: every dependency left on a module is
   * in the graph, and no missing one is.
   */
  method LoadGraph(w: World, ghost modules: set<ModId>, sources: seq<ModId>)
    returns (err: Option<LoadError>, graph: map<ModId, Module>)
    requires ValidWorld(w, modules)
    ensures if err.None? then LoadedFrom(w, modules, sources, graph) else Justified(w, sources, err.value)
    ensures err.None? ==>
              forall m, i | m in graph && graph[m].found.needsParse && i in w.imports(m) && i.priority < PRI_INDIRECT
                            && w.find(i.id, CallerFor(m, graph[m].found, i.id)).Some? :: i.id in graph
  {
    graph := map[];
    var loader := new GraphLoader(w, modules);
    err := loader.Seed(sources);
    if err.Some? { return; }
    err := loader.FollowAll();
    if err.Some? { return; }
    ghost var followed := loader.graph;
    AllFilesDiffer(w, sources, followed, loader.seenFiles, loader.entryPoints);
    loader.FinishLists();
    graph := loader.graph;
    StillDiffer(w, sources, followed, graph);
    FinishedRooted(w, sources, loader.entryPoints, followed, graph);
    ImportsLoaded(w, modules, sources, graph);
  }

  /**
   * What a module imports directly is in the graph, if it is found at all: the imports of one that was
   * parsed, with the priorities the parser says, and what the cache lists for one that was not.
   */
  lemma ImportsLoaded(w: World, modules: set<ModId>, sources: seq<ModId>, graph: map<ModId, Module>)
    requires LoadedFrom(w, modules, sources, graph)
    ensures forall m, i | m in graph && graph[m].found.needsParse && i in w.imports(m) && i.priority < PRI_INDIRECT
                          && w.find(i.id, CallerFor(m, graph[m].found, i.id)).Some? :: i.id in graph
    ensures forall m, i | m in graph && graph[m].found.needsParse && i in w.imports(m) ::
              i.id in graph[m].priorities && LeastPriority(w.imports(m), i.id, graph[m].priorities[i.id])
    ensures forall m, d | m in graph && !graph[m].found.needsParse && d in graph[m].found.listing.dependencies
                          && !IsIndirect(graph[m].found.listing.priorities, d)
                          && d !in graph[m].found.listing.suppressed
                          && w.find(d, CallerFor(m, graph[m].found, d)).Some? :: d in graph
    ensures forall m | m in graph && graph[m].found.needsParse && m != w.builtins
                       && w.builtins !in Imported(w.imports(m))
                       && w.find(w.builtins, CallerFor(m, graph[m].found, w.builtins)).Some? :: w.builtins in graph
  {
    forall m, i | m in graph && graph[m].found.needsParse && i in w.imports(m)
      ensures i.id in graph[m].priorities && LeastPriority(w.imports(m), i.id, graph[m].priorities[i.id])
      ensures i.priority < PRI_INDIRECT && w.find(i.id, CallerFor(m, graph[m].found, i.id)).Some? ==> i.id in graph
    {
      assert InStep(w, graph.Keys, m, graph[m]) && i.id in Imported(w.imports(m));
      if i.id != m {
        assert DealtWith(w, graph.Keys, m, graph[m].found, i.id);
      }
    }
    forall m, d | m in graph && !graph[m].found.needsParse && d in graph[m].found.listing.dependencies
      ensures DealtWith(w, graph.Keys, m, graph[m].found, d)
    {
      assert InStep(w, graph.Keys, m, graph[m]);
      assert d in ToSet(graph[m].found.listing.dependencies);
    }
    forall m | m in graph && graph[m].found.needsParse && m != w.builtins
      ensures DealtWith(w, graph.Keys, m, graph[m].found, w.builtins)
    {
      assert InStep(w, graph.Keys, m, graph[m]);
    }
  }

  /**
   * A module whose cache entry is up to date keeps exactly the lists of the entry, in their order, which
   * is what the first freshness test asks for: if all it lists is found, what it lists as indirect is in
   * the graph for some other reason, and what was missing still is.
   */
  lemma CacheListsKept(w: World, modules: set<ModId>, sources: seq<ModId>, graph: map<ModId, Module>, m: ModId)
    requires LoadedFrom(w, modules, sources, graph) && m in graph && !graph[m].found.needsParse
    requires WellListed(graph[m].found.listing)
    requires forall d | d in graph[m].found.listing.dependencies :: w.find(d, CallerFor(m, graph[m].found, d)).Some?
    requires forall d | d in graph[m].found.listing.dependencies && IsIndirect(graph[m].found.listing.priorities, d) ::
               d in graph
    requires forall d | d in graph[m].found.listing.suppressed :: d !in graph
    ensures graph[m].dependencies == graph[m].found.listing.dependencies
    ensures graph[m].suppressed == graph[m].found.listing.suppressed
    ensures graph[m].priorities == graph[m].found.listing.priorities
  {
    var st, l := graph[m], graph[m].found.listing;
    assert InStep(w, graph.Keys, m, st);
    forall d | d in ToSet(l.dependencies)
      ensures d in graph
    {
      assert d !in ToSet(l.suppressed);
      assert d in Listed(w, m, st.found) && DealtWith(w, graph.Keys, m, st.found, d);
    }
    assert forall d | d in ToSet(l.suppressed) :: d in l.suppressed;
    assert KeepsLists(w, graph.Keys, m, st);
  }

  lemma StillDiffer(w: World, sources: seq<ModId>, graph: map<ModId, Module>, graph1: map<ModId, Module>)
    requires FilesDiffer(w, sources, graph) && SameFound(graph, graph1) && graph1.Keys == graph.Keys
    ensures FilesDiffer(w, sources, graph1)
  {
    forall m | m in graph1
      ensures graph1[m].found == graph[m].found
    {
    }
  }

  /** The direct dependencies in a loaded graph. */
  ghost function DirectImports(graph: map<ModId, Module>): Imports {
    map m | m in graph :: DirectOf(graph[m].dependencies, graph[m].priorities)
  }

  /**
   * A loaded graph is closed: every dependency left, indirect or not, is in it, nothing missing is,
   * and no list repeats anything.
   */
  lemma LoadedClosed(w: World, modules: set<ModId>, sources: seq<ModId>, graph: map<ModId, Module>)
    requires LoadedFrom(w, modules, sources, graph)
    ensures forall m, d | m in graph && d in graph[m].dependencies :: d in graph
    ensures forall m, d | m in graph && d in graph[m].suppressed :: d !in graph
    ensures forall m | m in graph :: Distinct(graph[m].dependencies) && Distinct(graph[m].suppressed)
    ensures Closed(DirectImports(graph))
  {
    forall m, d | m in graph && d in graph[m].dependencies
      ensures d in graph
    {
      assert InStep(w, graph.Keys, m, graph[m]) && d in ToSet(graph[m].dependencies);
    }
    forall m, d | m in graph && d in graph[m].suppressed
      ensures d !in graph
    {
      assert InStep(w, graph.Keys, m, graph[m]) && d in ToSet(graph[m].suppressed);
    }
    forall m | m in graph
      ensures Distinct(graph[m].dependencies) && Distinct(graph[m].suppressed)
    {
      assert InStep(w, graph.Keys, m, graph[m]);
    }
  }

  lemma FinishedRooted(w: World, sources: seq<ModId>, entryPoints: set<ModId>, followed: map<ModId, Module>,
      graph: map<ModId, Module>)
    requires Rooted(w, entryPoints, followed) && SameFound(followed, graph) && graph.Keys == followed.Keys
    requires entryPoints <= ToSet(sources)
    ensures Rooted(w, ToSet(sources) * graph.Keys, graph)
  {
    var more := ToSet(sources) * graph.Keys;
    assert entryPoints + more == more;
    RootedMore(w, entryPoints, followed, more, graph);
  }

  lemma SamePrefix(ids: seq<ModId>, ids1: seq<ModId>, k: nat)
    requires ids <= ids1 && k < |ids|
    ensures ids1[..k] == ids[..k] && ids1[..k + 1] == ids[..k + 1]
  {
  }

  /** The next module has not been dealt with, so there is one less to come. */
  lemma OneLess(modules: set<ModId>, ids: seq<ModId>, k: nat)
    requires Distinct(ids) && ToSet(ids) <= modules && k < |ids|
    ensures modules - ToSet(ids[..k + 1]) < modules - ToSet(ids[..k])
  {
    PrefixGrows(ids, k);
    assert ids[k] in ToSet(ids) && ids[k] !in ids[..k];
    assert ids[k] in modules - ToSet(ids[..k]);
  }

  lemma FollowedNext(w: World, graph: map<ModId, Module>, ids: seq<ModId>, ready: set<ModId>, k: nat)
    requires FollowedUpTo(w, graph, ids, ready, k) && k < |ids| && ids[k] in graph && ids[k] in ready
    requires Followed(w, graph.Keys, ids[k], graph[ids[k]])
    ensures FollowedUpTo(w, graph, ids, ready, k + 1)
  {
  }

  ghost predicate VisitedIn(w: World, graph: map<ModId, Module>, id: ModId, deps: seq<ModId>)
    requires id in graph
  {
    forall d | d in deps :: DealtWith(w, graph.Keys, id, graph[id].found, d) && (d in graph[id].dependenciesSet ==>
        d in graph)
  }

  lemma VisitedMore(w: World, known: set<ModId>, st: Module, graph: map<ModId, Module>, id: ModId, deps: seq<ModId>,
      dep: ModId)
    requires id in graph && known <= graph.Keys
    requires graph[id].found == st.found && graph[id].priorities == st.priorities
             && graph[id].dependenciesSet <= st.dependenciesSet
    requires forall d | d in deps :: DealtWith(w, known, id, st.found, d) && (d in st.dependenciesSet ==> d in known)
    requires DealtWith(w, graph.Keys, id, graph[id].found, dep) && (dep in graph[id].dependenciesSet ==> dep in graph)
    ensures VisitedIn(w, graph, id, deps + [dep])
  {
    forall d | d in deps
      ensures DealtWith(w, graph.Keys, id, graph[id].found, d)
    {
      assert DealtWith(w, known, id, st.found, d);
    }
  }

  /** Nothing is followed that is listed only as an indirect dependency. */
  lemma NoneIndirect(w: World, id: ModId, st: Module, dependencies: seq<ModId>, deps: seq<ModId>)
    requires ListsRead(w, id, st) && ValidModule(st) && st.suppressedSet !! st.dependenciesSet
    requires forall d :: d in dependencies <==> d in st.dependencies && !IsIndirect(st.priorities, d)
    requires deps == st.found.ancestors + dependencies + st.suppressed
    ensures forall d | d in deps ::
              (d in st.found.ancestors || d in Listed(w, id, st.found)) && Visitable(w, id, st, d)
  {
    forall d | d in deps
      ensures Visitable(w, id, st, d)
    {
      if d in st.suppressed && Indirect(w, id, st.found, d) {
        assert d in st.suppressedSet;
        assert !st.found.needsParse ==> d in ToSet(st.found.listing.dependencies);
        assert !st.found.needsParse && d in st.found.listing.suppressed ==> d in ToSet(st.found.listing.suppressed);
      }
    }
  }

  /** Only what is not found would be followed as an indirect dependency, and that is missing already. */
  ghost predicate Visitable(w: World, id: ModId, st: Module, d: ModId) {
    Indirect(w, id, st.found, d) ==>
      w.find(d, CallerFor(id, st.found, d)).None? && (st.found.needsParse || d !in st.dependenciesSet)
  }

  /** A module that is not skipped has to be looked for. */
  lemma NeededNow(w: World, entryPoints: set<ModId>, graph: map<ModId, Module>, ready: set<ModId>, id: ModId,
      dep: ModId, added: seq<ModId>, found: Found)
    requires id in graph && ListsRead(w, id, graph[id]) && Skippable(w, id, graph[id], added)
    requires dep in graph[id].found.ancestors || dep in Listed(w, id, graph[id].found)
    requires Visitable(w, id, graph[id], dep) && (dep in graph[id].suppressedSet ==> dep in added)
    requires w.find(dep, CallerFor(id, graph[id].found, dep)) == Some(found)
    ensures Needed(w, entryPoints, graph, dep, found)
  {
    assert dep in ToSet(graph[id].found.listing.suppressed) <==> dep in graph[id].found.listing.suppressed;
    assert NeededBy(w, id, graph[id].found, dep, found);
  }

  lemma StartsSkippable(w: World, id: ModId, st: Module, added: seq<ModId>)
    requires ListsRead(w, id, st) && ValidModule(st) && forall d ::
             d in added <==> d in st.suppressed && w.findSimple(d)
    ensures Skippable(w, id, st, added)
  {
    assert forall d | d in st.suppressedSet :: d in ToSet(st.suppressed);
  }

  /** When all entries have been visited, the module has been followed. */
  lemma AllFollowed(w: World, graph: map<ModId, Module>, id: ModId, st: Module, dependencies: seq<ModId>,
      deps: seq<ModId>)
    requires id in graph && VisitedIn(w, graph, id, deps) && ValidModule(st) && ListsRead(w, id, st)
    requires graph[id].found == st.found && graph[id].priorities == st.priorities
             && graph[id].dependenciesSet <= st.dependenciesSet
    requires forall d :: d in dependencies <==> d in st.dependencies && !IsIndirect(st.priorities, d)
    requires deps == st.found.ancestors + dependencies + st.suppressed
    ensures Followed(w, graph.Keys, id, graph[id])
  {
    forall d | d in st.found.ancestors || d in Listed(w, id, st.found)
      ensures DealtWith(w, graph.Keys, id, graph[id].found, d)
    {
      if d !in deps {
        assert d in ToSet(st.dependencies) || d in ToSet(st.suppressed);
      }
    }
    forall d | d in graph[id].dependenciesSet && !IsIndirect(st.priorities, d)
      ensures d in graph
    {
      assert d in ToSet(st.dependencies) && d in deps;
    }
  }

  /** Missing modules that are skipped are rightly skipped. */
  ghost predicate Skippable(w: World, id: ModId, st: Module, added: seq<ModId>) {
    && (forall d | d in st.suppressedSet && d !in added :: DealtWith(w, {}, id, st.found, d))
    && forall d | d in added :: w.findSimple(d)
  }

  /** The graph has grown; of what was there only dependencies of one module may have become missing. */
  ghost predicate Later(graph: map<ModId, Module>, ids: seq<ModId>, ready: set<ModId>,
      graph1: map<ModId, Module>, ids1: seq<ModId>, ready1: set<ModId>, id: ModId)
    requires id in graph
  {
    && graph.Keys <= graph1.Keys && ids <= ids1 && ready <= ready1
    && graph1[id].dependenciesSet <= graph[id].dependenciesSet
    && graph1[id].found == graph[id].found && graph1[id].priorities == graph[id].priorities
  }
}
