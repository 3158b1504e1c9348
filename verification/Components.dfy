// Grouping the modules of a loaded graph into import cycles, sorting those, and computing their
// import-structure hashes.
module Components {
  import opened Text
  import opened Reach
  import opened Wire
  import opened ImportHash
  import opened Incremental
  import opened SccTable
  import opened Trace
  import opened TopSort

  const PRI_HIGH := 5

  function Priority(priorities: map<ModId, int>, d: ModId): int {
    if d in priorities then priorities[d] else PRI_HIGH
  }

  function Kept(deps: seq<ModId>, keep: ModId -> bool): (r: seq<ModId>)
    ensures forall d :: d in r <==> d in deps && keep(d)
    ensures Duplicates(r) ==> Duplicates(deps)
  {
    if deps == [] then []
    else
      var rest := Kept(deps[1..], keep);
      assert deps == [deps[0]] + deps[1..];
      DuplicatesCons(deps[0], deps[1..]);
      DuplicatesCons(deps[0], rest);
      if keep(deps[0]) then [deps[0]] + rest else rest
  }

  /** The dependencies of a module that are in vertices, with a priority below priMax. */
  function DepsFiltered(graph: map<ModId, State>, vertices: set<ModId>, id: ModId, priMax: int): seq<ModId>
    requires vertices <= graph.Keys
  {
    if id !in vertices then []
    else
      var priorities := graph[id].priorities;
      Kept(graph[id].dependencies, d => d in vertices && Priority(priorities, d) < priMax)
  }

  function DirectList(st: State): seq<ModId> {
    Kept(st.dependencies, d => !IsIndirect(st.priorities, d))
  }

  ghost predicate Duplicates(r: seq<ModId>) {
    exists i, j :: 0 <= i < j < |r| && r[i] == r[j]
  }

  lemma DuplicatesCons(x: ModId, r: seq<ModId>)
    ensures Duplicates([x] + r) <==> x in r || Duplicates(r)
  {
    var all := [x] + r;
    if x in r {
      var j :| 0 <= j < |r| && r[j] == x;
      assert all[0] == all[j + 1];
    }
    if Duplicates(r) {
      var i, j :| 0 <= i < j < |r| && r[i] == r[j];
      assert all[i + 1] == all[j + 1];
    }
    if Duplicates(all) {
      var i, j :| 0 <= i < j < |all| && all[i] == all[j];
      assert all[j] == r[j - 1];
    }
  }

  /** The direct imports recorded in the states of a loaded graph. */
  ghost function ImportsOf(graph: map<ModId, State>): Imports {
    map m | m in graph :: DirectOf(graph[m].dependencies, graph[m].priorities)
  }

  /** What loading guarantees about the states: no priority beyond indirect, no repeated dependency. */
  ghost predicate LoadedGraph(graph: map<ModId, State>) {
    && ImportGraph(ImportsOf(graph))
    && forall m | m in graph :: StateOk(graph[m])
  }

  ghost predicate StateOk(st: State) {
    && !Duplicates(st.dependencies)
    && forall d | d in st.dependencies :: Priority(st.priorities, d) <= PRI_INDIRECT
  }

  lemma FilteredIsDirect(graph: map<ModId, State>, m: ModId)
    requires LoadedGraph(graph) && m in graph
    ensures ToSet(DepsFiltered(graph, graph.Keys, m, PRI_INDIRECT)) == ImportsOf(graph)[m]
    ensures ToSet(DirectList(graph[m])) == ImportsOf(graph)[m] && !Duplicates(DirectList(graph[m]))
  {
    var st := graph[m];
    assert StateOk(st);
    forall d
      ensures d in DepsFiltered(graph, graph.Keys, m, PRI_INDIRECT) <==> d in ImportsOf(graph)[m]
    {
      if d in DirectOf(st.dependencies, st.priorities) {
        assert ImportsOf(graph)[m] <= ImportsOf(graph).Keys;
      }
    }
  }

  // Hashing the import structure.

  /** Sorts a duplicate-free list. */
  method SortList(deps: seq<ModId>) returns (r: seq<ModId>)
    requires !Duplicates(deps)
    ensures r == Sorted(ToSet(deps))
  {
    r := [];
    for k := 0 to |deps|
      invariant Ascending(r) && ToSet(r) == ToSet(deps[..k])
    {
      assert deps[..k + 1] == deps[..k] + [deps[k]];
      assert deps[k] !in ToSet(deps[..k]);
      InsertAscending(r, deps[k]);
      r := InsertStr(r, deps[k]);
    }
    assert deps[..|deps|] == deps;
    SortedUnique(r, ToSet(deps));
  }

  lemma {:induction false} EncodeMore(deps: seq<ModId>, d: ModId, members: set<ModId>, hashes: map<ModId, Bytes>)
    requires forall x | x in deps + [d] :: FitsStr(x)
    requires forall x | x in deps + [d] && x !in members :: x in hashes && FitsStr(hashes[x])
    ensures EncodeDeps(deps + [d], members, hashes)
            == EncodeDeps(deps, members, hashes) + StrBytes(d) + HashPart(d, members, hashes)
  {
    var all := deps + [d];
    if deps == [] {
      assert all == [d] && [d][1..] == [];
    } else {
      assert all[0] == deps[0] && all[1..] == deps[1..] + [d];
      EncodeMore(deps[1..], d, members, hashes);
      Regroup(StrBytes(deps[0]), HashPart(deps[0], members, hashes), EncodeDeps(deps[1..], members, hashes),
              StrBytes(d), HashPart(d, members, hashes));
    }
  }

  lemma Regroup(a: Bytes, b: Bytes, c: Bytes, d: Bytes, e: Bytes)
    ensures a + (b + (c + d + e)) == (a + (b + c)) + d + e
  {
  }

  /** Everything outside the cycle that a member imports has its hash already. */
  ghost predicate HashedDeps(h: Digest, imports: Imports, members: set<ModId>, graph: map<ModId, State>)
    requires Storable(h) && ImportGraph(imports)
  {
    forall d {:trigger TransHash(h, imports, d)} | d in DirectDeps(imports, members) && d !in members ::
      d in graph && d in imports && graph[d].transHash == TransHash(h, imports, d)
  }

  lemma PrefixGrows<T>(s: seq<T>, k: nat)
    requires k < |s|
    ensures s[..k + 1] == s[..k] + [s[k]]
  {
  }

  /** The buffer written for the dependencies of a cycle: members are listed without a hash. */
  method WriteDeps(allDirectDeps: seq<ModId>, members: set<ModId>, graph: map<ModId, State>,
      ghost hashes: map<ModId, Bytes>)
    returns (data: Bytes)
    requires forall d | d in allDirectDeps :: FitsStr(d)
    requires forall d | d in allDirectDeps && d !in members ::
               d in hashes && FitsStr(hashes[d]) && d in graph && graph[d].transHash == hashes[d]
    ensures data == EncodeDeps(allDirectDeps, members, hashes)
  {
    var buf := new WriteBuffer();
    for k := 0 to |allDirectDeps|
      invariant fresh(buf)
      invariant buf.data == EncodeDeps(allDirectDeps[..k], members, hashes)
    {
      var depId := allDirectDeps[k];
      PrefixGrows(allDirectDeps, k);
      EncodeMore(allDirectDeps[..k], depId, members, hashes);
      var written := buf.WriteStrBare(depId);
      if depId !in members {
        written := buf.WriteStrBare(graph[depId].transHash);
      }
    }
    assert allDirectDeps[..|allDirectDeps|] == allDirectDeps;
    data := buf.data;
  }

  /** The same for a module that is its own cycle, and so not among its dependencies. */
  method WriteOutsideDeps(allDirectDeps: seq<ModId>, ghost members: set<ModId>, graph: map<ModId, State>,
      ghost hashes: map<ModId, Bytes>)
    returns (data: Bytes)
    requires forall d | d in allDirectDeps ::
               FitsStr(d) && d !in members && d in hashes && FitsStr(hashes[d]) && d in graph
                   && graph[d].transHash == hashes[d]
    ensures data == EncodeDeps(allDirectDeps, members, hashes)
  {
    var buf := new WriteBuffer();
    for k := 0 to |allDirectDeps|
      invariant fresh(buf)
      invariant buf.data == EncodeDeps(allDirectDeps[..k], members, hashes)
    {
      var depId := allDirectDeps[k];
      PrefixGrows(allDirectDeps, k);
      EncodeMore(allDirectDeps[..k], depId, members, hashes);
      var written := buf.WriteStrBare(depId);
      written := buf.WriteStrBare(graph[depId].transHash);
    }
    assert allDirectDeps[..|allDirectDeps|] == allDirectDeps;
    data := buf.data;
  }

  /** The hash of a cycle's transitive import structure. A module that is its own cycle takes the fast path. */
  method TransitiveDepHash(members: set<ModId>, graph: map<ModId, State>, h: Digest, ghost m: ModId) returns (r: Bytes)
    requires Storable(h) && LoadedGraph(graph) && m in graph && members == Component(ImportsOf(graph), m)
    requires HashedDeps(h, ImportsOf(graph), members, graph)
    ensures r == TransHash(h, ImportsOf(graph), m)
  {
    ghost var imports := ImportsOf(graph);
    ghost var hashes := DepHashes(h, imports, m);
    TransHashIsDigest(h, imports, m);
    HashesToWrite(h, graph, m);
    var data;
    if |members| == 1 {
      var onlyId :| onlyId in members;
      OnlyMember(members, onlyId);
      FilteredIsDirect(graph, onlyId);
      assert DirectDeps(imports, members) == imports[onlyId];
      var allDirectDeps := SortList(DirectList(graph[onlyId]));
      data := WriteOutsideDeps(allDirectDeps, members, graph, hashes);
    } else {
      var depsSet := CollectDirectDeps(members, graph);
      var allDirectDeps := SortSet(depsSet);
      data := WriteDeps(allDirectDeps, members, graph, hashes);
    }
    r := h(data);
  }

  lemma OnlyMember(s: set<ModId>, x: ModId)
    requires |s| == 1 && x in s
    ensures s == {x}
  {
    assert |s - {x}| == 0;
  }

  lemma HashesToWrite(h: Digest, graph: map<ModId, State>, m: ModId)
    requires Storable(h) && LoadedGraph(graph) && m in graph
    requires HashedDeps(h, ImportsOf(graph), Component(ImportsOf(graph), m), graph)
    ensures var imports := ImportsOf(graph); var members := Component(imports, m);
            var hashes := DepHashes(h, imports, m);
            forall d | d in Sorted(DirectDeps(imports, members)) ::
              FitsStr(d) && (d !in members ==>
                  d in hashes && FitsStr(hashes[d]) && d in graph && graph[d].transHash == hashes[d])
  {
    var imports := ImportsOf(graph);
    var members := Component(imports, m);
    forall d | d in DirectDeps(imports, members)
      ensures FitsStr(d)
    {
      assert d in imports;
    }
    forall d | d in DirectDeps(imports, members) && d !in members
      ensures d in graph && graph[d].transHash == DepHashes(h, imports, m)[d]
    {
      assert graph[d].transHash == TransHash(h, imports, d);
    }
  }

  /** The direct dependencies of all members. */
  method CollectDirectDeps(members: set<ModId>, graph: map<ModId, State>) returns (r: set<ModId>)
    requires LoadedGraph(graph) && members <= graph.Keys
    ensures r == DirectDeps(ImportsOf(graph), members)
  {
    r := {};
    var ids := members;
    while ids != {}
      invariant ids <= members
      invariant r == DirectDeps(ImportsOf(graph), members - ids)
      decreases ids
    {
      var id :| id in ids;
      FilteredIsDirect(graph, id);
      assert members - (ids - {id}) == (members - ids) + {id};
      ids := ids - {id};
      r := r + set d | d in DirectList(graph[id]);
    }
    assert members - ids == members;
  }

  // Units and the dependencies between them.

  /** The strongly connected components of the direct imports, each listed once, in any order. */
  ghost predicate IsPartition(raw: seq<set<ModId>>, imports: Imports) {
    && (forall i | 0 <= i < |raw| :: raw[i] != {} && raw[i] <= imports.Keys)
    && (forall i, m {:trigger m in raw[i]} | 0 <= i < |raw| && m in raw[i] :: raw[i] == Component(imports, m))
    && (forall m | m in imports :: exists i :: 0 <= i < |raw| && m in raw[i])
    && forall i, j | 0 <= i < j < |raw| :: raw[i] != raw[j]
  }

  ghost predicate Numbered(raw: seq<set<ModId>>, of: map<ModId, SccId>, upTo: nat) {
    && (forall m | m in of :: of[m] < upTo <= |raw| && m in raw[of[m]])
    && forall i, m {:trigger m in raw[i]} | 0 <= i < upTo <= |raw| && m in raw[i] :: m in of && of[m] == i
  }

  /** Numbers the components. */
  method NumberSccs(raw: seq<set<ModId>>, ghost imports: Imports) returns (of: map<ModId, SccId>)
    requires IsPartition(raw, imports)
    ensures Numbered(raw, of, |raw|)
  {
    of := map[];
    for i := 0 to |raw|
      invariant Numbered(raw, of, i)
    {
      PartsDisjoint(raw, imports, i);
      of := of + map m | m in raw[i] :: i;
    }
  }

  lemma AllNumbered(raw: seq<set<ModId>>, imports: Imports, of: map<ModId, SccId>)
    requires IsPartition(raw, imports) && Numbered(raw, of, |raw|)
    ensures imports.Keys <= of.Keys
  {
    forall m | m in imports
      ensures m in of
    {
      var i :| 0 <= i < |raw| && m in raw[i];
    }
  }

  lemma PartsDisjoint(raw: seq<set<ModId>>, imports: Imports, i: nat)
    requires IsPartition(raw, imports) && i < |raw|
    ensures forall j | 0 <= j < |raw| && j != i :: raw[j] !! raw[i]
  {
    forall j, m | 0 <= j < |raw| && j != i && m in raw[j]
      ensures m !in raw[i]
    {
      assert raw[j] != raw[i] && raw[j] == Component(imports, m);
    }
  }

  /** The units that the members of one unit import from. */
  method ImportedUnits(members: set<ModId>, of: map<ModId, SccId>, edges: map<ModId, seq<ModId>>,
      ghost imports: Imports)
    returns (r: set<SccId>)
    requires members <= edges.Keys == imports.Keys && imports.Keys <= of.Keys
    requires forall m | m in edges :: ToSet(edges[m]) == imports[m] && imports[m] <= imports.Keys
    ensures r == UnitDeps(imports, members, of)
  {
    r := {};
    var ids := members;
    while ids != {}
      invariant ids <= members
      invariant r == UnitDeps(imports, members - ids, of)
      decreases ids
    {
      var id :| id in ids;
      assert members - (ids - {id}) == (members - ids) + {id};
      assert ToSet(edges[id]) == imports[id];
      ids := ids - {id};
      r := r + set d | d in edges[id] && d in of :: of[d];
    }
    assert members - ids == members;
  }

  /** The dependencies between the units, without trivial ones. */
  method LinkSccs(raw: seq<set<ModId>>, of: map<ModId, SccId>, edges: map<ModId, seq<ModId>>, ghost imports: Imports)
    returns (deps: Graph<SccId>)
    requires edges.Keys == imports.Keys && imports.Keys <= of.Keys
    requires forall i | 0 <= i < |raw| :: raw[i] <= edges.Keys
    requires forall m | m in edges :: ToSet(edges[m]) == imports[m] && imports[m] <= imports.Keys
    ensures Linked(raw, of, imports, deps, |raw|)
  {
    deps := map[];
    for i := 0 to |raw|
      invariant Linked(raw, of, imports, deps, i)
    {
      var units := ImportedUnits(raw[i], of, edges, imports);
      deps := deps[i := units - {i}];
    }
  }

  ghost predicate Linked(raw: seq<set<ModId>>, of: map<ModId, SccId>, imports: Imports, deps: Graph<SccId>, upTo: nat)
    requires upTo <= |raw|
  {
    && (forall i: SccId :: i in deps <==> i < upTo)
    && forall i {:trigger UnitDeps(imports, raw[i], of)} | 0 <= i < upTo ::
       deps[i] == UnitDeps(imports, raw[i], of) - {i}
  }

  /** Numbers the components and finds the dependencies between them. */
  method PrepareSccsFull(raw: seq<set<ModId>>, edges: map<ModId, seq<ModId>>, ghost imports: Imports) returns (t: Table)
    requires ImportGraph(imports) && IsPartition(raw, imports) && edges.Keys == imports.Keys
    requires forall m | m in edges :: ToSet(edges[m]) == imports[m]
    ensures ValidTable(imports, t) && MembersAre(raw, t.members)
  {
    var of := NumberSccs(raw, imports);
    AllNumbered(raw, imports, of);
    var deps := LinkSccs(raw, of, edges, imports);
    t := TableOf(raw, of, deps);
    TableOk(raw, imports, t);
  }

  /** The components under their numbers. */
  function TableOf(raw: seq<set<ModId>>, of: map<ModId, SccId>, deps: Graph<SccId>): (t: Table)
    ensures t.of == of && t.deps == deps && MembersAre(raw, t.members)
  {
    Table(map i | 0 <= i < |raw| :: raw[i], of, deps)
  }

  ghost predicate MembersAre(raw: seq<set<ModId>>, members: map<SccId, set<ModId>>) {
    (forall i: SccId :: i in members <==> i < |raw|) && forall i | i in members :: members[i] == raw[i]
  }

  lemma TableOk(raw: seq<set<ModId>>, imports: Imports, t: Table)
    requires ImportGraph(imports) && IsPartition(raw, imports) && Numbered(raw, t.of, |raw|)
    requires imports.Keys <= t.of.Keys
    requires MembersAre(raw, t.members) && Linked(raw, t.of, imports, t.deps, |raw|)
    ensures ValidTable(imports, t)
  {
    SameUnits(t.members, t.deps, |raw|);
    MembersOk(raw, imports, t);
    NumbersOk(raw, imports, t);
    LinksOk(raw, imports, t);
  }

  lemma MembersOk(raw: seq<set<ModId>>, imports: Imports, t: Table)
    requires IsPartition(raw, imports) && Numbered(raw, t.of, |raw|)
    requires imports.Keys <= t.of.Keys && MembersAre(raw, t.members)
    ensures t.of.Keys == imports.Keys
    ensures forall m {:trigger t.of[m]} | m in imports :: t.of[m] in t.members && m in t.members[t.of[m]]
    ensures forall m {:trigger Component(imports, m)} | m in imports :: t.members[t.of[m]] == Component(imports, m)
  {
    UnitsOk(raw, imports, t.of);
  }

  lemma NumbersOk(raw: seq<set<ModId>>, imports: Imports, t: Table)
    requires IsPartition(raw, imports) && Numbered(raw, t.of, |raw|) && MembersAre(raw, t.members)
    ensures forall i, m {:trigger m in t.members[i]} | i in t.members && m in t.members[i] :: m in t.of && t.of[m] == i
    ensures forall i | i in t.members :: t.members[i] != {}
  {
  }

  lemma LinksOk(raw: seq<set<ModId>>, imports: Imports, t: Table)
    requires MembersAre(raw, t.members) && Linked(raw, t.of, imports, t.deps, |raw|)
    ensures forall i {:trigger UnitDeps(imports, t.members[i], t.of)} | i in t.members ::
              i in t.deps && t.deps[i] == UnitDeps(imports, t.members[i], t.of) - {i}
  {
    forall i | i in t.members
      ensures i in t.deps && t.deps[i] == UnitDeps(imports, t.members[i], t.of) - {i}
    {
      assert t.deps[i] == UnitDeps(imports, raw[i], t.of) - {i};
    }
  }

  lemma SameUnits(members: map<SccId, set<ModId>>, deps: Graph<SccId>, n: nat)
    requires (forall i: SccId :: i in members <==> i < n) && forall i: SccId :: i in deps <==> i < n
    ensures members.Keys == deps.Keys
  {
  }

  lemma UnitsOk(raw: seq<set<ModId>>, imports: Imports, of: map<ModId, SccId>)
    requires IsPartition(raw, imports) && Numbered(raw, of, |raw|) && imports.Keys <= of.Keys
    ensures of.Keys == imports.Keys
    ensures forall m | m in of :: of[m] < |raw| && m in raw[of[m]] && raw[of[m]] == Component(imports, m)
  {
    forall m | m in of
      ensures m in imports && of[m] < |raw| && m in raw[of[m]] && raw[of[m]] == Component(imports, m)
    {
      assert m in raw[of[m]];
    }
  }

  // Sorting the units.

  ghost predicate IsLeastOrder(n: nat, ids: set<ModId>, order: map<ModId, nat>)
    requires ids <= order.Keys
  {
    (exists id :: id in ids && order[id] == n) && forall id | id in ids :: n <= order[id]
  }

  method LeastOrder(ids: set<ModId>, order: map<ModId, nat>) returns (n: nat)
    requires ids != {} && ids <= order.Keys
    ensures IsLeastOrder(n, ids, order)
  {
    var first :| first in ids;
    n := order[first];
    var left := ids - {first};
    while left != {}
      invariant left <= ids
      invariant exists id :: id in ids && order[id] == n
      invariant forall id | id in ids && id !in left :: n <= order[id]
      decreases left
    {
      var id :| id in left;
      left := left - {id};
      if order[id] < n {
        n := order[id];
      }
    }
  }

  /** For each unit of a level, the smallest order number of a member. */
  method SortKeys(level: set<SccId>, t: Table, order: map<ModId, nat>) returns (keys: map<SccId, nat>)
    requires forall i | i in level :: i in t.members && t.members[i] != {} && t.members[i] <= order.Keys
    ensures keys.Keys == level && forall i | i in level :: IsLeastOrder(keys[i], t.members[i], order)
  {
    keys := map[];
    var left := level;
    while left != {}
      invariant left <= level && keys.Keys == level - left
      invariant forall i | i in keys :: IsLeastOrder(keys[i], t.members[i], order)
      decreases left
    {
      var i :| i in left;
      left := left - {i};
      var key := LeastOrder(t.members[i], order);
      keys := keys[i := key];
    }
  }

  /** A member with the largest key. */
  method LargestKey<T(==)>(ids: set<T>, keys: map<T, nat>) returns (best: T)
    requires ids != {} && ids <= keys.Keys
    ensures best in ids && forall i | i in ids :: keys[i] <= keys[best]
  {
    best :| best in ids;
    var left := ids - {best};
    while left != {}
      invariant left <= ids && best in ids
      invariant forall i | i in ids && i !in left :: keys[i] <= keys[best]
      decreases left
    {
      var i :| i in left;
      left := left - {i};
      if keys[best] < keys[i] {
        best := i;
      }
    }
  }

  /** Sorts by descending key. */
  method SortLevel<T(==)>(level: set<T>, keys: map<T, nat>) returns (r: seq<T>)
    requires level <= keys.Keys
    ensures Distinct(r) && (forall i :: i in r <==> i in level)
    ensures forall i, j | 0 <= i < j < |r| :: keys[r[i]] >= keys[r[j]]
  {
    r := [];
    var left := level;
    while left != {}
      invariant left <= level && Distinct(r)
      invariant forall i :: i in r <==> i in level && i !in left
      invariant forall i, j | 0 <= i < j < |r| :: keys[r[i]] >= keys[r[j]]
      invariant forall i, j | 0 <= i < |r| && j in left :: keys[r[i]] >= keys[j]
      decreases left
    {
      var best := LargestKey(left, keys);
      left := left - {best};
      r := r + [best];
    }
  }

  /** Each unit is listed after the units it depends on. */
  ghost predicate InDependencyOrder(deps: Graph<SccId>, res: seq<SccId>) {
    && Distinct(res)
    && forall k {:trigger res[k]} | 0 <= k < |res| :: res[k] in deps && deps[res[k]] <= IdSet(res[..k])
  }

  lemma OrderExtends(deps: Graph<SccId>, res: seq<SccId>, i: SccId)
    requires InDependencyOrder(deps, res) && i in deps && i !in IdSet(res) && deps[i] <= IdSet(res)
    ensures InDependencyOrder(deps, res + [i]) && IdSet(res + [i]) == IdSet(res) + {i}
  {
    var all := res + [i];
    forall k | 0 <= k < |all|
      ensures all[k] in deps && deps[all[k]] <= IdSet(all[..k])
    {
      assert k < |res| ==> all[..k] == res[..k];
      assert k == |res| ==> all[..k] == res;
    }
    forall j, k | 0 <= j < k < |all|
      ensures all[j] != all[k]
    {
      assert all[j] in IdSet(res);
    }
  }

  /** The modules of these units have their import-structure hashes; nothing else has changed. */
  ghost predicate HashesSet(hashes: map<ModId, Bytes>, t: Table, done: set<SccId>, before: map<ModId, State>,
      now: map<ModId, State>)
  {
    && now.Keys == before.Keys
    && forall m {:trigger now[m]} | m in now :: m in before && m in hashes && m in t.of
         && now[m] == if t.of[m] in done then before[m].(transHash := hashes[m]) else before[m]
  }

  ghost function TransHashes(h: Digest, imports: Imports): map<ModId, Bytes>
    requires Storable(h) && ImportGraph(imports)
  {
    map m | m in imports :: TransHash(h, imports, m)
  }

  lemma HashesKeepImports(hashes: map<ModId, Bytes>, t: Table, done: set<SccId>, before: map<ModId, State>,
      now: map<ModId, State>)
    requires LoadedGraph(before) && HashesSet(hashes, t, done, before, now)
    ensures ImportsOf(now) == ImportsOf(before) && LoadedGraph(now)
  {
    forall m | m in now
      ensures now[m].dependencies == before[m].dependencies && now[m].priorities == before[m].priorities
              && StateOk(now[m])
    {
      assert StateOk(before[m]);
    }
  }

  lemma TransHashShared(h: Digest, g: Imports, m: ModId, x: ModId)
    requires Storable(h) && ImportGraph(g) && m in g && x in Component(g, m)
    ensures TransHash(h, g, m) == TransHash(h, g, x)
  {
    ComponentsEqual(g, m, x);
    TransHashIsDigest(h, g, m);
    TransHashIsDigest(h, g, x);
    assert DepHashes(h, g, m) == DepHashes(h, g, x);
  }

  lemma ImportedUnit(imports: Imports, t: Table, i: SccId, d: ModId)
    requires ValidTable(imports, t) && i in t.deps && d in DirectDeps(imports, t.members[i]) && d !in t.members[i]
    ensures d in imports && t.of[d] in t.deps[i]
  {
    var m :| m in t.members[i] && m in imports && d in imports[m];
    assert imports[m] <= imports.Keys;
    assert d in t.members[t.of[d]];
    assert t.of[d] in UnitDeps(imports, t.members[i], t.of);
  }

  lemma DepsHashed(h: Digest, t: Table, done: set<SccId>, before: map<ModId, State>, now: map<ModId, State>, i: SccId)
    requires Storable(h) && LoadedGraph(before) && ValidTable(ImportsOf(before), t)
    requires HashesSet(TransHashes(h, ImportsOf(before)), t, done, before, now)
    requires i in t.deps && t.deps[i] <= done
    ensures HashedDeps(h, ImportsOf(before), t.members[i], now)
  {
    forall d | d in DirectDeps(ImportsOf(before), t.members[i]) && d !in t.members[i]
      ensures d in now && d in ImportsOf(before) && now[d].transHash == TransHash(h, ImportsOf(before), d)
    {
      ImportedUnit(ImportsOf(before), t, i, d);
    }
  }

  /** Records the hash of a cycle in the states of its members. */
  method RecordHash(graph: map<ModId, State>, members: set<ModId>, hash: Bytes) returns (r: map<ModId, State>)
    requires members <= graph.Keys
    ensures r.Keys == graph.Keys
    ensures forall m | m in r :: r[m] == if m in members then graph[m].(transHash := hash) else graph[m]
  {
    r := graph;
    var ids := members;
    while ids != {}
      invariant ids <= members && r.Keys == graph.Keys
      invariant forall m | m in r ::
                r[m] == if m in members && m !in ids then graph[m].(transHash := hash) else graph[m]
      decreases ids
    {
      var id :| id in ids;
      ids := ids - {id};
      r := r[id := r[id].(transHash := hash)];
    }
  }

  lemma MemberHash(h: Digest, imports: Imports, t: Table, i: SccId, m: ModId, x: ModId)
    requires Storable(h) && ValidTable(imports, t) && i in t.members && m in t.members[i] && x in imports
    ensures x in t.members[i] <==> t.of[x] == i
    ensures x in t.members[i] ==> m in imports && TransHash(h, imports, m) == TransHash(h, imports, x)
  {
    assert x in t.members[t.of[x]];
    assert t.of[m] == i && t.members[t.of[m]] == Component(imports, m);
    if x in t.members[i] {
      TransHashShared(h, imports, m, x);
    }
  }

  lemma HashesExtend(hashes: map<ModId, Bytes>, t: Table, done: set<SccId>, before: map<ModId, State>,
      now: map<ModId, State>, i: SccId, hash: Bytes, after: map<ModId, State>)
    requires HashesSet(hashes, t, done, before, now)
    requires i in t.members
    requires forall x | x in before ::
             x in t.of && x in hashes && (x in t.members[i] <==> t.of[x] == i)
                 && (x in t.members[i] ==> hashes[x] == hash)
    requires i !in done && after.Keys == now.Keys
    requires forall x | x in after :: after[x] == if x in t.members[i] then now[x].(transHash := hash) else now[x]
    ensures HashesSet(hashes, t, done + {i}, before, after)
  {
  }

  /** The hash of a unit's import structure is the hash of each member. */
  method UnitHash(t: Table, i: SccId, graph: map<ModId, State>, h: Digest) returns (hash: Bytes)
    requires Storable(h) && LoadedGraph(graph) && ValidTable(ImportsOf(graph), t) && i in t.members
    requires HashedDeps(h, ImportsOf(graph), t.members[i], graph)
    ensures forall x | x in graph ::
            x in t.of && x in TransHashes(h, ImportsOf(graph)) && (x in t.members[i] <==> t.of[x] == i)
    ensures t.members[i] <= graph.Keys
    ensures forall x | x in t.members[i] :: TransHashes(h, ImportsOf(graph))[x] == hash
  {
    ghost var imports := ImportsOf(graph);
    ghost var m := SomeMember(imports, t, i);
    assert t.of[m] == i && t.members[t.of[m]] == Component(imports, m);
    hash := TransitiveDepHash(t.members[i], graph, h, m);
    forall x | x in graph
      ensures x in t.of && (x in t.members[i] <==> t.of[x] == i)
      ensures x in t.members[i] ==> TransHashes(h, imports)[x] == hash
    {
      MemberHash(h, imports, t, i, m, x);
    }
  }

  /** Records the hash of one unit, whose dependencies have theirs. */
  method HashUnit(t: Table, i: SccId, graph: map<ModId, State>, h: Digest, ghost before: map<ModId, State>,
      ghost done: set<SccId>)
    returns (r: map<ModId, State>)
    requires Storable(h) && LoadedGraph(before) && ValidTable(ImportsOf(before), t)
    requires HashesSet(TransHashes(h, ImportsOf(before)), t, done, before, graph)
    requires i in t.members && i in t.deps && i !in done && t.deps[i] <= done
    ensures HashesSet(TransHashes(h, ImportsOf(before)), t, done + {i}, before, r)
  {
    ghost var hashes := TransHashes(h, ImportsOf(before));
    HashesKeepImports(hashes, t, done, before, graph);
    DepsHashed(h, t, done, before, graph, i);
    var hash := UnitHash(t, i, graph, h);
    r := RecordHash(graph, t.members[i], hash);
    HashesExtend(hashes, t, done, before, graph, i, hash, r);
  }

  /** What has been recorded for the units listed in res. */
  ghost predicate SortedSoFar(hashes: map<ModId, Bytes>, t: Table, res: seq<SccId>, dependents: map<SccId, seq<SccId>>,
      before: map<ModId, State>, now: map<ModId, State>)
  {
    && InDependencyOrder(t.deps, res)
    && AllListed(t.deps, dependents, IdSet(res))
    && HashesSet(hashes, t, IdSet(res), before, now)
  }

  /** Lists the units of one level, all of whose dependencies are listed. */
  method AddLevel(t: Table, level: seq<SccId>, graph: map<ModId, State>, h: Digest, ghost before: map<ModId, State>,
      res: seq<SccId>, dependents: map<SccId, seq<SccId>>)
    returns (res1: seq<SccId>, dependents1: map<SccId, seq<SccId>>, graph1: map<ModId, State>)
    requires Storable(h) && LoadedGraph(before) && ValidTable(ImportsOf(before), t)
    requires SortedSoFar(TransHashes(h, ImportsOf(before)), t, res, dependents, before, graph)
    requires Distinct(level) && forall i | i in level :: i in t.deps && i !in res && t.deps[i] <= IdSet(res)
    ensures SortedSoFar(TransHashes(h, ImportsOf(before)), t, res1, dependents1, before, graph1)
    ensures res1 == res + level
  {
    res1, dependents1, graph1 := res, dependents, graph;
    TableClosed(ImportsOf(before), t);
    for k := 0 to |level|
      invariant res1 == res + level[..k]
      invariant SortedSoFar(TransHashes(h, ImportsOf(before)), t, res1, dependents1, before, graph1)
    {
      var i := level[k];
      LevelStep(t.deps, res, level, k);
      dependents1 := AddItem(t.deps, dependents1, i, t.deps[i], IdSet(res1));
      graph1 := HashUnit(t, i, graph1, h, before, IdSet(res1));
      OrderExtends(t.deps, res1, i);
      res1 := res1 + [i];
      assert res1 == res + level[..k + 1];
    }
    assert level[..|level|] == level;
  }

  lemma LevelStep(deps: Graph<SccId>, res: seq<SccId>, level: seq<SccId>, k: nat)
    requires Distinct(level) && forall i | i in level :: i in deps && i !in res && deps[i] <= IdSet(res)
    requires k < |level|
    ensures level[k] in deps && level[k] !in IdSet(res + level[..k]) && deps[level[k]] <= IdSet(res + level[..k])
  {
    NextDistinctId(level, k);
    assert level[k] in level;
    assert IdSet(res) <= IdSet(res + level[..k]);
  }

  lemma NextDistinctId(ids: seq<SccId>, k: nat)
    requires Distinct(ids) && k < |ids|
    ensures ids[k] !in ids[..k]
  {
  }

  /**
   * The units of a loaded graph, in dependency order: what depends on each, and the hash of the
   * transitive import structure of each module.
   */
  method SortedComponents(graph: map<ModId, State>, raw: seq<set<ModId>>, order: map<ModId, nat>, h: Digest)
    returns (top: seq<SccId>, t: Table, dependents: map<SccId, seq<SccId>>, graph1: map<ModId, State>)
    requires Storable(h) && LoadedGraph(graph) && IsPartition(raw, ImportsOf(graph)) && order.Keys == graph.Keys
    ensures ValidTable(ImportsOf(graph), t) && MembersAre(raw, t.members)
    ensures InDependencyOrder(t.deps, top) && IdSet(top) == t.deps.Keys
    ensures Reversed(t.deps, dependents)
    ensures HashesSet(TransHashes(h, ImportsOf(graph)), t, t.deps.Keys, graph, graph1)
  {
    var edges := DirectEdges(graph);
    t := PrepareSccsFull(raw, edges, ImportsOf(graph));
    TableAcyclic(ImportsOf(graph), t);
    top, dependents, graph1 := SortUnits(t, graph, order, h);
  }

  /** The edges of the graph of direct dependencies. */
  method DirectEdges(graph: map<ModId, State>) returns (edges: map<ModId, seq<ModId>>)
    requires LoadedGraph(graph)
    ensures edges.Keys == graph.Keys && forall m | m in edges :: ToSet(edges[m]) == ImportsOf(graph)[m]
  {
    var vertices := graph.Keys;
    edges := map m | m in graph :: DepsFiltered(graph, vertices, m, PRI_INDIRECT);
    forall m | m in edges
      ensures ToSet(edges[m]) == ImportsOf(graph)[m]
    {
      FilteredIsDirect(graph, m);
    }
  }

  /** Sorts a level so that units with modules encountered later come first. */
  method ByOrder(level: set<SccId>, t: Table, order: map<ModId, nat>, ghost imports: Imports) returns (r: seq<SccId>)
    requires ValidTable(imports, t) && level <= t.deps.Keys && imports.Keys <= order.Keys
    ensures Distinct(r) && forall i :: i in r <==> i in level
    ensures forall j, k, n1, n2 | 0 <= j < k < |r| && IsLeastOrder(n1, t.members[r[j]], order)
            && IsLeastOrder(n2, t.members[r[k]], order) ::
              n1 >= n2
  {
    forall i | i in level
      ensures i in t.members && t.members[i] != {} && t.members[i] <= order.Keys
    {
      var m := SomeMember(imports, t, i);
    }
    var keys := SortKeys(level, t, order);
    r := SortLevel(level, keys);
  }

  lemma NoSelfSame(imports: Imports, t: Table)
    requires ValidTable(imports, t)
    ensures NoSelf(t.deps) == t.deps
  {
    forall i | i in t.deps
      ensures t.deps[i] - {i} == t.deps[i]
    {
      assert t.deps[i] == UnitDeps(imports, t.members[i], t.of) - {i};
    }
  }

  lemma LevelReady(deps: Graph<SccId>, done: set<SccId>, level: set<SccId>)
    requires level == Next(deps, done) && done <= deps.Keys
    ensures forall i | i in level :: i in deps && i !in done && deps[i] <= done
    ensures Yielded(deps, done) == done + level
  {
  }

  /** Between two levels: what is listed and the level that comes next, empty at the end. */
  ghost predicate Sorting(hashes: map<ModId, Bytes>, t: Table, done: set<SccId>, level: set<SccId>,
      before: map<ModId, State>, top: seq<SccId>, dependents: map<SccId, seq<SccId>>, now: map<ModId, State>)
  {
    GivenOut(t.deps, done, top, level) && SortedSoFar(hashes, t, top, dependents, before, now)
  }

  function NoDependents(deps: Graph<SccId>): map<SccId, seq<SccId>> {
    map i | i in deps :: []
  }

  lemma SortStarts(hashes: map<ModId, Bytes>, t: Table, done: set<SccId>, level: set<SccId>, graph: map<ModId, State>)
    requires hashes.Keys == graph.Keys == t.of.Keys && GivenOut(t.deps, done, [], level)
    ensures Sorting(hashes, t, done, level, graph, [], NoDependents(t.deps), graph)
  {
  }

  /** Lists the units of a level, and finds the next level. */
  method SortAndAdvance(sorter: Sorter, level: set<SccId>, t: Table, graph: map<ModId, State>, order: map<ModId, nat>,
      h: Digest, ghost hashes: map<ModId, Bytes>, ghost before: map<ModId, State>, top: seq<SccId>,
      dependents: map<SccId, seq<SccId>>)
    returns (level1: set<SccId>, top1: seq<SccId>, dependents1: map<SccId, seq<SccId>>, graph1: map<ModId, State>)
    requires Storable(h) && LoadedGraph(before) && ValidTable(ImportsOf(before), t) && order.Keys == before.Keys
             && Acyclic(t.deps)
    requires hashes == TransHashes(h, ImportsOf(before))
    requires sorter.Valid() && sorter.deps == t.deps && level != {}
    requires Sorting(hashes, t, sorter.done, level, before, top, dependents, graph)
    modifies sorter
    ensures sorter.Valid() && t.deps.Keys - IdSet(top1) < t.deps.Keys - IdSet(top)
    ensures Sorting(hashes, t, sorter.done, level1, before, top1, dependents1, graph1)
  {
    top1, dependents1, graph1 := SortOneLevel(level, t, graph, order, h, before, top, dependents);
    FewerLeft(t.deps, top, level, top1);
    level1 := NextLevelOf(sorter, t, top1);
  }

  /** Lists the units level by level. */
  method SortUnits(t: Table, graph: map<ModId, State>, order: map<ModId, nat>, h: Digest)
    returns (top: seq<SccId>, dependents: map<SccId, seq<SccId>>, graph1: map<ModId, State>)
    requires Storable(h) && LoadedGraph(graph) && ValidTable(ImportsOf(graph), t) && order.Keys == graph.Keys
    requires Closed(t.deps) && Acyclic(t.deps)
    ensures InDependencyOrder(t.deps, top) && IdSet(top) == t.deps.Keys
    ensures Reversed(t.deps, dependents)
    ensures HashesSet(TransHashes(h, ImportsOf(graph)), t, t.deps.Keys, graph, graph1)
  {
    NoSelfSame(ImportsOf(graph), t);
    assert t.of.Keys == ImportsOf(graph).Keys;
    top, dependents, graph1 := SortLevels(t, graph, order, h, TransHashes(h, ImportsOf(graph)));
  }

  method SortLevels(t: Table, graph: map<ModId, State>, order: map<ModId, nat>, h: Digest,
      ghost hashes: map<ModId, Bytes>)
    returns (top: seq<SccId>, dependents: map<SccId, seq<SccId>>, graph1: map<ModId, State>)
    requires Storable(h) && LoadedGraph(graph) && ValidTable(ImportsOf(graph), t) && order.Keys == graph.Keys
    requires Closed(t.deps) && Acyclic(t.deps) && NoSelf(t.deps) == t.deps
    requires hashes == TransHashes(h, ImportsOf(graph)) && hashes.Keys == graph.Keys == t.of.Keys
    ensures InDependencyOrder(t.deps, top) && IdSet(top) == t.deps.Keys
    ensures Reversed(t.deps, dependents)
    ensures HashesSet(hashes, t, t.deps.Keys, graph, graph1)
  {
    var sorter, level := FirstLevel(t);
    top, dependents, graph1 := [], NoDependents(t.deps), graph;
    SortStarts(hashes, t, sorter.done, level, graph);
    while level != {}
      invariant fresh(sorter) && sorter.Valid()
      invariant Sorting(hashes, t, sorter.done, level, graph, top, dependents, graph1)
      decreases t.deps.Keys - IdSet(top)
    {
      level, top, dependents, graph1 := SortAndAdvance(sorter, level, t, graph1, order, h, hashes, graph, top,
          dependents);
    }
    AllSorted(hashes, t, sorter.done, level, top, dependents, graph, graph1);
  }

  lemma AllSorted(hashes: map<ModId, Bytes>, t: Table, done: set<SccId>, level: set<SccId>, top: seq<SccId>,
      dependents: map<SccId, seq<SccId>>, before: map<ModId, State>, now: map<ModId, State>)
    requires Sorting(hashes, t, done, level, before, top, dependents, now) && level == {}
    ensures IdSet(top) == t.deps.Keys && Reversed(t.deps, dependents)
    ensures InDependencyOrder(t.deps, top) && HashesSet(hashes, t, t.deps.Keys, before, now)
  {
    assert IdSet(top) == t.deps.Keys;
    StartLists(t.deps, dependents);
  }

  /** A sorter that has given out the first level. */
  method FirstLevel(t: Table) returns (sorter: Sorter, level: set<SccId>)
    requires Closed(t.deps) && Acyclic(t.deps) && NoSelf(t.deps) == t.deps
    ensures fresh(sorter) && sorter.Valid() && sorter.deps == t.deps
    ensures GivenOut(t.deps, sorter.done, [], level)
    ensures level != {} ==> level == Next(t.deps, {})
  {
    sorter := new Sorter(t.deps);
    level := NextLevelOf(sorter, t, []);
  }

  /** The units of a level: not listed yet, with all their dependencies listed. */
  ghost predicate LevelOf(deps: Graph<SccId>, top: seq<SccId>, level: set<SccId>) {
    forall i | i in level :: i in deps && i !in top && deps[i] <= IdSet(top)
  }

  /** The sorter has given out what is listed and one more level; an empty one when all is listed. */
  ghost predicate GivenOut(deps: Graph<SccId>, done: set<SccId>, top: seq<SccId>, level: set<SccId>) {
    LevelOf(deps, top, level) && done == IdSet(top) + level && (level == {} ==> done == deps.Keys)
  }

  lemma FewerLeft(deps: Graph<SccId>, top: seq<SccId>, level: set<SccId>, top1: seq<SccId>)
    requires LevelOf(deps, top, level) && level != {} && IdSet(top1) == IdSet(top) + level
    ensures deps.Keys - IdSet(top1) < deps.Keys - IdSet(top)
  {
    var i :| i in level;
    assert i in deps.Keys - IdSet(top) && i !in deps.Keys - IdSet(top1);
  }

  /** The next level, as given out by the sorter, empty when all units are listed. */
  method NextLevelOf(sorter: Sorter, ghost t: Table, ghost top: seq<SccId>) returns (level: set<SccId>)
    requires sorter.Valid() && sorter.deps == t.deps && sorter.done == IdSet(top) && Acyclic(t.deps)
    modifies sorter
    ensures sorter.Valid() && GivenOut(t.deps, sorter.done, top, level)
    ensures level != {} ==> level == Next(t.deps, IdSet(top))
  {
    var next := sorter.NextReady();
    if next.None? {
      level := {};
    } else {
      level := next.value;
      LevelReady(t.deps, IdSet(top), level);
    }
  }

  method SortOneLevel(level: set<SccId>, t: Table, graph: map<ModId, State>, order: map<ModId, nat>, h: Digest,
      ghost before: map<ModId, State>, top: seq<SccId>, dependents: map<SccId, seq<SccId>>)
    returns (top1: seq<SccId>, dependents1: map<SccId, seq<SccId>>, graph1: map<ModId, State>)
    requires Storable(h) && LoadedGraph(before) && ValidTable(ImportsOf(before), t) && order.Keys == before.Keys
    requires SortedSoFar(TransHashes(h, ImportsOf(before)), t, top, dependents, before, graph)
    requires LevelOf(t.deps, top, level)
    ensures SortedSoFar(TransHashes(h, ImportsOf(before)), t, top1, dependents1, before, graph1)
    ensures IdSet(top1) == IdSet(top) + level
  {
    var sortedLevel := ByOrder(level, t, order, ImportsOf(before));
    top1, dependents1, graph1 := AddLevel(t, sortedLevel, graph, h, before, top, dependents);
  }
}
