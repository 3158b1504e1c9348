// The order in which the modules of one import cycle are processed.
module Ordering {
  import opened Text
  import opened Wire
  import opened Reach
  import opened ImportHash
  import opened Incremental
  import opened SccTable
  import opened Progress
  import opened Trace
  import opened TopSort
  import opened Components

  /** The dependencies between modules of vs whose priority is below p. */
  ghost function Arcs(graph: map<ModId, State>, vs: set<ModId>, p: int): Imports
    requires vs <= graph.Keys
  {
    map m | m in vs :: set d | d in graph[m].dependencies && d in vs && Priority(graph[m].priorities, d) < p
  }

  lemma ArcsImportGraph(graph: map<ModId, State>, vs: set<ModId>, p: int)
    requires LoadedGraph(graph) && vs <= graph.Keys && p <= PRI_INDIRECT
    ensures ImportGraph(Arcs(graph, vs, p))
  {
    var g := Arcs(graph, vs, p);
    forall m | m in g
      ensures m !in g[m] && FitsStr(m)
    {
      assert m in ImportsOf(graph) && g[m] <= ImportsOf(graph)[m];
    }
  }

  /** Each reaches each, over arcs within vs of a priority below p. */
  ghost predicate Strong(graph: map<ModId, State>, vs: set<ModId>, p: int)
    requires vs <= graph.Keys
  {
    forall a, b | a in vs && b in vs && a != b :: Reaches(Arcs(graph, vs, p), a, b)
  }

  // Staying inside a component.

  ghost predicate Subgraph<V(!new)>(g: Graph<V>, h: Graph<V>) {
    forall v | v in g :: v in h && g[v] <= h[v]
  }

  /** sub has all edges of g within s. */
  ghost predicate Contains<V(!new)>(g: Graph<V>, s: set<V>, sub: Graph<V>) {
    forall v | v in s && v in g :: v in sub && g[v] * s <= sub[v]
  }

  lemma SubgraphReaches<V(!new)>(g: Graph<V>, h: Graph<V>, a: V, b: V)
    requires Subgraph(g, h) && Reaches(g, a, b)
    ensures Reaches(h, a, b)
  {
    var p :| WalkFromTo(g, p, a, b);
    assert WalkFromTo(h, p, a, b);
  }

  lemma WalkParts<V(!new)>(g: Graph<V>, p: seq<V>, a: V, b: V, k: nat)
    requires WalkFromTo(g, p, a, b) && k < |p|
    ensures k > 0 ==> Reaches(g, a, p[k])
    ensures k < |p| - 1 ==> Reaches(g, p[k], b)
  {
    if k > 0 { assert WalkFromTo(g, p[..k + 1], a, p[k]); }
    if k < |p| - 1 { assert WalkFromTo(g, p[k..], p[k], b); }
  }

  /** A walk between two vertices of one component does not leave it, even when the walk uses fewer edges. */
  lemma InsideReaches<V(!new)>(g: Graph<V>, h: Graph<V>, sub: Graph<V>, a: V, b: V)
    requires Subgraph(g, h) && Reaches(g, a, b) && Reaches(h, b, a)
    requires Contains(g, Component(h, a), sub)
    ensures Reaches(sub, a, b)
  {
    var p :| WalkFromTo(g, p, a, b);
    forall k | 0 <= k < |p|
      ensures p[k] in Component(h, a)
    {
      WalkParts(g, p, a, b, k);
      StaysInComponent(g, h, a, b, p[k], k > 0, k < |p| - 1);
    }
    forall k | 0 <= k < |p| - 1
      ensures p[k + 1] in sub[p[k]]
    {
      assert p[k + 1] in g[p[k]];
    }
    assert p[|p| - 1] in sub;
    assert WalkFromTo(sub, p, a, b);
  }

  lemma StaysInComponent<V(!new)>(g: Graph<V>, h: Graph<V>, a: V, b: V, x: V, later: bool, earlier: bool)
    requires Subgraph(g, h) && Reaches(h, b, a) && x in g && (!later ==> x == a) && (!earlier ==> x == b)
    requires (later ==> Reaches(g, a, x)) && (earlier ==> Reaches(g, x, b))
    ensures x in Component(h, a)
  {
    if later {
      SubgraphReaches(g, h, a, x);
      if earlier {
        SubgraphReaches(g, h, x, b);
        ReachesTransitive(h, x, b, a);
      }
    }
  }

  /** The members of a component reach each other within it. */
  lemma ComponentStrong(graph: map<ModId, State>, vs: set<ModId>, p: int, m: ModId)
    requires vs <= graph.Keys && m in vs
    ensures var s := Component(Arcs(graph, vs, p), m); s <= vs && Strong(graph, s, p)
  {
    var g := Arcs(graph, vs, p);
    var s := Component(g, m);
    forall a, b | a in s && b in s && a != b
      ensures Reaches(Arcs(graph, s, p), a, b)
    {
      ComponentsEqual(g, m, a);
      InsideReaches(g, g, Arcs(graph, s, p), a, b);
    }
  }

  // What the order respects.

  ghost predicate Before<T>(r: seq<T>, a: T, b: T) {
    exists i, j :: 0 <= i < j < |r| && r[i] == a && r[j] == b
  }

  /**
   * Whatever a module reaches over arcs of a priority below p comes before it, unless it can be
   * reached from there as well; and so for every p at once.
   */
  ghost predicate RespectsPriorities(graph: map<ModId, State>, vs: set<ModId>, priMax: int, r: seq<ModId>)
    requires vs <= graph.Keys
  {
    forall p, a, b {:trigger Reaches(Arcs(graph, vs, p), a, b)} | p <= priMax && a in vs && b in vs
        && Reaches(Arcs(graph, vs, p), a, b) && !Reaches(Arcs(graph, vs, p), b, a) ::
      Before(r, b, a)
  }

  /** The priorities below priMax of the arcs within vs. */
  ghost function Spread(graph: map<ModId, State>, vs: set<ModId>, priMax: int): set<int>
    requires vs <= graph.Keys
  {
    set m, d | m in vs && d in graph[m].dependencies && d in vs && Priority(graph[m].priorities, d) < priMax ::
      Priority(graph[m].priorities, d)
  }

  /** The spread of a strongly connected set of several modules has a maximum. */
  lemma SpreadNotEmpty(graph: map<ModId, State>, vs: set<ModId>, priMax: int, a: ModId, b: ModId)
    requires vs <= graph.Keys && Strong(graph, vs, priMax) && a in vs && b in vs && a != b
    ensures Spread(graph, vs, priMax) != {}
  {
    var g := Arcs(graph, vs, priMax);
    var d := FirstStep(g, a, b);
    assert Priority(graph[a].priorities, d) in Spread(graph, vs, priMax);
  }

  /** Without the largest priority there is less of a spread, so the recursion ends. */
  lemma SpreadFalls(graph: map<ModId, State>, vs: set<ModId>, priMax: int, sub: set<ModId>, max: int)
    requires sub <= vs <= graph.Keys && max in Spread(graph, vs, priMax)
    ensures max < priMax && Spread(graph, sub, max) < Spread(graph, vs, priMax)
  {
    assert max !in Spread(graph, sub, max);
  }

  /** With no priority between p and q it makes no difference which of them is the limit. */
  lemma SameArcs(graph: map<ModId, State>, vs: set<ModId>, p: int, q: int)
    requires vs <= graph.Keys && p <= q && forall x | x in Spread(graph, vs, q) :: x < p
    ensures Arcs(graph, vs, p) == Arcs(graph, vs, q)
  {
    forall m | m in vs
      ensures Arcs(graph, vs, p)[m] == Arcs(graph, vs, q)[m]
    {
      forall d | d in Arcs(graph, vs, q)[m]
        ensures d in Arcs(graph, vs, p)[m]
      {
        assert Priority(graph[m].priorities, d) in Spread(graph, vs, q);
      }
    }
  }

  lemma FewerArcs(graph: map<ModId, State>, vs: set<ModId>, p: int, q: int)
    requires vs <= graph.Keys && p <= q
    ensures Subgraph(Arcs(graph, vs, p), Arcs(graph, vs, q))
  {
  }

  /** Whatever is reached is reached over some arc. */
  lemma SomeArc(graph: map<ModId, State>, vs: set<ModId>, p: int, priMax: int, a: ModId, b: ModId) returns (x: int)
    requires vs <= graph.Keys && p <= priMax && Reaches(Arcs(graph, vs, p), a, b)
    ensures x in Spread(graph, vs, priMax) && x < p
  {
    var d := FirstStep(Arcs(graph, vs, p), a, b);
    x := Priority(graph[a].priorities, d);
  }

  /** When all arcs have the same priority, any order will do. */
  lemma UniformRespects(graph: map<ModId, State>, vs: set<ModId>, priMax: int, only: int, r: seq<ModId>)
    requires vs <= graph.Keys && Strong(graph, vs, priMax) && Spread(graph, vs, priMax) == {only}
    ensures RespectsPriorities(graph, vs, priMax, r)
  {
    forall p, a, b {:trigger Reaches(Arcs(graph, vs, p), a, b)} |
      p <= priMax && a in vs && b in vs && Reaches(Arcs(graph, vs, p), a, b)
      ensures Reaches(Arcs(graph, vs, p), b, a)
    {
      StillReached(graph, vs, priMax, only, p, a, b);
    }
  }

  /** Above the largest priority nothing is lost. */
  lemma StillReached(graph: map<ModId, State>, vs: set<ModId>, priMax: int, max: int, p: int, a: ModId, b: ModId)
    requires vs <= graph.Keys && Strong(graph, vs, priMax) && (forall x | x in Spread(graph, vs, priMax) :: x <= max)
    requires max < p <= priMax || Spread(graph, vs, priMax) == {max}
    requires p <= priMax && a in vs && b in vs && Reaches(Arcs(graph, vs, p), a, b)
    ensures Reaches(Arcs(graph, vs, p), b, a)
  {
    var x := SomeArc(graph, vs, p, priMax, a, b);
    SameArcs(graph, vs, p, priMax);
  }

  // Putting the orders of the components one behind the other.

  function Flat<T>(parts: seq<seq<T>>): seq<T> {
    if parts == [] then [] else Flat(parts[..|parts| - 1]) + parts[|parts| - 1]
  }

  lemma BeforeAppend<T>(a: seq<T>, b: seq<T>, x: T, y: T)
    ensures Before(a, x, y) ==> Before(a + b, x, y)
    ensures Before(b, x, y) ==> Before(a + b, x, y)
    ensures x in a && y in b ==> Before(a + b, x, y)
  {
    var all := a + b;
    if Before(a, x, y) {
      var i, j :| 0 <= i < j < |a| && a[i] == x && a[j] == y;
      assert all[i] == x && all[j] == y;
    }
    if Before(b, x, y) {
      var i, j :| 0 <= i < j < |b| && b[i] == x && b[j] == y;
      assert all[|a| + i] == x && all[|a| + j] == y;
    }
    if x in a && y in b {
      var i :| 0 <= i < |a| && a[i] == x;
      var j :| 0 <= j < |b| && b[j] == y;
      assert all[i] == x && all[|a| + j] == y;
    }
  }

  lemma {:induction false} FlatHas<T>(parts: seq<seq<T>>, x: T)
    ensures x in Flat(parts) <==> exists i :: 0 <= i < |parts| && x in parts[i]
  {
    if parts != [] {
      var n := |parts| - 1;
      FlatHas(parts[..n], x);
      if i :| 0 <= i < |parts| && x in parts[i] {
        assert i < n ==> parts[..n][i] == parts[i];
      }
    }
  }

  lemma {:induction false} FlatBefore<T>(parts: seq<seq<T>>, j: nat, k: nat, x: T, y: T)
    requires j <= k < |parts| && x in parts[j] && y in parts[k] && (j == k ==> Before(parts[j], x, y))
    ensures Before(Flat(parts), x, y)
  {
    var n := |parts| - 1;
    BeforeAppend(Flat(parts[..n]), parts[n], x, y);
    if k < n {
      FlatBefore(parts[..n], j, k, x, y);
    } else if j < n {
      assert x in parts[..n][j];
      FlatHas(parts[..n], x);
    }
  }

  lemma {:induction false} FlatDistinct<T>(parts: seq<seq<T>>)
    requires forall i | 0 <= i < |parts| :: Distinct(parts[i])
    requires forall i, j, x {:trigger x in parts[i], x in parts[j]} | 0 <= i < j < |parts|
             && x in parts[i] :: x !in parts[j]
    ensures Distinct(Flat(parts))
  {
    if parts != [] {
      var n := |parts| - 1;
      FlatDistinct(parts[..n]);
      forall x | x in parts[n]
        ensures x !in Flat(parts[..n])
      {
        FlatHas(parts[..n], x);
      }
      DistinctAppend(Flat(parts[..n]), parts[n]);
    }
  }

  lemma DistinctAppend<T>(a: seq<T>, b: seq<T>)
    requires Distinct(a) && Distinct(b) && forall x | x in b :: x !in a
    ensures Distinct(a + b)
  {
    var all := a + b;
    forall i, j | 0 <= i < j < |all|
      ensures all[i] != all[j]
    {
      if i < |a| <= j {
        assert all[j] == b[j - |a|] && all[i] == a[i] && b[j - |a|] in b;
      }
    }
  }

  // The order of a cycle from the orders of the components left when the arcs of the largest priority are dropped.

  /** The components of g, each after those that it depends on. */
  ghost predicate ComponentsInOrder(g: Imports, comps: seq<set<ModId>>) {
    && IsPartition(comps, g)
    && forall j, k, m, d {:trigger m in comps[j], d in comps[k]} |
         0 <= j < k < |comps| && m in comps[j] && m in g && d in g[m] :: d !in comps[k]
  }

  lemma ReachedEarlier(g: Imports, comps: seq<set<ModId>>, a: ModId, b: ModId, j: nat, k: nat)
    requires Closed(g) && ComponentsInOrder(g, comps) && j < |comps| && k < |comps|
    requires a in comps[k] && b in comps[j] && Reaches(g, a, b)
    ensures j <= k
  {
    var s := set x | x in g && !LaterThan(comps, k, x);
    forall v | v in g && !LaterThan(comps, k, v)
      ensures g[v] <= s
    {
      NotLater(g, comps, k, v);
    }
    OnlyIn(g, comps, k, a);
    ClosureLeast(g, a, s);
    assert b in s;
  }

  ghost predicate LaterThan(comps: seq<set<ModId>>, k: nat, x: ModId) {
    exists i :: k < i < |comps| && x in comps[i]
  }

  lemma PlaceOf(g: Imports, comps: seq<set<ModId>>, m: ModId) returns (k: nat)
    requires IsPartition(comps, g) && m in g
    ensures k < |comps| && m in comps[k] && comps[k] == Component(g, m)
  {
    k :| 0 <= k < |comps| && m in comps[k];
  }

  lemma OnlyIn(g: Imports, comps: seq<set<ModId>>, k: nat, x: ModId)
    requires IsPartition(comps, g) && k < |comps| && x in comps[k]
    ensures x in g && !LaterThan(comps, k, x)
  {
    assert forall i | k < i < |comps| :: comps[i] != comps[k];
  }

  lemma NotLater(g: Imports, comps: seq<set<ModId>>, k: nat, v: ModId)
    requires Closed(g) && ComponentsInOrder(g, comps) && v in g && !LaterThan(comps, k, v)
    ensures forall d | d in g[v] :: d in g && !LaterThan(comps, k, d)
  {
    var i :| 0 <= i < |comps| && v in comps[i];
    assert i <= k;
    forall d | d in g[v]
      ensures d in g && !LaterThan(comps, k, d)
    {
      assert forall l | k < l < |comps| :: d !in comps[l];
    }
  }

  /** The order of one component. */
  ghost predicate PartOk(graph: map<ModId, State>, comp: set<ModId>, max: int, part: seq<ModId>)
    requires comp <= graph.Keys
  {
    Distinct(part) && (forall m :: m in part <==> m in comp) && RespectsPriorities(graph, comp, max, part)
  }

  /** What the recursion gets and gives. */
  ghost predicate PartsOk(graph: map<ModId, State>, vs: set<ModId>, max: int, comps: seq<set<ModId>>,
      parts: seq<seq<ModId>>)
    requires vs <= graph.Keys
  {
    && ComponentsInOrder(Arcs(graph, vs, max), comps) && |parts| <= |comps|
    && forall i {:trigger parts[i]} | 0 <= i < |parts| ::
       comps[i] <= graph.Keys && PartOk(graph, comps[i], max, parts[i])
  }

  lemma PartsRespect(graph: map<ModId, State>, vs: set<ModId>, priMax: int, max: int, comps: seq<set<ModId>>,
      parts: seq<seq<ModId>>, p: int, a: ModId, b: ModId)
    requires vs <= graph.Keys && PartsOk(graph, vs, max, comps, parts) && |parts| == |comps|
             && Closed(Arcs(graph, vs, max))
    requires p <= max && a in vs && b in vs
    requires Reaches(Arcs(graph, vs, p), a, b) && !Reaches(Arcs(graph, vs, p), b, a)
    ensures Before(Flat(parts), b, a)
  {
    var g, h := Arcs(graph, vs, p), Arcs(graph, vs, max);
    FewerArcs(graph, vs, p, max);
    SubgraphReaches(g, h, a, b);
    var k := PlaceOf(h, comps, a);
    var j := PlaceOf(h, comps, b);
    ReachedEarlier(h, comps, a, b, j, k);
    assert PartOk(graph, comps[k], max, parts[k]) && PartOk(graph, comps[j], max, parts[j]);
    if j == k {
      SameComponentRespects(graph, vs, max, comps[k], parts[k], p, a, b);
    }
    FlatBefore(parts, j, k, b, a);
  }

  lemma SameComponentRespects(graph: map<ModId, State>, vs: set<ModId>, max: int, comp: set<ModId>, part: seq<ModId>,
      p: int, a: ModId, b: ModId)
    requires comp <= vs <= graph.Keys && a in comp && b in comp && comp == Component(Arcs(graph, vs, max), a)
    requires p <= max && RespectsPriorities(graph, comp, max, part)
    requires Reaches(Arcs(graph, vs, p), a, b) && !Reaches(Arcs(graph, vs, p), b, a)
    ensures Before(part, b, a)
  {
    var g, h, sub := Arcs(graph, vs, p), Arcs(graph, vs, max), Arcs(graph, comp, p);
    FewerArcs(graph, vs, p, max);
    InsideReaches(g, h, sub, a, b);
    if Reaches(sub, b, a) {
      SubgraphReaches(sub, g, b, a);
    }
  }

  lemma PartsCombine(graph: map<ModId, State>, vs: set<ModId>, priMax: int, max: int, comps: seq<set<ModId>>,
      parts: seq<seq<ModId>>)
    requires vs <= graph.Keys && PartsOk(graph, vs, max, comps, parts) && |parts| == |comps|
             && Closed(Arcs(graph, vs, max))
    requires Strong(graph, vs, priMax) && max < priMax && forall x | x in Spread(graph, vs, priMax) :: x <= max
    ensures PartOk(graph, vs, priMax, Flat(parts))
  {
    forall p, a, b {:trigger Reaches(Arcs(graph, vs, p), a, b)} | p <= priMax && a in vs && b in vs
        && Reaches(Arcs(graph, vs, p), a, b) && !Reaches(Arcs(graph, vs, p), b, a)
      ensures Before(Flat(parts), b, a)
    {
      if p <= max {
        PartsRespect(graph, vs, priMax, max, comps, parts, p, a, b);
      } else {
        StillReached(graph, vs, priMax, max, p, a, b);
      }
    }
    PartsListAll(graph, vs, max, comps, parts);
  }

  lemma PartsListAll(graph: map<ModId, State>, vs: set<ModId>, max: int, comps: seq<set<ModId>>, parts: seq<seq<ModId>>)
    requires vs <= graph.Keys && PartsOk(graph, vs, max, comps, parts) && |parts| == |comps|
    ensures Distinct(Flat(parts)) && forall m :: m in Flat(parts) <==> m in vs
  {
    var h := Arcs(graph, vs, max);
    forall i, j, m {:trigger m in parts[i], m in parts[j]} | 0 <= i < j < |parts| && m in parts[i]
      ensures m !in parts[j]
    {
      assert m in comps[i];
      OnlyIn(h, comps, i, m);
      assert m !in comps[j];
    }
    FlatDistinct(parts);
    forall m
      ensures m in Flat(parts) <==> m in vs
    {
      FlatHas(parts, m);
      if m in vs {
        var k := PlaceOf(h, comps, m);
        assert m in parts[k];
      }
      if k :| 0 <= k < |parts| && m in parts[k] {
        assert m in comps[k] && m in h;
      }
    }
  }

  // The algorithm.

  /** Finds the strongly connected components of any graph of modules. */
  ghost predicate FindsCycles(cycles: Imports -> seq<set<ModId>>) {
    forall g {:trigger cycles(g)} | ImportGraph(g) :: IsPartition(cycles(g), g)
  }

  method PriSpread(graph: map<ModId, State>, ascc: set<ModId>, priMax: int) returns (priSpread: set<int>)
    requires ascc <= graph.Keys
    ensures priSpread == Spread(graph, ascc, priMax)
  {
    priSpread := {};
    var left := ascc;
    while left != {}
      invariant left <= ascc
      invariant priSpread == SpreadFrom(graph, ascc - left, ascc, priMax)
      decreases left
    {
      var id :| id in left;
      var state := graph[id];
      var ofId: set<int> := {};
      for k := 0 to |state.dependencies|
        invariant ofId == PrioritiesOf(state, state.dependencies[..k], ascc, priMax)
      {
        var dep := state.dependencies[k];
        OneMoreDep(state, k, ascc, priMax);
        if dep in ascc {
          var pri := Priority(state.priorities, dep);
          if pri < priMax {
            ofId := ofId + {pri};
          }
        }
      }
      assert state.dependencies[..|state.dependencies|] == state.dependencies;
      assert ascc - (left - {id}) == (ascc - left) + {id};
      priSpread, left := priSpread + ofId, left - {id};
    }
    assert ascc - left == ascc;
    SpreadTogether(graph, ascc, priMax);
  }

  lemma SpreadTogether(graph: map<ModId, State>, vs: set<ModId>, priMax: int)
    requires vs <= graph.Keys
    ensures SpreadFrom(graph, vs, vs, priMax) == Spread(graph, vs, priMax)
  {
    forall x | x in Spread(graph, vs, priMax)
      ensures x in SpreadFrom(graph, vs, vs, priMax)
    {
      var m, d :| m in vs && d in graph[m].dependencies && d in vs && Priority(graph[m].priorities, d) == x
          && x < priMax;
      assert x in PrioritiesOf(graph[m], graph[m].dependencies, vs, priMax);
    }
    forall x | x in SpreadFrom(graph, vs, vs, priMax)
      ensures x in Spread(graph, vs, priMax)
    {
      var m :| m in vs && x in PrioritiesOf(graph[m], graph[m].dependencies, vs, priMax);
      var d :| d in graph[m].dependencies && d in vs && Priority(graph[m].priorities, d) == x && x < priMax;
    }
  }

  ghost function PrioritiesOf(st: State, deps: seq<ModId>, vs: set<ModId>, priMax: int): set<int> {
    set d | d in deps && d in vs && Priority(st.priorities, d) < priMax :: Priority(st.priorities, d)
  }

  ghost function SpreadFrom(graph: map<ModId, State>, from: set<ModId>, vs: set<ModId>, priMax: int): set<int>
    requires from <= graph.Keys
  {
    set m, x | m in from && x in PrioritiesOf(graph[m], graph[m].dependencies, vs, priMax) :: x
  }

  lemma OneMoreDep(st: State, k: nat, vs: set<ModId>, priMax: int)
    requires k < |st.dependencies|
    ensures var d := st.dependencies[k];
            PrioritiesOf(st, st.dependencies[..k + 1], vs, priMax)
            == PrioritiesOf(st, st.dependencies[..k], vs, priMax)
               + if d in vs && Priority(st.priorities, d) < priMax then {Priority(st.priorities, d)} else {}
  {
  }

  lemma SomePriority(s: set<int>)
    requires s != {}
    ensures exists x: int :: x in s
  {
    assert (forall x: int :: x !in s) ==> s == {};
  }

  lemma TheOnly(s: set<int>) returns (only: int)
    requires |s| == 1
    ensures s == {only}
  {
    SomePriority(s);
    only :| only in s;
    assert |s - {only}| == 0;
    assert s - {only} == {};
  }

  method Largest(s: set<int>) returns (max: int)
    requires s != {}
    ensures max in s && forall x | x in s :: x <= max
  {
    SomePriority(s);
    max :| max in s;
    var left := s - {max};
    while left != {}
      invariant left <= s && max in s && forall x | x in s && x !in left :: x <= max
      decreases left
    {
      SomePriority(left);
      var x :| x in left;
      left := left - {x};
      if max < x {
        max := x;
      }
    }
  }

  // What the order is, said without reference to how cycles are found.

  ghost predicate IsLatest<T>(x: T, s: set<T>, key: T -> int) {
    x in s && forall y | y in s :: key(y) <= key(x)
  }

  lemma {:induction false} LatestExists<T>(s: set<T>, key: T -> int)
    requires s != {}
    ensures exists x :: IsLatest(x, s, key)
  {
    var y :| y in s;
    if s == {y} {
      assert IsLatest(y, s, key);
    } else {
      LatestExists(s - {y}, key);
      var z :| IsLatest(z, s - {y}, key);
      assert IsLatest(if key(y) <= key(z) then z else y, s, key);
    }
  }

  /** The elements, those with larger keys first. */
  ghost function LatestFirst<T>(s: set<T>, key: T -> int): seq<T> {
    if s == {} then []
    else
      LatestExists(s, key);
      var x :| IsLatest(x, s, key);
      [x] + LatestFirst(s - {x}, key)
  }

  ghost predicate KeysDiffer<T(!new)>(s: set<T>, key: T -> int) {
    forall x, y | x in s && y in s && key(x) == key(y) :: x == y
  }

  ghost predicate Falling<T>(r: seq<T>, key: T -> int) {
    forall i, j | 0 <= i < j < |r| :: key(r[i]) >= key(r[j])
  }

  lemma LatestUnfold<T>(s: set<T>, key: T -> int) returns (x: T)
    requires s != {}
    ensures IsLatest(x, s, key) && LatestFirst(s, key) == [x] + LatestFirst(s - {x}, key)
  {
    x := LatestFirst(s, key)[0];
  }

  lemma RestOfList<T(!new)>(s: set<T>, r: seq<T>)
    requires Distinct(r) && ToSet(r) == s && r != []
    ensures r[0] in s && Distinct(r[1..]) && ToSet(r[1..]) == s - {r[0]}
  {
    var rest := r[1..];
    assert r == [r[0]] + rest;
    forall y
      ensures y in ToSet(rest) <==> y in s - {r[0]}
    {
      assert y in r <==> y in s;
      if y in rest {
        var j :| 0 <= j < |rest| && rest[j] == y;
        assert r[j + 1] == y;
      }
    }
  }

  /** With different keys there is just one such list. */
  lemma {:induction false} OnlyOneList<T(!new)>(s: set<T>, key: T -> int, r: seq<T>)
    requires Distinct(r) && ToSet(r) == s && Falling(r, key) && KeysDiffer(s, key)
    ensures r == LatestFirst(s, key)
    decreases |r|
  {
    if r == [] {
      assert s == {};
    } else {
      RestOfList(s, r);
      FirstIsLatest(s, key, r);
      var x := LatestUnfold(s, key);
      assert x == r[0];
      OnlyOneList(s - {x}, key, r[1..]);
      assert r == [r[0]] + r[1..];
    }
  }

  lemma FirstIsLatest<T(!new)>(s: set<T>, key: T -> int, r: seq<T>)
    requires ToSet(r) == s && Falling(r, key) && r != []
    ensures IsLatest(r[0], s, key)
  {
    forall y | y in s
      ensures key(y) <= key(r[0])
    {
      assert y in ToSet(r);
      var j :| 0 <= j < |r| && r[j] == y;
    }
  }

  /** The components of what is left whose arcs lead out of them only to what is done. */
  ghost function NextComponents(g: Imports, done: set<ModId>): set<set<ModId>> {
    set m | m in g && m !in done && LeadsTo(g, Component(g, m), done) :: Component(g, m)
  }

  ghost predicate LeadsTo(g: Imports, comp: set<ModId>, done: set<ModId>) {
    forall x, d | x in comp && x in g && d in g[x] :: d in comp || d in done
  }

  ghost function MembersIn(comps: set<set<ModId>>): set<ModId> {
    set c, m | c in comps && m in c :: m
  }

  /** The order number of the module of a component that was encountered first. */
  ghost function FirstSeen(order: map<ModId, nat>): set<ModId> -> int {
    comp => if comp <= order.Keys && exists n: nat :: IsLeastOrder(n, comp, order)
            then var n: nat :| IsLeastOrder(n, comp, order); n else 0
  }

  lemma FirstSeenIs(order: map<ModId, nat>, comp: set<ModId>, n: nat)
    requires comp <= order.Keys && IsLeastOrder(n, comp, order)
    ensures FirstSeen(order)(comp) == n
  {
    assert forall k: nat | IsLeastOrder(k, comp, order) :: k == n;
  }

  /** Level by level; within a level, components encountered later come first. */
  ghost function LevelList(g: Imports, order: map<ModId, nat>, done: set<ModId>): seq<set<ModId>>
    decreases g.Keys - done
  {
    var next := NextComponents(g, done);
    if next == {} then []
    else
      NextNotDone(g, done);
      LatestFirst(next, FirstSeen(order)) + LevelList(g, order, done + MembersIn(next))
  }

  lemma NextNotDone(g: Imports, done: set<ModId>)
    ensures NextComponents(g, done) != {} ==> g.Keys - (done + MembersIn(NextComponents(g, done))) < g.Keys - done
  {
    if c :| c in NextComponents(g, done) {
      var m :| m in g && m !in done && c == Component(g, m);
      assert m in c && m in MembersIn(NextComponents(g, done));
    }
  }

  ghost function MaxOf(s: set<int>): int
    requires s != {}
  {
    LatestExists(s, (x: int) => x);
    var x :| IsLatest(x, s, (x: int) => x);
    x
  }

  /** The order numbers of modules, taken this many times. */
  ghost function Seen(order: map<ModId, nat>, sign: int): ModId -> int {
    m => if m in order then sign * order[m] else 0
  }

  /** The order of a strongly connected set of modules. */
  ghost function OrderOf(graph: map<ModId, State>, vs: set<ModId>, priMax: int, order: map<ModId, nat>): seq<ModId>
    requires vs <= graph.Keys
    decreases Spread(graph, vs, priMax), 1, 0
  {
    var spread := Spread(graph, vs, priMax);
    if |vs| <= 1 || |spread| <= 1 then LatestFirst(vs, Seen(order, 1))
    else
      var max := MaxOf(spread);
      OrdersOf(graph, vs, priMax, max, order, LevelList(Arcs(graph, vs, max), order, {}))
  }

  /** The orders of these parts, one behind the other. */
  ghost function OrdersOf(graph: map<ModId, State>, vs: set<ModId>, priMax: int, max: int, order: map<ModId, nat>,
      comps: seq<set<ModId>>): seq<ModId>
    requires vs <= graph.Keys && max in Spread(graph, vs, priMax)
    decreases Spread(graph, vs, priMax), 0, |comps|
  {
    if comps == [] then []
    else
      var n := |comps| - 1;
      var before := OrdersOf(graph, vs, priMax, max, order, comps[..n]);
      if comps[n] <= vs then
        SpreadFalls(graph, vs, priMax, comps[n], max);
        before + OrderOf(graph, comps[n], max, order)
      else before
  }

  /** Sorts modules so that those encountered later come first. */
  method SortByOrder(ids: set<ModId>, order: map<ModId, nat>) returns (r: seq<ModId>)
    requires ids <= order.Keys
    ensures Distinct(r) && forall m :: m in r <==> m in ids
    ensures Descending(r, order)
  {
    r := SortLevel(ids, order);
  }

  ghost predicate Descending(r: seq<ModId>, order: map<ModId, nat>) {
    forall i, j | 0 <= i < j < |r| && r[i] in order && r[j] in order :: order[r[i]] >= order[r[j]]
  }

  lemma LevelInOrder(deps: Graph<SccId>, top: seq<SccId>, level: seq<SccId>, k: nat)
    requires InDependencyOrder(deps, top) && Distinct(level) && k <= |level|
    requires forall i | i in level :: i in deps && i !in top && deps[i] <= IdSet(top)
    ensures InDependencyOrder(deps, top + level[..k])
  {
    if k == 0 {
      assert top + level[..0] == top;
    } else {
      LevelInOrder(deps, top, level, k - 1);
      LevelStep(deps, top, level, k - 1);
      OrderExtends(deps, top + level[..k - 1], level[k - 1]);
      assert top + level[..k] == (top + level[..k - 1]) + [level[k - 1]];
    }
  }

  /** The units of a table in dependency order are the components in order. */
  lemma UnitsInOrder(g: Imports, t: Table, top: seq<SccId>, comps: seq<set<ModId>>)
    requires ValidTable(g, t) && InDependencyOrder(t.deps, top) && IdSet(top) == t.deps.Keys
    requires |comps| == |top| && forall i | 0 <= i < |top| :: top[i] in t.members && comps[i] == t.members[top[i]]
    ensures ComponentsInOrder(g, comps)
  {
    forall j, k, m, d {:trigger m in comps[j], d in comps[k]} |
      0 <= j < k < |comps| && m in comps[j] && m in g && d in g[m]
      ensures d !in comps[k]
    {
      NotInLater(g, t, top, j, k, m, d);
    }
    UnitsPartition(g, t, top, comps);
  }

  lemma UnitsPartition(g: Imports, t: Table, top: seq<SccId>, comps: seq<set<ModId>>)
    requires ValidTable(g, t) && Distinct(top) && IdSet(top) == t.deps.Keys
    requires |comps| == |top| && forall i | 0 <= i < |top| :: top[i] in t.members && comps[i] == t.members[top[i]]
    ensures IsPartition(comps, g)
  {
    forall i | 0 <= i < |comps|
      ensures UnitListed(g, t, top[i], comps[i])
    {
      UnitIsComponent(g, t, top[i]);
    }
    forall m | m in g
      ensures exists k :: 0 <= k < |comps| && m in comps[k]
    {
      UnitPlace(g, t, top, comps, m);
    }
    forall j, k | 0 <= j < k < |comps|
      ensures comps[j] != comps[k]
    {
      UnitsDiffer(g, t, top[j], top[k]);
    }
    ListedPartition(g, t, top, comps);
  }

  lemma ListedPartition(g: Imports, t: Table, top: seq<SccId>, comps: seq<set<ModId>>)
    requires |comps| == |top| && forall i | 0 <= i < |top| :: UnitListed(g, t, top[i], comps[i])
    requires forall m | m in g :: exists k :: 0 <= k < |comps| && m in comps[k]
    requires forall j, k | 0 <= j < k < |comps| :: comps[j] != comps[k]
    ensures IsPartition(comps, g)
  {
    assert forall i, m {:trigger m in comps[i]} | 0 <= i < |comps|
        && m in comps[i] :: UnitListed(g, t, top[i], comps[i]);
  }

  lemma UnitPlace(g: Imports, t: Table, top: seq<SccId>, comps: seq<set<ModId>>, m: ModId)
    requires ValidTable(g, t) && IdSet(top) == t.deps.Keys && m in g
    requires |comps| == |top| && forall i | 0 <= i < |top| :: top[i] in t.members && comps[i] == t.members[top[i]]
    ensures exists k :: 0 <= k < |comps| && m in comps[k]
  {
    assert t.of[m] in IdSet(top);
    var k :| 0 <= k < |top| && top[k] == t.of[m];
    assert m in comps[k];
  }

  lemma UnitsDiffer(g: Imports, t: Table, i: SccId, j: SccId)
    requires ValidTable(g, t) && i in t.members && j in t.members && i != j
    ensures t.members[i] != t.members[j]
  {
    var m := SomeMember(g, t, i);
    assert t.of[m] == i;
  }

  ghost predicate UnitListed(g: Imports, t: Table, i: SccId, comp: set<ModId>) {
    comp != {} && comp <= g.Keys && forall m | m in comp :: comp == Component(g, m)
  }

  lemma UnitIsComponent(g: Imports, t: Table, i: SccId)
    requires ValidTable(g, t) && i in t.members
    ensures UnitListed(g, t, i, t.members[i])
  {
    var x := SomeMember(g, t, i);
    forall m | m in t.members[i]
      ensures m in g && t.members[i] == Component(g, m)
    {
      assert t.of[m] == i;
    }
  }

  lemma NotInLater(g: Imports, t: Table, top: seq<SccId>, j: nat, k: nat, m: ModId, d: ModId)
    requires ValidTable(g, t) && InDependencyOrder(t.deps, top) && j < k < |top| && top[j] in t.members
             && top[k] in t.members
    requires m in t.members[top[j]] && m in g && d in g[m]
    ensures d !in t.members[top[k]]
  {
    var i := t.of[d];
    assert t.of[m] == top[j];
    assert i in UnitDeps(g, t.members[top[j]], t.of);
    assert i == top[j] || i in t.deps[top[j]];
    assert i in IdSet(top[..j]) || i == top[j];
    NotAmong(top, j, k);
  }

  lemma NotAmong(top: seq<SccId>, j: nat, k: nat)
    requires Distinct(top) && j < k < |top|
    ensures top[k] != top[j] && top[k] !in IdSet(top[..j])
  {
  }

  /** A level has what depends only on earlier levels, units with modules encountered later first. */
  ghost predicate LevelSorted(t: Table, order: map<ModId, nat>, before: set<SccId>, level: seq<SccId>) {
    && IdSet(level) == Next(t.deps, before)
    && forall j, k, n1, n2 |
         0 <= j < k < |level| && LeastOf(t, order, level[j], n1) && LeastOf(t, order, level[k], n2) ::
         n1 >= n2
  }

  ghost predicate LeastOf(t: Table, order: map<ModId, nat>, i: SccId, n: nat) {
    i in t.members && t.members[i] <= order.Keys && IsLeastOrder(n, t.members[i], order)
  }

  ghost predicate LevelsSorted(t: Table, order: map<ModId, nat>, levels: seq<seq<SccId>>) {
    forall n {:trigger LevelSorted(t, order, IdSet(Flat(levels[..n])), levels[n])} | 0 <= n < |levels| ::
      LevelSorted(t, order, IdSet(Flat(levels[..n])), levels[n])
  }

  lemma OneLevelMore(t: Table, order: map<ModId, nat>, levels: seq<seq<SccId>>, level: seq<SccId>)
    requires LevelsSorted(t, order, levels) && LevelSorted(t, order, IdSet(Flat(levels)), level)
    ensures LevelsSorted(t, order, levels + [level]) && Flat(levels + [level]) == Flat(levels) + level
  {
    var all := levels + [level];
    forall n | 0 <= n < |all|
      ensures LevelSorted(t, order, IdSet(Flat(all[..n])), all[n])
    {
      if n < |levels| {
        assert all[..n] == levels[..n] && LevelSorted(t, order, IdSet(Flat(levels[..n])), levels[n]);
      } else {
        assert all[..n] == levels;
      }
    }
    assert all[..|levels|] == levels;
  }

  /** Lists the units level by level. */
  method TopSorted(t: Table, order: map<ModId, nat>, ghost g: Imports)
    returns (top: seq<SccId>, ghost levels: seq<seq<SccId>>)
    requires ValidTable(g, t) && g.Keys <= order.Keys && Closed(t.deps) && Acyclic(t.deps)
    ensures InDependencyOrder(t.deps, top) && IdSet(top) == t.deps.Keys
    ensures top == Flat(levels) && LevelsSorted(t, order, levels)
  {
    NoSelfSame(g, t);
    var sorter, level := FirstLevel(t);
    top, levels := [], [];
    NothingSorted(t, order, sorter.done, level);
    while level != {}
      invariant fresh(sorter) && sorter.Valid() && sorter.deps == t.deps
      invariant TopSoFar(t, order, sorter.done, level, top, levels)
      decreases t.deps.Keys - IdSet(top)
    {
      level, top, levels := SortOneMore(sorter, t, order, g, level, top, levels);
    }
    EndsSorted(t, order, sorter.done, level, top, levels);
  }

  lemma NothingSorted(t: Table, order: map<ModId, nat>, done: set<SccId>, level: set<SccId>)
    requires GivenOut(t.deps, done, [], level) && (level != {} ==> level == Next(t.deps, {}))
    ensures TopSoFar(t, order, done, level, [], [])
  {
    assert IdSet([]) == {};
  }

  lemma EndsSorted(t: Table, order: map<ModId, nat>, done: set<SccId>, level: set<SccId>, top: seq<SccId>,
      levels: seq<seq<SccId>>)
    requires TopSoFar(t, order, done, level, top, levels) && level == {}
    ensures IdSet(top) == t.deps.Keys
  {
    assert IdSet(top) + level == IdSet(top);
  }

  /** Appends a level and finds the next one. */
  method SortOneMore(sorter: Sorter, t: Table, order: map<ModId, nat>, ghost g: Imports, level: set<SccId>,
      top: seq<SccId>, ghost levels: seq<seq<SccId>>)
    returns (level1: set<SccId>, top1: seq<SccId>, ghost levels1: seq<seq<SccId>>)
    requires ValidTable(g, t) && g.Keys <= order.Keys && Acyclic(t.deps) && sorter.Valid() && sorter.deps == t.deps
    requires TopSoFar(t, order, sorter.done, level, top, levels) && level != {}
    modifies sorter
    ensures sorter.Valid() && TopSoFar(t, order, sorter.done, level1, top1, levels1)
    ensures t.deps.Keys - IdSet(top1) < t.deps.Keys - IdSet(top)
  {
    top1, levels1 := AppendSorted(t, order, g, top, level, levels);
    FewerLeft(t.deps, top, level, top1);
    level1 := NextLevelOf(sorter, t, top1);
  }

  ghost predicate TopSoFar(t: Table, order: map<ModId, nat>, done: set<SccId>, level: set<SccId>, top: seq<SccId>,
      levels: seq<seq<SccId>>)
  {
    && InDependencyOrder(t.deps, top) && GivenOut(t.deps, done, top, level)
    && (level != {} ==> level == Next(t.deps, IdSet(top)))
    && top == Flat(levels) && LevelsSorted(t, order, levels)
  }

  /** Appends one level. */
  method AppendSorted(t: Table, order: map<ModId, nat>, ghost g: Imports, top: seq<SccId>, level: set<SccId>,
      ghost levels: seq<seq<SccId>>)
    returns (r: seq<SccId>, ghost levels1: seq<seq<SccId>>)
    requires ValidTable(g, t) && g.Keys <= order.Keys
    requires InDependencyOrder(t.deps, top) && LevelOf(t.deps, top, level) && level == Next(t.deps, IdSet(top))
    requires top == Flat(levels) && LevelsSorted(t, order, levels)
    ensures InDependencyOrder(t.deps, r) && IdSet(r) == IdSet(top) + level
    ensures r == Flat(levels1) && LevelsSorted(t, order, levels1)
  {
    var sortedLevel := ByOrder(level, t, order, g);
    r := top + sortedLevel;
    LevelInOrder(t.deps, top, sortedLevel, |sortedLevel|);
    assert sortedLevel[..|sortedLevel|] == sortedLevel;
    assert IdSet(sortedLevel) == level;
    levels1 := levels + [sortedLevel];
    OneLevelMore(t, order, levels, sortedLevel);
  }

  /** The components left by the arcs below priMax, each after those it depends on. */
  method SortedComponentsInner(graph: map<ModId, State>, vertices: set<ModId>, priMax: int, order: map<ModId, nat>,
      cycles: Imports -> seq<set<ModId>>)
    returns (comps: seq<set<ModId>>, ghost t: Table, ghost levels: seq<seq<SccId>>)
    requires LoadedGraph(graph) && vertices <= graph.Keys && priMax <= PRI_INDIRECT && graph.Keys <= order.Keys
    requires FindsCycles(cycles)
    ensures ComponentsInOrder(Arcs(graph, vertices, priMax), comps)
    ensures ValidTable(Arcs(graph, vertices, priMax), t) && LevelsSorted(t, order, levels)
    ensures IdSet(Flat(levels)) == t.members.Keys && comps == MembersOf(t, Flat(levels))
    ensures OrdersDiffer(order) ==> comps == LevelList(Arcs(graph, vertices, priMax), order, {})
  {
    ghost var g := Arcs(graph, vertices, priMax);
    ArcsImportGraph(graph, vertices, priMax);
    var edges := map id | id in vertices :: DepsFiltered(graph, vertices, id, priMax);
    EdgesAreArcs(graph, vertices, priMax, edges);
    SetsAreGraph(edges, g);
    var table := PrepareSccsFull(cycles(SetsOf(edges)), edges, g);
    TableAcyclic(g, table);
    var top;
    top, levels := TopSorted(table, order, g);
    comps, t := MembersOf(table, top), table;
    UnitsInOrder(g, t, top, comps);
    if OrdersDiffer(order) {
      LevelsAreList(g, t, order, levels, 0);
      assert levels[0..] == levels && levels[..0] == [];
      assert IdSet(Flat(levels[..0])) == {} && ModulesOf(t, {}) == {};
    }
  }

  /** The members of the units of a list. */
  function MembersOf(t: Table, top: seq<SccId>): (comps: seq<set<ModId>>)
    requires IdSet(top) <= t.members.Keys
    ensures |comps| == |top| && forall i | 0 <= i < |top| :: top[i] in t.members && comps[i] == t.members[top[i]]
  {
    assert forall i | 0 <= i < |top| :: top[i] in IdSet(top);
    seq(|top|, i requires 0 <= i < |top| => t.members[top[i]])
  }

  function SetsOf(edges: map<ModId, seq<ModId>>): Imports {
    map id | id in edges :: set d | d in edges[id]
  }

  lemma SetsAreGraph(edges: map<ModId, seq<ModId>>, g: Imports)
    requires edges.Keys == g.Keys && forall m | m in edges :: ToSet(edges[m]) == g[m]
    ensures SetsOf(edges) == g
  {
    forall m | m in g
      ensures SetsOf(edges)[m] == g[m]
    {
      assert ToSet(edges[m]) == g[m];
      assert forall d :: d in SetsOf(edges)[m] <==> d in edges[m];
    }
  }

  lemma EdgesAreArcs(graph: map<ModId, State>, vs: set<ModId>, p: int, edges: map<ModId, seq<ModId>>)
    requires vs <= graph.Keys && edges == map id | id in vs :: DepsFiltered(graph, vs, id, p)
    ensures edges.Keys == vs && forall m | m in edges :: ToSet(edges[m]) == Arcs(graph, vs, p)[m]
  {
  }

  /** No two modules were encountered at the same time. */
  ghost predicate OrdersDiffer(order: map<ModId, nat>) {
    forall a, b | a in order && b in order && order[a] == order[b] :: a == b
  }

  ghost function UnitSets(t: Table, ids: set<SccId>): set<set<ModId>> {
    set i | i in ids && i in t.members :: t.members[i]
  }

  /** The next units of a table are the next components. */
  lemma NextUnits(g: Imports, t: Table, done: set<SccId>)
    requires ValidTable(g, t)
    ensures NextComponents(g, ModulesOf(t, done)) == UnitSets(t, Next(t.deps, done))
  {
    var mods := ModulesOf(t, done);
    forall c | c in NextComponents(g, mods)
      ensures c in UnitSets(t, Next(t.deps, done))
    {
      var m :| m in g && m !in mods && LeadsTo(g, Component(g, m), mods) && c == Component(g, m);
      NextUnit(g, t, done, m);
    }
    forall i | i in Next(t.deps, done)
      ensures t.members[i] in NextComponents(g, mods)
    {
      UnitNext(g, t, done, i);
    }
  }

  lemma NextUnit(g: Imports, t: Table, done: set<SccId>, m: ModId)
    requires ValidTable(g, t) && m in g && m !in ModulesOf(t, done) && LeadsTo(g, Component(g, m), ModulesOf(t, done))
    ensures t.of[m] in Next(t.deps, done) && t.members[t.of[m]] == Component(g, m)
  {
    var i := t.of[m];
    forall j | j in t.deps[i]
      ensures j in done
    {
      assert j in UnitDeps(g, t.members[i], t.of);
      var x, d :| x in t.members[i] && x in g && d in g[x] && d in t.of && t.of[d] == j;
      assert d in ModulesOf(t, done);
    }
  }

  lemma UnitNext(g: Imports, t: Table, done: set<SccId>, i: SccId)
    requires ValidTable(g, t) && i in Next(t.deps, done)
    ensures i in t.members && t.members[i] in NextComponents(g, ModulesOf(t, done))
  {
    var m := SomeMember(g, t, i);
    assert t.of[m] == i && t.members[i] == Component(g, m);
    assert m !in ModulesOf(t, done);
    forall x, d | x in t.members[i] && x in g && d in g[x]
      ensures d in t.members[i] || d in ModulesOf(t, done)
    {
      assert d in t.of && t.of[d] in UnitDeps(g, t.members[i], t.of);
      assert d in t.members[t.of[d]];
    }
  }

  lemma LeastExistsIn(ids: set<ModId>, order: map<ModId, nat>) returns (n: nat)
    requires ids != {} && ids <= order.Keys
    ensures IsLeastOrder(n, ids, order)
  {
    LatestExists(ids, Seen(order, -1));
    var m :| IsLatest(m, ids, Seen(order, -1));
    n := order[m];
  }

  /** A sorted level is the list of the next components. */
  lemma LevelIsList(g: Imports, t: Table, order: map<ModId, nat>, done: set<SccId>, level: seq<SccId>)
    requires ValidTable(g, t) && g.Keys <= order.Keys && OrdersDiffer(order)
    requires LevelSorted(t, order, done, level) && Distinct(level) && IdSet(level) <= t.members.Keys
    ensures MembersOf(t, level) == LatestFirst(NextComponents(g, ModulesOf(t, done)), FirstSeen(order))
  {
    var r, comps := MembersOf(t, level), NextComponents(g, ModulesOf(t, done));
    NextUnits(g, t, done);
    LevelListed(g, t, level, comps, r);
    forall j | 0 <= j < |r|
      ensures exists n :: LeastOf(t, order, level[j], n) && FirstSeen(order)(r[j]) == n
    {
      assert level[j] in IdSet(level);
      UnitIsComponent(g, t, level[j]);
      var n := LeastExistsIn(r[j], order);
      FirstSeenIs(order, r[j], n);
      assert LeastOf(t, order, level[j], n);
    }
    forall j, k | 0 <= j < k < |r|
      ensures FirstSeen(order)(r[j]) >= FirstSeen(order)(r[k])
    {
    }
    ComponentsSeenApart(g, order, comps);
    OnlyOneList(comps, FirstSeen(order), r);
  }

  lemma LevelListed(g: Imports, t: Table, level: seq<SccId>, comps: set<set<ModId>>, r: seq<set<ModId>>)
    requires ValidTable(g, t) && Distinct(level) && IdSet(level) <= t.members.Keys && r == MembersOf(t, level)
    requires comps == UnitSets(t, IdSet(level))
    ensures Distinct(r) && ToSet(r) == comps
  {
    forall j, k | 0 <= j < k < |r|
      ensures r[j] != r[k]
    {
      UnitsDiffer(g, t, level[j], level[k]);
    }
    forall c | c in comps
      ensures c in r
    {
      var i :| i in IdSet(level) && i in t.members && t.members[i] == c;
      var j :| 0 <= j < |level| && level[j] == i;
      assert r[j] == c;
    }
    forall c | c in r
      ensures c in comps
    {
      var j :| 0 <= j < |r| && r[j] == c;
      assert level[j] in IdSet(level);
    }
  }

  lemma ComponentsSeenApart(g: Imports, order: map<ModId, nat>, comps: set<set<ModId>>)
    requires ImportGraph(g) && g.Keys <= order.Keys && OrdersDiffer(order)
    requires forall c | c in comps :: exists m :: m in g && c == Component(g, m)
    ensures KeysDiffer(comps, FirstSeen(order))
  {
    forall a, b | a in comps && b in comps && FirstSeen(order)(a) == FirstSeen(order)(b)
      ensures a == b
    {
      var m :| m in g && a == Component(g, m);
      var k :| k in g && b == Component(g, k);
      assert m in a && k in b;
      var n1 := LeastExistsIn(a, order);
      var n2 := LeastExistsIn(b, order);
      FirstSeenIs(order, a, n1);
      FirstSeenIs(order, b, n2);
      var x :| x in a && order[x] == n1;
      assert x in b;
      ComponentsEqual(g, m, x);
      ComponentsEqual(g, k, x);
    }
  }

  lemma FlatStep<T>(levels: seq<seq<T>>, n: nat)
    requires n < |levels|
    ensures Flat(levels[n..]) == levels[n] + Flat(levels[n + 1..])
    ensures Flat(levels[..n + 1]) == Flat(levels[..n]) + levels[n]
  {
    assert levels[n..] == [levels[n]] + levels[n + 1..] && [levels[n]][..0] == [];
    FlatConcat([levels[n]], levels[n + 1..]);
    assert Flat([levels[n]]) == [] + levels[n];
    assert levels[..n + 1][..n] == levels[..n];
  }

  lemma {:induction false} FlatConcat<T>(a: seq<seq<T>>, b: seq<seq<T>>)
    ensures Flat(a + b) == Flat(a) + Flat(b)
    decreases |b|
  {
    if b == [] {
      assert a + b == a;
    } else {
      var n := |b| - 1;
      assert (a + b)[..|a| + n] == a + b[..n];
      FlatConcat(a, b[..n]);
      Regroup(Flat(a), Flat(b[..n]), b[n]);
    }
  }

  lemma FlatAll<T>(levels: seq<seq<T>>, n: nat)
    requires n <= |levels|
    ensures Flat(levels) == Flat(levels[..n]) + Flat(levels[n..])
  {
    assert levels == levels[..n] + levels[n..];
    FlatConcat(levels[..n], levels[n..]);
  }

  lemma Regroup<T>(a: seq<T>, b: seq<T>, c: seq<T>)
    ensures (a + b) + c == a + (b + c)
  {
  }

  lemma NothingNext(g: Imports, done: set<ModId>)
    requires g.Keys <= done
    ensures NextComponents(g, done) == {}
  {
  }

  lemma ModulesOfMore(g: Imports, t: Table, done: set<SccId>, level: seq<SccId>)
    requires ValidTable(g, t) && IdSet(level) == Next(t.deps, done)
    ensures ModulesOf(t, done + IdSet(level))
            == ModulesOf(t, done) + MembersIn(NextComponents(g, ModulesOf(t, done)))
  {
    NextUnits(g, t, done);
    forall m
      ensures m in ModulesOf(t, IdSet(level)) <==> m in MembersIn(UnitSets(t, IdSet(level)))
    {
      if m in ModulesOf(t, IdSet(level)) {
        var i :| i in IdSet(level) && i in t.members && m in t.members[i];
        assert t.members[i] in UnitSets(t, IdSet(level));
      }
    }
  }

  lemma PartOfFlat(levels: seq<seq<SccId>>, n: nat, ids: set<SccId>)
    requires n < |levels| && Distinct(Flat(levels)) && IdSet(Flat(levels)) <= ids
    ensures Distinct(levels[n]) && IdSet(levels[n]) <= ids
    ensures IdSet(Flat(levels[n..])) <= ids && IdSet(Flat(levels[n + 1..])) <= ids
    ensures IdSet(Flat(levels[..n + 1])) == IdSet(Flat(levels[..n])) + IdSet(levels[n])
  {
    FlatAll(levels, n);
    FlatStep(levels, n);
    ThreeParts(Flat(levels), Flat(levels[..n]), levels[n], Flat(levels[n + 1..]), ids);
  }

  lemma ThreeParts(all: seq<SccId>, a: seq<SccId>, b: seq<SccId>, c: seq<SccId>, ids: set<SccId>)
    requires all == a + (b + c) && Distinct(all) && IdSet(all) <= ids
    ensures Distinct(b) && IdSet(b) <= ids && IdSet(b + c) <= ids && IdSet(c) <= ids
    ensures IdSet(a + b) == IdSet(a) + IdSet(b)
  {
    forall i, j | 0 <= i < j < |b|
      ensures b[i] != b[j]
    {
      assert all[|a| + i] == b[i] && all[|a| + j] == b[j];
    }
    forall x | x in b || x in c
      ensures x in ids
    {
      assert x in b + c && x in IdSet(all);
    }
  }

  /** The levels from one on are the list from what is done before them. */
  lemma {:induction false} LevelsAreList(g: Imports, t: Table, order: map<ModId, nat>, levels: seq<seq<SccId>>, n: nat)
    requires ValidTable(g, t) && g.Keys <= order.Keys && OrdersDiffer(order) && n <= |levels|
    requires LevelsSorted(t, order, levels) && Distinct(Flat(levels)) && IdSet(Flat(levels)) == t.members.Keys
    ensures IdSet(Flat(levels[n..])) <= t.members.Keys
    ensures MembersOf(t, Flat(levels[n..])) == LevelList(g, order, ModulesOf(t, IdSet(Flat(levels[..n]))))
    decreases |levels| - n
  {
    var before := IdSet(Flat(levels[..n]));
    if n == |levels| {
      assert levels[..n] == levels && levels[n..] == [];
      AllListed(g, t, before);
      NothingNext(g, ModulesOf(t, before));
    } else {
      PartOfFlat(levels, n, t.members.Keys);
      LevelsAreList(g, t, order, levels, n + 1);
      FlatStep(levels, n);
      assert LevelSorted(t, order, before, levels[n]);
      LevelIsList(g, t, order, before, levels[n]);
      ModulesOfMore(g, t, before, levels[n]);
      OneLevelOfList(g, t, order, before, levels[n], Flat(levels[n + 1..]));
    }
  }

  lemma AllListed(g: Imports, t: Table, done: set<SccId>)
    requires ValidTable(g, t) && done == t.members.Keys
    ensures g.Keys <= ModulesOf(t, done)
  {
    forall m | m in g
      ensures m in ModulesOf(t, done)
    {
      assert t.of[m] in t.members && m in t.members[t.of[m]];
    }
  }

  lemma MembersAppend(t: Table, a: seq<SccId>, b: seq<SccId>)
    requires IdSet(a) <= t.members.Keys && IdSet(b) <= t.members.Keys && IdSet(a + b) <= t.members.Keys
    ensures MembersOf(t, a + b) == MembersOf(t, a) + MembersOf(t, b)
  {
    var all := a + b;
    forall i | 0 <= i < |all|
      ensures MembersOf(t, all)[i] == (MembersOf(t, a) + MembersOf(t, b))[i]
    {
      if i < |a| {
        assert all[i] == a[i];
      } else {
        assert all[i] == b[i - |a|];
      }
    }
  }

  lemma OneLevelOfList(g: Imports, t: Table, order: map<ModId, nat>, done: set<SccId>, level: seq<SccId>,
      rest: seq<SccId>)
    requires ValidTable(g, t) && IdSet(level) == Next(t.deps, done)
    requires IdSet(level) <= t.members.Keys && IdSet(rest) <= t.members.Keys && IdSet(level + rest) <= t.members.Keys
    requires MembersOf(t, level) == LatestFirst(NextComponents(g, ModulesOf(t, done)), FirstSeen(order))
    requires MembersOf(t, rest) == LevelList(g, order, ModulesOf(t, done + IdSet(level)))
    requires ModulesOf(t, done + IdSet(level)) == ModulesOf(t, done) + MembersIn(NextComponents(g, ModulesOf(t, done)))
    ensures MembersOf(t, level + rest) == LevelList(g, order, ModulesOf(t, done))
  {
    var mods := ModulesOf(t, done);
    MembersAppend(t, level, rest);
    if NextComponents(g, mods) == {} {
      assert MembersOf(t, level) == [] && MembersIn(NextComponents(g, mods)) == {};
      assert mods + {} == mods;
    }
  }

  /**
   * The processing order of a strongly connected set of modules. It lists each module once, and it
   * respects the dependencies of every priority level; among arcs of one priority only, the order in
   * which the modules were encountered counts. If no two were encountered at the same time, the graph
   * and these numbers determine the result, however cycles are found. The recursion ends because the
   * spread gets smaller.
   */
  method OrderAscc(graph: map<ModId, State>, ascc: set<ModId>, priMax: int, order: map<ModId, nat>,
      cycles: Imports -> seq<set<ModId>>)
    returns (r: seq<ModId>)
    requires LoadedGraph(graph) && ascc <= graph.Keys && graph.Keys <= order.Keys && FindsCycles(cycles)
    requires ascc != {} && priMax <= PRI_INDIRECT && Strong(graph, ascc, priMax)
    ensures PartOk(graph, ascc, priMax, r)
    ensures |Spread(graph, ascc, priMax)| == 1 ==> Descending(r, order)
    ensures OrdersDiffer(order) ==> r == OrderOf(graph, ascc, priMax, order)
    decreases Spread(graph, ascc, priMax), 1
  {
    var first :| first in ascc;
    if ascc == {first} {
      r := [first];
      OneRespects(graph, first, priMax);
      SortedIsOrder(graph, ascc, priMax, order, r);
      return;
    }
    SeveralSpread(graph, ascc, priMax, first);
    var priSpread := PriSpread(graph, ascc, priMax);
    if |priSpread| == 1 {
      r := SortByOrder(ascc, order);
      ghost var only := TheOnly(priSpread);
      UniformRespects(graph, ascc, priMax, only, r);
      SortedIsOrder(graph, ascc, priMax, order, r);
      return;
    }
    var max := Largest(priSpread);
    SpreadFalls(graph, ascc, priMax, ascc, max);
    ghost var t, levels;
    var comps;
    comps, t, levels := SortedComponentsInner(graph, ascc, max, order, cycles);
    r := OrderParts(graph, ascc, priMax, max, comps, order, cycles);
    PartsAreOrder(graph, ascc, priMax, max, order, first);
  }

  /** A sorted list is the order, where nothing but the order numbers counts. */
  lemma SortedIsOrder(graph: map<ModId, State>, vs: set<ModId>, priMax: int, order: map<ModId, nat>, r: seq<ModId>)
    requires vs <= graph.Keys && vs <= order.Keys && (|vs| == 1 || |Spread(graph, vs, priMax)| == 1)
    requires Distinct(r) && (forall m :: m in r <==> m in vs) && (Descending(r, order) || |r| == 1)
    ensures OrdersDiffer(order) ==> r == OrderOf(graph, vs, priMax, order)
  {
    if OrdersDiffer(order) {
      assert ToSet(r) == vs;
      OnlyOneList(vs, Seen(order, 1), r);
    }
  }

  lemma PartsAreOrder(graph: map<ModId, State>, vs: set<ModId>, priMax: int, max: int, order: map<ModId, nat>,
      first: ModId)
    requires vs <= graph.Keys && first in vs && vs != {first} && |Spread(graph, vs, priMax)| != 1
    requires max in Spread(graph, vs, priMax) && forall x | x in Spread(graph, vs, priMax) :: x <= max
    ensures OrderOf(graph, vs, priMax, order)
            == OrdersOf(graph, vs, priMax, max, order, LevelList(Arcs(graph, vs, max), order, {}))
  {
    var spread := Spread(graph, vs, priMax);
    var other :| other in vs && other != first;
    assert {first, other} <= vs && |{first, other}| == 2;
    SubsetSize({first, other}, vs);
    SubsetSize({max}, spread);
    assert MaxOf(spread) == max;
  }

  lemma SubsetSize<T>(a: set<T>, b: set<T>)
    requires a <= b
    ensures |a| <= |b|
  {
    assert b == a + (b - a);
  }

  /** The recursive step: the order of each component, one behind the other. */
  method OrderParts(graph: map<ModId, State>, ascc: set<ModId>, ghost priMax: int, max: int, comps: seq<set<ModId>>,
      order: map<ModId, nat>, cycles: Imports -> seq<set<ModId>>)
    returns (r: seq<ModId>)
    requires LoadedGraph(graph) && ascc <= graph.Keys && graph.Keys <= order.Keys && FindsCycles(cycles)
    requires priMax <= PRI_INDIRECT && Strong(graph, ascc, priMax) && ComponentsInOrder(Arcs(graph, ascc, max), comps)
    requires max in Spread(graph, ascc, priMax) && forall x | x in Spread(graph, ascc, priMax) :: x <= max
    ensures PartOk(graph, ascc, priMax, r)
    ensures OrdersDiffer(order) ==> r == OrdersOf(graph, ascc, priMax, max, order, comps)
    decreases Spread(graph, ascc, priMax), 0
  {
    r := [];
    ghost var parts: seq<seq<ModId>> := [];
    SpreadFalls(graph, ascc, priMax, ascc, max);
    for k := 0 to |comps|
      invariant |parts| == k && r == Flat(parts) && PartsOk(graph, ascc, max, comps, parts)
      invariant OrdersDiffer(order) ==> r == OrdersOf(graph, ascc, priMax, max, order, comps[..k])
    {
      CompStrong(graph, ascc, max, comps, k);
      SpreadFalls(graph, ascc, priMax, comps[k], max);
      var part := OrderAscc(graph, comps[k], max, order, cycles);
      OnePartMore(graph, ascc, max, comps, parts, part);
      if OrdersDiffer(order) {
        OneOrderMore(graph, ascc, priMax, max, order, comps, k);
      }
      r, parts := r + part, parts + [part];
    }
    assert comps[..|comps|] == comps;
    ArcsImportGraph(graph, ascc, max);
    PartsCombine(graph, ascc, priMax, max, comps, parts);
  }

  lemma OneOrderMore(graph: map<ModId, State>, vs: set<ModId>, priMax: int, max: int, order: map<ModId, nat>,
      comps: seq<set<ModId>>, k: nat)
    requires vs <= graph.Keys && max in Spread(graph, vs, priMax) && k < |comps| && comps[k] <= vs
    ensures OrdersOf(graph, vs, priMax, max, order, comps[..k + 1])
            == OrdersOf(graph, vs, priMax, max, order, comps[..k]) + OrderOf(graph, comps[k], max, order)
  {
    assert comps[..k + 1][..k] == comps[..k];
  }

  lemma CompStrong(graph: map<ModId, State>, vs: set<ModId>, max: int, comps: seq<set<ModId>>, k: nat)
    requires vs <= graph.Keys && ComponentsInOrder(Arcs(graph, vs, max), comps) && k < |comps|
    ensures comps[k] != {} && comps[k] <= vs && Strong(graph, comps[k], max)
  {
    var m :| m in comps[k];
    assert comps[k] == Component(Arcs(graph, vs, max), m);
    ComponentStrong(graph, vs, max, m);
  }

  lemma OnePartMore(graph: map<ModId, State>, vs: set<ModId>, max: int, comps: seq<set<ModId>>, parts: seq<seq<ModId>>,
      part: seq<ModId>)
    requires vs <= graph.Keys && PartsOk(graph, vs, max, comps, parts) && |parts| < |comps|
    requires comps[|parts|] <= graph.Keys && PartOk(graph, comps[|parts|], max, part)
    ensures PartsOk(graph, vs, max, comps, parts + [part]) && Flat(parts + [part]) == Flat(parts) + part
  {
    assert (parts + [part])[..|parts|] == parts;
  }

  lemma OneRespects(graph: map<ModId, State>, m: ModId, priMax: int)
    requires m in graph
    ensures PartOk(graph, {m}, priMax, [m])
  {
  }

  lemma SeveralSpread(graph: map<ModId, State>, vs: set<ModId>, priMax: int, first: ModId)
    requires vs <= graph.Keys && Strong(graph, vs, priMax) && first in vs && vs != {first}
    ensures Spread(graph, vs, priMax) != {}
  {
    var other :| other in vs && other != first;
    SpreadNotEmpty(graph, vs, priMax, first, other);
  }

  /** The units of a loaded graph can be ordered: their modules reach each other without indirect dependencies. */
  lemma UnitStrong(graph: map<ModId, State>, t: Table, i: SccId)
    requires LoadedGraph(graph) && ValidTable(ImportsOf(graph), t) && i in t.members
    ensures t.members[i] != {} && t.members[i] <= graph.Keys && Strong(graph, t.members[i], PRI_INDIRECT)
  {
    var m := SomeMember(ImportsOf(graph), t, i);
    assert t.of[m] == i && t.members[t.of[m]] == Component(ImportsOf(graph), m);
    AllArcs(graph);
    ComponentStrong(graph, graph.Keys, PRI_INDIRECT, m);
  }

  lemma AllArcs(graph: map<ModId, State>)
    requires LoadedGraph(graph)
    ensures Arcs(graph, graph.Keys, PRI_INDIRECT) == ImportsOf(graph)
  {
    forall m | m in graph
      ensures Arcs(graph, graph.Keys, PRI_INDIRECT)[m] == ImportsOf(graph)[m]
    {
      assert StateOk(graph[m]) && ImportsOf(graph)[m] <= graph.Keys;
    }
  }
}
