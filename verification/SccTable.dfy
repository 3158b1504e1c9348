// Import cycles as numbered units, with the dependencies between them.
module SccTable {
  import opened Reach
  import opened ImportHash

  type SccId = nat

  datatype Table = Table(members: map<SccId, set<ModId>>, of: map<ModId, SccId>, deps: Graph<SccId>)

  /** The units other units that members import from. */
  ghost function UnitDeps(imports: Imports, members: set<ModId>, of: map<ModId, SccId>): set<SccId> {
    set m, d | m in members && m in imports && d in imports[m] && d in of :: of[d]
  }

  /** The table groups the modules of the graph exactly by import cycle. */
  ghost predicate ValidTable(imports: Imports, t: Table) {
    && ImportGraph(imports)
    && t.members.Keys == t.deps.Keys
    && t.of.Keys == imports.Keys
    && (forall m {:trigger t.of[m]} | m in imports :: t.of[m] in t.members && m in t.members[t.of[m]])
    && (forall i, m {:trigger m in t.members[i]} | i in t.members && m in t.members[i] :: m in t.of && t.of[m] == i)
    && (forall i {:trigger UnitDeps(imports, t.members[i], t.of)} | i in t.members :: t.members[i] != {})
    && (forall m {:trigger Component(imports, m)} | m in imports :: t.members[t.of[m]] == Component(imports, m))
    && (forall i {:trigger UnitDeps(imports, t.members[i], t.of)} | i in t.members ::
          t.deps[i] == UnitDeps(imports, t.members[i], t.of) - {i})
  }

  lemma TableClosed(imports: Imports, t: Table)
    requires ValidTable(imports, t)
    ensures Closed(t.deps)
  {
    forall i, j | i in t.deps && j in t.deps[i]
      ensures j in t.deps
    {
      assert j in UnitDeps(imports, t.members[i], t.of);
      var m, d :| m in t.members[i] && m in imports && d in imports[m] && d in t.of && t.of[d] == j;
    }
  }

  lemma SomeMember(imports: Imports, t: Table, i: SccId) returns (m: ModId)
    requires ValidTable(imports, t) && i in t.members
    ensures m in t.members[i]
  {
    assert t.deps[i] == UnitDeps(imports, t.members[i], t.of) - {i};
    m :| m in t.members[i];
  }

  lemma MembersReach(imports: Imports, t: Table, i: SccId, m: ModId, n: ModId)
    requires ValidTable(imports, t) && i in t.members && m in t.members[i] && n in t.members[i]
    ensures m == n || Reaches(imports, m, n)
  {
    assert t.members[t.of[m]] == Component(imports, m);
  }

  lemma EdgeMembersReach(imports: Imports, t: Table, i: SccId, j: SccId, m: ModId, n: ModId)
    requires ValidTable(imports, t) && i in t.deps && j in t.deps[i] && j in t.members
    requires m in t.members[i] && n in t.members[j]
    ensures Reaches(imports, m, n)
  {
    assert j in UnitDeps(imports, t.members[i], t.of);
    var x, d :| x in t.members[i] && x in imports && d in imports[x] && d in t.of && t.of[d] == j;
    EdgeReaches(imports, x, d);
    MembersReach(imports, t, i, m, x);
    assert d in t.members[j];
    MembersReach(imports, t, j, d, n);
    if m != x { ReachesTransitive(imports, m, x, d); }
    if d != n { ReachesTransitive(imports, m, d, n); }
  }

  /** If one unit reaches another, so does every member. */
  lemma UnitsReachModulesReach(imports: Imports, t: Table, i: SccId, j: SccId, m: ModId, n: ModId)
    requires ValidTable(imports, t) && Reaches(t.deps, i, j)
    requires i in t.members && m in t.members[i] && j in t.members && n in t.members[j]
    ensures Reaches(imports, m, n)
  {
    var p :| WalkFromTo(t.deps, p, i, j);
    WalkMembersReach(imports, t, p, m, n);
  }

  lemma {:induction false} WalkMembersReach(imports: Imports, t: Table, p: seq<SccId>, m: ModId, n: ModId)
    requires ValidTable(imports, t) && IsWalk(t.deps, p)
    requires m in t.members[p[0]] && n in t.members[p[|p| - 1]]
    ensures Reaches(imports, m, n)
  {
    assert p[0 + 1] in t.deps[p[0]];
    if |p| == 2 {
      EdgeMembersReach(imports, t, p[0], p[1], m, n);
    } else {
      var x := SomeMember(imports, t, p[1]);
      EdgeMembersReach(imports, t, p[0], p[1], m, x);
      WalkMembersReach(imports, t, p[1..], x, n);
      ReachesTransitive(imports, m, x, n);
    }
  }

  /** A module reaches only its own unit and the units its own unit reaches. */
  lemma ModulesReachUnitsReach(imports: Imports, t: Table, m: ModId, n: ModId)
    requires ValidTable(imports, t) && m in imports && n in Closure(imports, m)
    ensures n in t.of
    ensures t.of[n] == t.of[m] || t.of[n] in Closure(t.deps, t.of[m])
  {
    TableClosed(imports, t);
    var i := t.of[m];
    var s := set x | x in imports && (t.of[x] == i || t.of[x] in Closure(t.deps, i));
    forall v | v in s + {m}
      ensures imports[v] <= s
    {
      forall d | d in imports[v]
        ensures d in s
      {
        var k := t.of[v];
        assert v in t.members[k];
        if t.of[d] != k {
          assert t.of[d] in UnitDeps(imports, t.members[k], t.of);
          assert t.of[d] in t.deps[k];
          EdgeReaches(t.deps, k, t.of[d]);
          if k != i { ReachesTransitive(t.deps, i, k, t.of[d]); }
        }
      }
    }
    ClosureLeast(imports, m, s);
  }

  /** The units of import cycles depend on each other without cycles. */
  lemma TableAcyclic(imports: Imports, t: Table)
    requires ValidTable(imports, t)
    ensures Closed(t.deps) && Acyclic(t.deps)
  {
    TableClosed(imports, t);
    forall i | i in t.deps
      ensures !Reaches(t.deps, i, i)
    {
      if Reaches(t.deps, i, i) {
        var k := FirstStep(t.deps, i, i);
        assert k in UnitDeps(imports, t.members[i], t.of);
        assert k != i && Reaches(t.deps, k, i);
        var m := SomeMember(imports, t, i);
        var n := SomeMember(imports, t, k);
        EdgeMembersReach(imports, t, i, k, m, n);
        assert t.of[n] == k && t.members[i] == Component(imports, m);
        assert n !in Component(imports, m);
        UnitsReachModulesReach(imports, t, k, i, n, m);
      }
    }
  }

  /** The transitive dependencies of a member are its own unit and the units reached from it. */
  lemma ClosureWithinUnits(imports: Imports, t: Table, i: SccId, m: ModId, s: set<SccId>)
    requires ValidTable(imports, t) && i in t.members && m in t.members[i]
    requires forall j | j in Closure(t.deps, i) :: j in s
    ensures forall d | d in Closure(imports, m) :: d in t.of && (t.of[d] == i || t.of[d] in s)
  {
    forall d | d in Closure(imports, m)
      ensures d in t.of && (t.of[d] == i || t.of[d] in s)
    {
      ModulesReachUnitsReach(imports, t, m, d);
    }
  }

  /** A module reaches those of its own unit and those of the units that its unit reaches. */
  lemma UnitReached(imports: Imports, t: Table, i: SccId, m: ModId, d: ModId)
    requires ValidTable(imports, t) && i in t.members && m in t.members[i] && d in imports && d != m
    ensures d in t.of && (t.of[d] == i || Reaches(t.deps, i, t.of[d]) <==> d in Closure(imports, m))
  {
    assert t.of[m] == i && d in t.members[t.of[d]];
    if t.of[d] == i {
      MembersReach(imports, t, i, m, d);
    } else if Reaches(t.deps, i, t.of[d]) {
      UnitsReachModulesReach(imports, t, i, t.of[d], m, d);
    }
    if d in Closure(imports, m) {
      ModulesReachUnitsReach(imports, t, m, d);
    }
  }
}
