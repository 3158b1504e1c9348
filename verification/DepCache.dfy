// The memoised search for transitive dependencies between units.
module DepCache {
  import opened Reach
  import opened SccTable

  type Edge = (SccId, SccId)

  /** Every memo entry, positive or negative, states a fact about the dependency graph. */
  ghost predicate MemoOk(deps: Graph<SccId>, cache: map<Edge, bool>) {
    forall e | e in cache :: e.0 in deps && e.1 in deps && cache[e] == Reaches(deps, e.0, e.1)
  }

  /** Everything the search may still visit. */
  ghost function Ahead(deps: Graph<SccId>, todo: set<SccId>): set<SccId> {
    todo + set x, y | x in todo && y in Closure(deps, x) :: y
  }

  /** The edges of a frontier, or some of them. */
  ghost predicate NextFrontier(deps: Graph<SccId>, todo: set<SccId>, more: set<SccId>) {
    forall y | y in more :: exists x | x in todo && x in deps :: y in deps[x]
  }

  lemma {:induction false} AcyclicHasSource(deps: Graph<SccId>, s: set<SccId>) returns (v: SccId)
    requires Closed(deps) && Acyclic(deps)
    requires s <= deps.Keys && s != {}
    ensures v in s && forall x | x in s :: !Reaches(deps, x, v)
    decreases s
  {
    var x :| x in s;
    var t := set d | d in s && Reaches(deps, d, x);
    if t == {} {
      v := x;
      forall d | d in s
        ensures !Reaches(deps, d, v)
      {
        assert d !in t;
      }
    } else {
      assert x !in t;
      v := AcyclicHasSource(deps, t);
      forall d | d in s
        ensures !Reaches(deps, d, v)
      {
        if Reaches(deps, d, v) {
          ReachesTransitive(deps, d, v, x);
        }
      }
    }
  }

  /** The search goes one level further each round, so it ends although it revisits units. */
  lemma FrontierFalls(deps: Graph<SccId>, todo: set<SccId>, more: set<SccId>)
    requires Closed(deps) && Acyclic(deps)
    requires todo <= deps.Keys && todo != {} && NextFrontier(deps, todo, more)
    ensures more <= deps.Keys && Ahead(deps, more) < Ahead(deps, todo)
  {
    forall y | y in Ahead(deps, more)
      ensures exists x | x in todo :: y in Closure(deps, x)
    {
      var z :| z in more && (y == z || y in Closure(deps, z));
      var x :| x in todo && x in deps && z in deps[x];
      EdgeReaches(deps, x, z);
      if y != z { ReachesTransitive(deps, x, z, y); }
      assert y in Closure(deps, x);
    }
    forall y | y in more
      ensures y in deps
    {
      var x :| x in todo && x in deps && y in deps[x];
    }
    var v := AcyclicHasSource(deps, todo);
    assert v in Ahead(deps, todo) && v !in Ahead(deps, more);
  }

  /** A visited unit that is not the target: known not to lead there, or all its dependencies are listed. */
  ghost predicate Explored(deps: Graph<SccId>, cache: map<Edge, bool>, target: SccId, v: SccId, listed: set<SccId>) {
    && v in deps && v != target
    && ((v, target) in cache ==> !cache[(v, target)])
    && ((v, target) !in cache ==> deps[v] <= listed)
  }

  /** When nothing is left to visit, neither the start nor any visited unit leads to the target. */
  lemma SearchExhausted(deps: Graph<SccId>, cache: map<Edge, bool>, start: SccId, target: SccId, seen: set<SccId>)
    requires Closed(deps) && MemoOk(deps, cache) && start in deps && target in deps
    requires deps[start] <= seen
    requires forall v | v in seen :: Explored(deps, cache, target, v, seen)
    ensures !Reaches(deps, start, target)
    ensures forall v | v in seen :: !Reaches(deps, v, target)
  {
    var away := set v | v in deps && v != target && (v in seen || !Reaches(deps, v, target));
    forall v | v in away
      ensures deps[v] <= away
    {
      forall w | w in deps[v]
        ensures w in away
      {
        if v in seen && (v, target) !in cache {
          assert Explored(deps, cache, target, v, seen);
          assert Explored(deps, cache, target, w, seen);
        } else {
          assert !Reaches(deps, v, target);
          ReachesUnfold(deps, v, target);
        }
      }
    }
    forall w | w in deps[start]
      ensures w in away
    {
      assert Explored(deps, cache, target, w, seen);
    }
    ClosureLeast(deps, start, away);
    assert !Reaches(deps, start, target) by { assert target !in Closure(deps, start); }
    forall v | v in seen
      ensures !Reaches(deps, v, target)
    {
      assert Explored(deps, cache, target, v, seen);
      assert v in away;
      ClosureLeast(deps, v, away);
      assert target !in Closure(deps, v);
    }
  }

  class TransitiveDeps {
    const deps: Graph<SccId>
    var cache: map<Edge, bool>

    ghost predicate Valid()
      reads this
    {
      Closed(deps) && Acyclic(deps) && MemoOk(deps, cache)
    }

    constructor (deps: Graph<SccId>)
      requires Closed(deps) && Acyclic(deps)
      ensures Valid() && this.deps == deps && cache == map[]
    {
      this.deps := deps;
      cache := map[];
    }

    /** Whether the first unit depends, directly or not, on the second. */
    method IsTransitiveSccDep(from: SccId, to: SccId) returns (r: bool)
      requires Valid() && from in deps && to in deps
      modifies this
      ensures Valid()
      ensures r <==> Reaches(deps, from, to)
      ensures forall e | e in old(cache) :: e in cache && cache[e] == old(cache[e])
      ensures (from, to) in cache
    {
      var edge := (from, to);
      if edge in cache {
        return cache[edge];
      }
      var todo := deps[from];
      var seen := {};
      while todo != {}
        invariant cache == old(cache)
        invariant todo <= deps.Keys
        invariant deps[from] <= seen + todo
        invariant forall v | v in seen :: Explored(deps, cache, to, v, seen + todo)
        invariant forall v | v in seen + todo :: Reaches(deps, from, v) || v in deps[from]
        decreases Ahead(deps, todo)
      {
        var more := {};
        var level := todo;
        while level != {}
          invariant cache == old(cache)
          invariant level <= todo
          invariant todo - level <= seen
          invariant deps[from] <= seen + level
          invariant forall v | v in seen :: Explored(deps, cache, to, v, seen + level + more)
          invariant NextFrontier(deps, todo, more)
          invariant forall v | v in seen + todo + more :: Reaches(deps, from, v) || v in deps[from]
          decreases level
        {
          var dep :| dep in level;
          level := level - {dep};
          seen := seen + {dep};
          if dep == to {
            EdgeOrBeyond(from, dep);
            cache := cache[edge := true];
            return true;
          }
          if (dep, to) in cache && cache[(dep, to)] {
            EdgeOrBeyond(from, dep);
            ReachesTransitive(deps, from, dep, to);
            cache := cache[edge := true];
            return true;
          } else if (dep, to) !in cache {
            forall y | y in deps[dep]
              ensures Reaches(deps, from, y)
            {
              EdgeOrBeyond(from, dep);
              EdgeReaches(deps, dep, y);
              ReachesTransitive(deps, from, dep, y);
            }
            more := more + deps[dep];
          }
        }
        FrontierFalls(deps, todo, more);
        todo := more;
      }
      SearchExhausted(deps, cache, from, to, seen);
      cache := cache[edge := false];
      var left := seen;
      while left != {}
        invariant MemoOk(deps, cache)
        invariant left <= seen
        invariant edge in cache && !Reaches(deps, from, to)
        invariant forall e | e in old(cache) :: e in cache && cache[e] == old(cache[e])
        decreases left
      {
        var dep :| dep in left;
        left := left - {dep};
        cache := cache[(dep, to) := false];
      }
      r := false;
    }

    lemma EdgeOrBeyond(from: SccId, dep: SccId)
      requires Closed(deps) && from in deps
      requires Reaches(deps, from, dep) || dep in deps[from]
      ensures Reaches(deps, from, dep)
    {
      if dep in deps[from] {
        EdgeReaches(deps, from, dep);
      }
    }
  }
}
