// Directed graphs given by successor sets, and reachability by one or more edges.
module Reach {
  type Graph<!V> = map<V, set<V>>

  ghost predicate Closed<V>(g: Graph<V>) {
    forall v | v in g :: g[v] <= g.Keys
  }

  /** p lists the vertices of a walk with at least one edge. */
  ghost predicate IsWalk<V>(g: Graph<V>, p: seq<V>) {
    && |p| >= 2
    && (forall i | 0 <= i < |p| :: p[i] in g)
    && (forall i | 0 <= i < |p| - 1 :: p[i + 1] in g[p[i]])
  }

  ghost predicate WalkFromTo<V>(g: Graph<V>, p: seq<V>, a: V, b: V) {
    IsWalk(g, p) && p[0] == a && p[|p| - 1] == b
  }

  /** b can be reached from a over one or more edges. */
  ghost predicate Reaches<V(!new)>(g: Graph<V>, a: V, b: V) {
    exists p :: WalkFromTo(g, p, a, b)
  }

  /** Everything reachable from a over one or more edges. */
  ghost function Closure<V(!new)>(g: Graph<V>, a: V): set<V> {
    set b | b in g && Reaches(g, a, b)
  }

  lemma EdgeReaches<V(!new)>(g: Graph<V>, a: V, b: V)
    requires Closed(g) && a in g && b in g[a]
    ensures Reaches(g, a, b) && b in Closure(g, a)
  {
    assert WalkFromTo(g, [a, b], a, b);
  }

  lemma ReachesTransitive<V(!new)>(g: Graph<V>, a: V, b: V, c: V)
    requires Reaches(g, a, b) && Reaches(g, b, c)
    ensures Reaches(g, a, c)
  {
    var p :| WalkFromTo(g, p, a, b);
    var q :| WalkFromTo(g, q, b, c);
    assert WalkFromTo(g, p + q[1..], a, c);
  }

  /** Reachability is one edge, or one edge followed by reachability. */
  lemma ReachesUnfold<V(!new)>(g: Graph<V>, a: V, b: V)
    requires Closed(g) && a in g
    ensures Reaches(g, a, b) <==> exists d | d in g[a] :: d == b || Reaches(g, d, b)
  {
    if Reaches(g, a, b) {
      var d := FirstStep(g, a, b);
    }
    if exists d | d in g[a] :: d == b || Reaches(g, d, b) {
      var d :| d in g[a] && (d == b || Reaches(g, d, b));
      EdgeReaches(g, a, d);
      if d != b {
        ReachesTransitive(g, a, d, b);
      }
    }
  }

  lemma FirstStep<V(!new)>(g: Graph<V>, a: V, b: V) returns (d: V)
    requires Reaches(g, a, b)
    ensures a in g && d in g[a] && (d == b || Reaches(g, d, b))
  {
    var p :| WalkFromTo(g, p, a, b);
    d := p[1];
    if |p| > 2 {
      assert WalkFromTo(g, p[1..], d, b);
    }
  }

  lemma ClosureTransitive<V(!new)>(g: Graph<V>, a: V, b: V)
    requires b in Closure(g, a)
    ensures Closure(g, b) <= Closure(g, a)
  {
    forall c | c in Closure(g, b)
      ensures c in Closure(g, a)
    {
      ReachesTransitive(g, a, b, c);
    }
  }

  lemma ClosureUnfold<V(!new)>(g: Graph<V>, a: V)
    requires Closed(g) && a in g
    ensures g[a] <= Closure(g, a)
    ensures forall b :: b in Closure(g, a) <==> exists d | d in g[a] :: d == b || b in Closure(g, d)
  {
    forall d | d in g[a]
      ensures d in Closure(g, a)
    {
      EdgeReaches(g, a, d);
    }
    forall b
      ensures b in Closure(g, a) <==> exists d | d in g[a] :: d == b || b in Closure(g, d)
    {
      ReachesUnfold(g, a, b);
      if b in Closure(g, a) {
        var d :| d in g[a] && (d == b || Reaches(g, d, b));
        assert d == b || b in Closure(g, d);
      }
      if d :| d in g[a] && (d == b || b in Closure(g, d)) {
        assert d == b || Reaches(g, d, b);
      }
    }
  }

  lemma DirectReached<V(!new)>(g: Graph<V>, a: V)
    requires Closed(g) && a in g
    ensures g[a] <= Closure(g, a)
  {
    forall d | d in g[a]
      ensures d in Closure(g, a)
    {
      EdgeReaches(g, a, d);
    }
  }

  /** A set that contains the successors of a and of its own members contains all of a's closure. */
  lemma ClosureLeast<V(!new)>(g: Graph<V>, a: V, s: set<V>)
    requires Closed(g) && a in g
    requires g[a] <= s
    requires forall v | v in s && v in g :: g[v] <= s
    ensures Closure(g, a) <= s
  {
    forall b | b in Closure(g, a)
      ensures b in s
    {
      var p :| WalkFromTo(g, p, a, b);
      WalkStays(g, p, s, |p| - 1);
    }
  }

  lemma {:induction false} WalkStays<V(!new)>(g: Graph<V>, p: seq<V>, s: set<V>, k: nat)
    requires IsWalk(g, p) && 1 <= k < |p|
    requires g[p[0]] <= s
    requires forall v | v in s && v in g :: g[v] <= s
    ensures p[k] in s
  {
    if k == 1 {
      assert p[0 + 1] in g[p[0]];
    } else {
      WalkStays(g, p, s, k - 1);
      assert p[k - 1 + 1] in g[p[k - 1]];
    }
  }

  /** No vertex reaches itself. */
  ghost predicate Acyclic<V(!new)>(g: Graph<V>) {
    forall v | v in g :: !Reaches(g, v, v)
  }

  // Import cycles: vertices that reach each other.

  ghost predicate SameComponent<V(!new)>(g: Graph<V>, a: V, b: V) {
    a == b || (Reaches(g, a, b) && Reaches(g, b, a))
  }

  ghost function Component<V(!new)>(g: Graph<V>, a: V): set<V> {
    set b | b in g && SameComponent(g, a, b)
  }

  lemma SameComponentTransitive<V(!new)>(g: Graph<V>, a: V, b: V, c: V)
    requires SameComponent(g, a, b) && SameComponent(g, b, c)
    ensures SameComponent(g, a, c)
  {
    if a != b && b != c {
      ReachesTransitive(g, a, b, c);
      ReachesTransitive(g, c, b, a);
    }
  }

  lemma ComponentsEqual<V(!new)>(g: Graph<V>, a: V, b: V)
    requires b in Component(g, a) && a in g
    ensures Component(g, a) == Component(g, b)
  {
    forall c | c in g
      ensures SameComponent(g, a, c) <==> SameComponent(g, b, c)
    {
      if SameComponent(g, a, c) { SameComponentTransitive(g, b, a, c); }
      if SameComponent(g, b, c) { SameComponentTransitive(g, a, b, c); }
    }
  }

  /** In an acyclic graph every non-empty set of vertices has one without successors in the set. */
  lemma {:induction false} AcyclicHasSink<V(!new)>(g: Graph<V>, s: set<V>) returns (v: V)
    requires Closed(g) && Acyclic(g)
    requires s <= g.Keys && s != {}
    ensures v in s && g[v] !! s
    decreases |s|
  {
    var x :| x in s;
    var t := set d | d in s && Reaches(g, x, d);
    if t == {} {
      v := x;
      forall d | d in g[v]
        ensures d !in s
      {
        EdgeReaches(g, v, d);
        assert d !in t;
      }
    } else {
      assert x !in t;
      assert t < s;
      SubsetSmaller(t, s);
      v := AcyclicHasSink(g, t);
      forall d | d in g[v]
        ensures d !in s
      {
        EdgeReaches(g, v, d);
        ReachesTransitive(g, x, v, d);
        assert d !in t;
      }
    }
  }

  lemma SubsetSmaller<V>(a: set<V>, b: set<V>)
    requires a < b
    ensures |a| < |b|
  {
    var x :| x in b && x !in a;
    assert a <= b - {x};
    SubsetNotLarger(a, b - {x});
  }

  lemma {:induction false} SubsetNotLarger<V>(a: set<V>, b: set<V>)
    requires a <= b
    ensures |a| <= |b|
    decreases a
  {
    if a != {} {
      var x :| x in a;
      SubsetNotLarger(a - {x}, b - {x});
    }
  }
}
