// When the types inferred for captured variables are exact: every value of such a type is bound to the
// variable by some value of the subject type.
module PatternBindings {
  import opened Text
  import opened Patterns
  import opened Narrowing
  import opened PatternCaptures
  import opened PatternExactness

  /** Some value of the type matches, and binds x to w. */
  ghost predicate CanBind(sem: Meaning, p: Pattern, t: Ty, x: nat, w: Value) {
    exists v :: In(sem, v, t) && Matches(p, v) && Binds(p, v, x, w)
  }

  ghost predicate CanMatch(sem: Meaning, p: Pattern, t: Ty) {
    exists v :: In(sem, v, t) && Matches(p, v)
  }

  /** Every value of a captured type is bound to its variable by some value that matches. */
  ghost predicate Bound(sem: Meaning, chk: Checker, p: Pattern, t: Ty) {
    forall c, w {:trigger c in Checked(chk, p, t).captures, In(sem, w, c.typ)} |
      c in Checked(chk, p, t).captures && In(sem, w, c.typ) :: CanBind(sem, p, t, c.expr.variable, w)
  }

  /** What the alternatives of an or-pattern leave for later ones, other than the last, is what they do not match. */
  predicate LeavesExactly(p: Pattern) {
    match p
    case AsPattern(q, _) => q.Some? ==> LeavesExactly(q.value)
    case OrPattern(ps) =>
      (forall i | 0 <= i < |ps| :: LeavesExactly(ps[i])) && forall i | 0 <= i < |ps| - 1 :: OneMayFail(ps[i])
    case SequencePattern(ps) => forall i | 0 <= i < |ps| :: LeavesExactly(ps[i])
    case _ => true
  }

  /** Wherever a sequence pattern is checked against a tuple of its length and its captures are kept, it can match. */
  ghost predicate Viable(sem: Meaning, chk: Checker, p: Pattern, t: Ty)
    decreases p, 1, t
  {
    match p
    case AsPattern(q, _) => q.Some? ==> Viable(sem, chk, q.value, t)
    case OrPattern(_) => AlternativesViable(sem, chk, p, 0, t)
    case SequencePattern(ps) =>
      if t.UnionType? then
        forall i | 0 <= i < |t.items| :: Checked(chk, p, t.items[i]).typ.Never? || Viable(sem, chk, p, t.items[i])
      else t.TupleType? && |t.items| == |ps| ==>
        CanMatch(sem, p, t) && forall i | 0 <= i < |ps| :: Viable(sem, chk, ps[i], t.items[i])
    case _ => true
  }

  ghost predicate AlternativesViable(sem: Meaning, chk: Checker, p: Pattern, k: nat, t: Ty)
    requires p.OrPattern? && k <= |p.patterns|
    decreases p, 0, |p.patterns| - k
  {
    k == |p.patterns| ||
    var first := Checked(chk, p.patterns[k], t);
    && Viable(sem, chk, p.patterns[k], t)
    && AlternativesViable(sem, chk, p, k + 1, if first.typ.Never? then t else first.rest)
  }

  // As-patterns.

  /** A value of the type captured by an as-pattern matches, and is in the subject type. */
  lemma AsBinds(sem: Meaning, chk: Checker, p: Pattern, t: Ty, c: Capture, w: Value)
    requires Exact(sem, chk) && Structural(t) && p.AsPattern? && p.name == Some(c.expr)
    requires p.pattern.Some? ==> c !in Checked(chk, p.pattern.value, t).captures
    requires c in Checked(chk, p, t).captures && In(sem, w, c.typ)
    ensures In(sem, w, t) && Matches(p, w) && Binds(p, w, c.expr.variable, w)
  {
    var inner := if p.pattern.Some? then Checked(chk, p.pattern.value, t) else PatternType(t, Never, []);
    var typ := chk.narrow(t, inner.typ).0;
    SetCaptureHas(inner.captures, c.expr, typ);
    assert SplitsExactly(sem, t, inner.typ, chk.narrow(t, inner.typ));
    if p.pattern.Some? {
      NarrowingExact(sem, chk, p.pattern.value, t, w);
    }
  }

  /** The name of an as-pattern is not captured inside it. */
  lemma NotInside(chk: Checker, p: Pattern, t: Ty, c: Capture)
    requires p.AsPattern? && Distinct(p) && p.name == Some(c.expr) && p.pattern.Some?
    ensures c !in Checked(chk, p.pattern.value, t).captures
  {
    CheckedNamed(chk, p.pattern.value, t);
  }

  lemma AsBound(sem: Meaning, chk: Checker, p: Pattern, t: Ty)
    requires Exact(sem, chk) && Structural(t) && p.AsPattern?
    requires p.pattern.Some? ==> Bound(sem, chk, p.pattern.value, t)
    ensures Bound(sem, chk, p, t)
  {
    var inner := if p.pattern.Some? then Checked(chk, p.pattern.value, t) else PatternType(t, Never, []);
    forall c, w | c in Checked(chk, p, t).captures && In(sem, w, c.typ)
      ensures CanBind(sem, p, t, c.expr.variable, w)
    {
      if c in inner.captures {
        var v :| In(sem, v, t) && Matches(p.pattern.value, v) && Binds(p.pattern.value, v, c.expr.variable, w);
        assert Matches(p, v) && Binds(p, v, c.expr.variable, w);
      } else {
        if p.name.Some? {
          SetCaptureHas(inner.captures, p.name.value, chk.narrow(t, inner.typ).0);
        }
        AsBinds(sem, chk, p, t, c, w);
      }
    }
  }

  // Where collected types come from.

  ghost predicate AllTypes<K(!new)>(groups: seq<Group<K>>, ok: (K, Ty) -> bool) {
    forall g, typ | g in groups && typ in g.types :: ok(g.key, typ)
  }

  lemma {:induction false} AddToTypes<K(!new)>(groups: seq<Group<K>>, key: K, expr: Expr, types: seq<Ty>,
      ok: (K, Ty) -> bool)
    requires AllTypes(groups, ok) && forall typ | typ in types :: ok(key, typ)
    ensures AllTypes(AddTo(groups, key, expr, types), ok)
  {
    if groups != [] {
      assert groups[0] in groups;
      if groups[0].key != key {
        AddToTypes(groups[1..], key, expr, types, ok);
      }
    }
  }

  ghost predicate SomeCapture(results: seq<PatternType>, x: nat, typ: Ty) {
    exists k, c :: 0 <= k < |results| && c in results[k].captures && c.expr.variable == x && c.typ == typ
  }

  lemma {:induction false} ByVariableTypes(groups: seq<Group<nat>>, captures: seq<Capture>, ok: (nat, Ty) -> bool)
    requires AllTypes(groups, ok) && forall c | c in captures :: ok(c.expr.variable, c.typ)
    ensures AllTypes(ByVariable(groups, captures), ok)
    decreases |captures|
  {
    if captures != [] {
      var c := captures[0];
      AddToTypes(groups, c.expr.variable, c.expr, [c.typ], ok);
      ByVariableTypes(AddTo(groups, c.expr.variable, c.expr, [c.typ]), captures[1..], ok);
    }
  }

  lemma {:induction false} AllByVariableTypes(groups: seq<Group<nat>>, results: seq<PatternType>, ok: (nat, Ty) -> bool)
    requires AllTypes(groups, ok)
    requires forall k, c | 0 <= k < |results| && c in results[k].captures :: ok(c.expr.variable, c.typ)
    ensures AllTypes(AllByVariable(groups, results), ok)
    decreases |results|
  {
    if results != [] {
      ByVariableTypes(groups, results[0].captures, ok);
      assert forall k | 0 <= k < |results[1..]| :: results[1..][k] == results[k + 1];
      AllByVariableTypes(ByVariable(groups, results[0].captures), results[1..], ok);
    }
  }

  lemma {:induction false} OneByOneFrom(sem: Meaning, chk: Checker, typ: Ty, types: seq<Ty>, w: Value)
    requires Exact(sem, chk) && In(sem, w, UnionOneByOne(chk, typ, types))
    ensures In(sem, w, typ) || exists u :: u in types && In(sem, w, u)
    decreases |types|
  {
    if types != [] {
      var both := [typ, types[0]];
      OneByOneFrom(sem, chk, chk.simplify(both), types[1..], w);
      assert SimplifiesExactly(sem, both, chk.simplify(both));
      if In(sem, w, chk.simplify(both)) {
        var i :| 0 <= i < |both| && In(sem, w, both[i]);
        assert both[i] == typ || (both[i] == types[0] && types[0] in types);
      } else {
        var u :| u in types[1..] && In(sem, w, u);
        assert u in types;
      }
    }
  }

  /** A value of a type captured by an or-pattern is in a type captured by one of the alternatives. */
  lemma OrFrom(sem: Meaning, chk: Checker, results: seq<PatternType>, rest: Ty, names: set<nat>, c: Capture, w: Value)
    returns (k: nat, d: Capture)
    requires Exact(sem, chk) && AllNamed(results, names)
    requires c in OrResult(chk, results, rest).captures && In(sem, w, c.typ)
    ensures k < |results| && d in results[k].captures && d.expr.variable == c.expr.variable && In(sem, w, d.typ)
  {
    var groups := AllByVariable([], results);
    var i :| 0 <= i < |groups| && OrResult(chk, results, rest).captures[i] == c;
    var g := groups[i];
    AllByVariableOnly([], results, names);
    assert g in groups && g.expr.variable == g.key;
    AllByVariableTypes([], results, (x: nat, typ: Ty) => SomeCapture(results, x, typ));
    OneByOneFrom(sem, chk, Never, g.types, w);
    var typ :| typ in g.types && In(sem, w, typ);
    assert SomeCapture(results, g.key, typ);
    k, d :| 0 <= k < |results| && d in results[k].captures && d.expr.variable == g.key && d.typ == typ;
  }

  ghost predicate KeptCapture(results: seq<PatternType>, e: Expr, typ: Ty) {
    exists k, c ::
      0 <= k < |results| && !results[k].typ.Never? && c in results[k].captures && c.expr == e && c.typ == typ
  }

  lemma {:induction false} ByExprTypes(groups: seq<Group<Expr>>, captures: seq<Capture>, star: Option<Expr>,
      ok: (Expr, Ty) -> bool)
    requires AllTypes(groups, ok) && forall c | c in captures :: ok(c.expr, c.typ)
    ensures AllTypes(ByExpr(groups, captures, star), ok)
    decreases |captures|
  {
    if captures != [] {
      var c := captures[0];
      AddToTypes(groups, c.expr, c.expr, Kept(c, star), ok);
      ByExprTypes(AddTo(groups, c.expr, c.expr, Kept(c, star)), captures[1..], star, ok);
    }
  }

  lemma {:induction false} AllByExprTypes(groups: seq<Group<Expr>>, results: seq<PatternType>, star: Option<Expr>,
      ok: (Expr, Ty) -> bool)
    requires AllTypes(groups, ok)
    requires forall k, c | 0 <= k < |results| && !results[k].typ.Never? && c in results[k].captures :: ok(c.expr, c.typ)
    ensures AllTypes(AllByExpr(groups, results, star), ok)
    decreases |results|
  {
    if results != [] {
      if !results[0].typ.Never? {
        ByExprTypes(groups, results[0].captures, star, ok);
      }
      var next := if results[0].typ.Never? then groups else ByExpr(groups, results[0].captures, star);
      assert forall k | 0 <= k < |results[1..]| :: results[1..][k] == results[k + 1];
      AllByExprTypes(next, results[1..], star, ok);
    }
  }

  /** A value of a type captured over a union is in a type captured for a member that can match. */
  lemma UnionFrom(sem: Meaning, chk: Checker, results: seq<PatternType>, star: Option<Expr>, names: set<nat>,
      c: Capture, w: Value) returns (k: nat, d: Capture)
    requires Exact(sem, chk) && AllNamed(results, names)
    requires c in UnionResult(chk, results, star).captures && In(sem, w, c.typ)
    ensures k < |results| && !results[k].typ.Never? && d in results[k].captures && d.expr == c.expr && In(sem, w, d.typ)
  {
    var groups := AllByExpr([], results, star);
    var i :| 0 <= i < |groups| && UnionResult(chk, results, star).captures[i] == c;
    var g := groups[i];
    AllByExprOnly([], results, star, names);
    assert g in groups && g.expr == g.key;
    AllByExprTypes([], results, star, (e, typ) => KeptCapture(results, e, typ));
    assert SimplifiesExactly(sem, g.types, chk.simplify(g.types));
    var j :| 0 <= j < |g.types| && In(sem, w, g.types[j]);
    assert g.types[j] in g.types && KeptCapture(results, g.key, g.types[j]);
    k, d :| 0 <= k < |results| && !results[k].typ.Never? && d in results[k].captures && d.expr == g.key
            && d.typ == g.types[j];
  }

  // Or-patterns.

  /** The alternatives from k on, each checked against what those before it leave, are bound. */
  ghost predicate AlternativesBound(sem: Meaning, chk: Checker, p: Pattern, k: nat, t: Ty)
    requires p.OrPattern? && k <= |p.patterns|
    decreases |p.patterns| - k
  {
    k == |p.patterns| ||
    var first := Checked(chk, p.patterns[k], t);
    && Bound(sem, chk, p.patterns[k], t)
    && AlternativesBound(sem, chk, p, k + 1, if first.typ.Never? then t else first.rest)
  }

  /** What alternative i captures is bound by a value that none of those before it matches. */
  lemma {:induction false} AlternativeBinds(sem: Meaning, chk: Checker, p: Pattern, k: nat, t: Ty, i: nat, c: Capture,
      w: Value) returns (v: Value)
    requires Exact(sem, chk) && Structural(t) && p.OrPattern? && k <= i < |p.patterns| && LeavesExactly(p)
    requires AlternativesBound(sem, chk, p, k, t)
    requires c in Alternatives(chk, p, k, t).0[i - k].captures && In(sem, w, c.typ)
    ensures In(sem, v, t) && BindsAt(p.patterns, k, i, v, c.expr.variable, w)
    decreases |p.patterns| - k
  {
    var q := p.patterns[k];
    var first := Checked(chk, q, t);
    if i == k {
      v :| In(sem, v, t) && Matches(q, v) && Binds(q, v, c.expr.variable, w);
    } else {
      var left := if first.typ.Never? then t else first.rest;
      CheckedStructural(sem, chk, q, t);
      v := AlternativeBinds(sem, chk, p, k + 1, left, i, c, w);
      NarrowingExact(sem, chk, q, t, v);
      if first.typ.Never? {
        NarrowingSound(sem, chk, q, t, v);
      }
    }
  }

  lemma OrBound(sem: Meaning, chk: Checker, p: Pattern, t: Ty)
    requires Exact(sem, chk) && Structural(t) && p.OrPattern? && LeavesExactly(p)
    requires AlternativesBound(sem, chk, p, 0, t)
    ensures Bound(sem, chk, p, t)
  {
    var r := Alternatives(chk, p, 0, t);
    AlternativesNamed(chk, p, 0, t);
    forall c, w | c in Checked(chk, p, t).captures && In(sem, w, c.typ)
      ensures CanBind(sem, p, t, c.expr.variable, w)
    {
      var k, d := OrFrom(sem, chk, r.0, r.1, Names(p), c, w);
      var v := AlternativeBinds(sem, chk, p, 0, t, k, d, w);
      assert Matches(p, v) && Binds(p, v, c.expr.variable, w);
    }
  }

  // Sequence patterns.

  lemma UnionBound(sem: Meaning, chk: Checker, p: Pattern, t: Ty)
    requires Exact(sem, chk) && p.SequencePattern? && t.UnionType?
    requires forall i | 0 <= i < |t.items| :: Checked(chk, p, t.items[i]).typ.Never? || Bound(sem, chk, p, t.items[i])
    ensures Bound(sem, chk, p, t)
  {
    if CanMatchSequence(chk, t) {
      var results := MemberResults(chk, p, t);
      forall i | 0 <= i < |t.items|
        ensures Named(results[i].captures, Names(p))
      {
        CheckedNamed(chk, p, t.items[i]);
      }
      forall c, w | c in Checked(chk, p, t).captures && In(sem, w, c.typ)
        ensures CanBind(sem, p, t, c.expr.variable, w)
      {
        var k, d := UnionFrom(sem, chk, results, StarCapture(p.patterns), Names(p), c, w);
        var v :| In(sem, v, t.items[k]) && Matches(p, v) && Binds(p, v, d.expr.variable, w);
        assert In(sem, v, t);
      }
    }
  }

  lemma NoStar(ps: seq<Pattern>)
    requires forall i | 0 <= i < |ps| :: StarFree(ps[i])
    ensures StarAt(ps) == None && Required(ps) == |ps|
  {
  }

  /** One item of a matching tuple may be replaced by another that matches there. */
  lemma Replaced(sem: Meaning, p: Pattern, t: Ty, v: Value, i: nat, e: Value, x: nat, w: Value) returns (r: Value)
    requires p.SequencePattern? && StarFree(p) && t.TupleType? && |t.items| == |p.patterns| && i < |t.items|
    requires In(sem, v, t) && Matches(p, v)
    requires In(sem, e, t.items[i]) && Matches(p.patterns[i], e) && Binds(p.patterns[i], e, x, w)
    ensures In(sem, r, t) && Matches(p, r) && Binds(p, r, x, w)
  {
    var ps := p.patterns;
    NoStar(ps);
    r := SequenceValue(v.cls, v.elems[i := e]);
    forall j | 0 <= j < |t.items|
      ensures In(sem, r.elems[j], t.items[j]) && Matches(ps[j], r.elems[j])
    {
      assert In(sem, v.elems[j], t.items[j]) && Pos(ps, |v.elems|, j) == j;
    }
    forall j {:trigger ps[j]} | 0 <= j < |ps| && Some(j) != StarAt(ps)
      ensures Matches(ps[j], r.elems[Pos(ps, |r.elems|, j)])
    {
      assert Pos(ps, |r.elems|, j) == j;
    }
    assert Binds(ps[i], r.elems[Pos(ps, |r.elems|, i)], x, w);
  }

  ghost predicate Empty(sem: Meaning, t: Ty) {
    forall v :: !In(sem, v, t)
  }

  /**
   * Over a tuple whose parts are bound, the captures are bound exactly if the whole pattern can match,
   * or nothing is captured that has a value: captures are kept even if some other part can not match.
   */
  lemma TupleBoundIff(sem: Meaning, chk: Checker, p: Pattern, t: Ty)
    requires p.SequencePattern? && StarFree(p) && t.TupleType? && |t.items| == |p.patterns|
    requires forall i | 0 <= i < |t.items| :: Bound(sem, chk, p.patterns[i], t.items[i])
    ensures Bound(sem, chk, p, t)
            <==> CanMatch(sem, p, t) || forall c | c in Checked(chk, p, t).captures :: Empty(sem, c.typ)
  {
    if CanMatch(sem, p, t) {
      forall c, w | c in Checked(chk, p, t).captures && In(sem, w, c.typ)
        ensures CanBind(sem, p, t, c.expr.variable, w)
      {
        PartBound(sem, chk, p, t, c, w);
      }
    } else {
      forall c | c in Checked(chk, p, t).captures
        ensures Bound(sem, chk, p, t) ==> Empty(sem, c.typ)
      {
        forall w
          ensures Bound(sem, chk, p, t) ==> !In(sem, w, c.typ)
        {
          assert !CanBind(sem, p, t, c.expr.variable, w);
        }
      }
    }
  }

  lemma PartBound(sem: Meaning, chk: Checker, p: Pattern, t: Ty, c: Capture, w: Value)
    requires p.SequencePattern? && StarFree(p) && t.TupleType? && |t.items| == |p.patterns| && CanMatch(sem, p, t)
    requires forall i | 0 <= i < |t.items| :: Bound(sem, chk, p.patterns[i], t.items[i])
    requires c in Checked(chk, p, t).captures && In(sem, w, c.typ)
    ensures CanBind(sem, p, t, c.expr.variable, w)
  {
    NoStar(p.patterns);
    var results := Parts(chk, p, t.items);
    assert Checked(chk, p, t).captures == MergeCaptures([], results);
    MergeFrom([], results, c);
    var i :| 0 <= i < |results| && c in results[i].captures;
    assert results[i] == Checked(chk, p.patterns[i], t.items[i]);
    var e :| In(sem, e, t.items[i]) && Matches(p.patterns[i], e) && Binds(p.patterns[i], e, c.expr.variable, w);
    var v :| In(sem, v, t) && Matches(p, v);
    var r := Replaced(sem, p, t, v, i, e, c.expr.variable, w);
  }

  // The theorem.

  /** Whatever a captured type contains is bound to its variable by some value of the subject type that matches. */
  lemma {:induction false} CapturesExact(sem: Meaning, chk: Checker, p: Pattern, t: Ty)
    requires Exact(sem, chk) && Structural(t) && StarFree(p) && LeavesExactly(p) && Viable(sem, chk, p, t)
    ensures Bound(sem, chk, p, t)
    decreases p, 1, t
  {
    match p
    case AsPattern(q, _) =>
      if q.Some? {
        CapturesExact(sem, chk, q.value, t);
      }
      AsBound(sem, chk, p, t);
    case OrPattern(_) =>
      AlternativesExactly(sem, chk, p, 0, t);
      OrBound(sem, chk, p, t);
    case SingletonPattern(_) =>
    case SequencePattern(ps) =>
      SequenceExactly(sem, chk, p, t);
  }

  lemma {:induction false} AlternativesExactly(sem: Meaning, chk: Checker, p: Pattern, k: nat, t: Ty)
    requires Exact(sem, chk) && Structural(t) && p.OrPattern? && k <= |p.patterns| && StarFree(p) && LeavesExactly(p)
    requires AlternativesViable(sem, chk, p, k, t)
    ensures AlternativesBound(sem, chk, p, k, t)
    decreases p, 0, |p.patterns| - k
  {
    if k < |p.patterns| {
      var first := Checked(chk, p.patterns[k], t);
      CapturesExact(sem, chk, p.patterns[k], t);
      CheckedStructural(sem, chk, p.patterns[k], t);
      AlternativesExactly(sem, chk, p, k + 1, if first.typ.Never? then t else first.rest);
    }
  }

  lemma {:induction false} SequenceExactly(sem: Meaning, chk: Checker, p: Pattern, t: Ty)
    requires Exact(sem, chk) && Structural(t) && p.SequencePattern? && StarFree(p) && LeavesExactly(p)
    requires Viable(sem, chk, p, t)
    ensures Bound(sem, chk, p, t)
    decreases p, 0, t
  {
    var ps := p.patterns;
    NoStar(ps);
    if t.UnionType? {
      forall i | 0 <= i < |t.items|
        ensures Checked(chk, p, t.items[i]).typ.Never? || Bound(sem, chk, p, t.items[i])
      {
        if !Checked(chk, p, t.items[i]).typ.Never? {
          SequenceExactly(sem, chk, p, t.items[i]);
        }
      }
      UnionBound(sem, chk, p, t);
    } else if t.TupleType? && |t.items| == |ps| {
      forall i | 0 <= i < |ps|
        ensures Bound(sem, chk, ps[i], t.items[i])
      {
        CapturesExact(sem, chk, ps[i], t.items[i]);
      }
      TupleBoundIff(sem, chk, p, t);
    }
  }
}
