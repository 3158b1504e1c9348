// When narrowing by patterns is exact: the narrowed type holds only values that match, and the rest
// type only values that do not.
module PatternExactness {
  import opened Text
  import opened Patterns
  import opened Narrowing

  /** Types built from constants, tuples and unions, where matching is decided by structure. */
  predicate Structural(t: Ty) {
    match t
    case Never | NoneType | LiteralBool(_) => true
    case TupleType(items, _) => forall i | 0 <= i < |items| :: Structural(items[i])
    case UnionType(items) => forall i | 0 <= i < |items| :: Structural(items[i])
    case ListType(_) | Other(_) => false
  }

  ghost predicate AllStructural(types: seq<Ty>) {
    forall i | 0 <= i < |types| :: Structural(types[i])
  }

  /** The first part is the intersection; for a constant the second part is the difference. */
  ghost predicate SplitsExactly(sem: Meaning, a: Ty, b: Ty, r: (Ty, Ty)) {
    && (forall v {:trigger In(sem, v, r.0)} | In(sem, v, r.0) :: In(sem, v, a) && In(sem, v, b))
    && (forall v {:trigger In(sem, v, r.1)} | In(sem, v, r.1) ::
       In(sem, v, a) && (b.NoneType? || b.LiteralBool? ==> !In(sem, v, b)))
    && (Structural(a) && Structural(b) ==> Structural(r.0) && Structural(r.1))
  }

  ghost predicate SimplifiesExactly(sem: Meaning, types: seq<Ty>, union: Ty) {
    && (forall v {:trigger In(sem, v, union)} | In(sem, v, union) :: exists i | 0 <= i < |types| ::
       In(sem, v, types[i]))
    && (AllStructural(types) ==> Structural(union))
  }

  ghost predicate Exact(sem: Meaning, chk: Checker) {
    && Sound(sem, chk)
    && Strict(sem, chk)
    && (forall a, b {:trigger chk.narrow(a, b)} :: SplitsExactly(sem, a, b, chk.narrow(a, b)))
    && (forall types {:trigger chk.simplify(types)} :: SimplifiesExactly(sem, types, chk.simplify(types)))
  }

  /** No slice of a sequence is matched as a whole. */
  predicate StarFree(p: Pattern) {
    match p
    case AsPattern(q, _) => q.Some? ==> StarFree(q.value)
    case OrPattern(ps) => forall i | 0 <= i < |ps| :: StarFree(ps[i])
    case SingletonPattern(_) => true
    case SequencePattern(ps) => forall i | 0 <= i < |ps| :: StarFree(ps[i])
    case StarredPattern(_) => false
  }

  predicate Irrefutable(p: Pattern) {
    match p
    case AsPattern(q, _) => q.Some? ==> Irrefutable(q.value)
    case StarredPattern(_) => true
    case _ => false
  }

  /** At most one pattern of every sequence can fail. */
  predicate OneMayFail(p: Pattern) {
    match p
    case AsPattern(q, _) => q.Some? ==> OneMayFail(q.value)
    case OrPattern(ps) => forall i | 0 <= i < |ps| :: OneMayFail(ps[i])
    case SequencePattern(ps) =>
      && (forall i | 0 <= i < |ps| :: OneMayFail(ps[i]))
      && (forall i, j | 0 <= i < j < |ps| :: Irrefutable(ps[i]) || Irrefutable(ps[j]))
    case _ => true
  }

  /** How a value of one of the resulting types relates to the pattern and the subject type. */
  ghost predicate Faithful(sem: Meaning, p: Pattern, t: Ty, v: Value, r: PatternType) {
    && (In(sem, v, r.typ) ==> Matches(p, v) && (StarFree(p) ==> In(sem, v, t)))
    && (In(sem, v, r.rest) ==> In(sem, v, t) && (OneMayFail(p) ==> !Matches(p, v)))
  }

  ghost predicate StructuralResult(r: PatternType) {
    Structural(r.typ) && Structural(r.rest)
  }

  // Results are structural again.

  lemma {:induction false} InhabitedFrom(types: seq<Ty>, i: nat) returns (k: nat)
    requires i < |Inhabited(types)|
    ensures k < |types| && types[k] == Inhabited(types)[i]
  {
    var here := if types[0].Never? then 0 else 1;
    if i < here {
      k := 0;
    } else {
      k := InhabitedFrom(types[1..], i - here);
      k := k + 1;
    }
  }

  lemma ContractStructural(sem: Meaning, chk: Checker, types: seq<Ty>, star: Option<nat>, required: nat)
    requires Exact(sem, chk) && AllStructural(types) && (star.Some? ==> star.value <= required <= |types|)
    ensures AllStructural(ContractStarred(chk, types, star, required))
  {
    if star.Some? {
      var slice := types[star.value..star.value + |types| - required];
      assert SimplifiesExactly(sem, slice, chk.simplify(slice));
    }
  }

  lemma ExpandStructural(types: seq<Ty>, star: Option<nat>, n: nat)
    requires AllStructural(types) && (star.Some? ==> star.value < |types| <= n + 1)
    ensures AllStructural(ExpandStarred(types, star, n))
  {
  }

  lemma {:induction false} CheckedStructural(sem: Meaning, chk: Checker, p: Pattern, t: Ty)
    requires Exact(sem, chk) && Structural(t)
    ensures StructuralResult(Checked(chk, p, t))
    decreases p, 1, t, 1
  {
    match p
    case AsPattern(q, name) =>
      if q.Some? {
        CheckedStructural(sem, chk, q.value, t);
        var inner := Checked(chk, q.value, t);
        assert SplitsExactly(sem, t, inner.typ, chk.narrow(t, inner.typ));
      } else {
        assert SplitsExactly(sem, t, t, chk.narrow(t, t));
      }
    case OrPattern(ps) =>
      AlternativesStructural(sem, chk, p, 0, t);
      var types := TypesOf(Alternatives(chk, p, 0, t).0);
      forall i | 0 <= i < |Inhabited(types)|
        ensures Structural(Inhabited(types)[i])
      {
        var k := InhabitedFrom(types, i);
      }
      assert SimplifiesExactly(sem, Inhabited(types), chk.simplify(Inhabited(types)));
    case SingletonPattern(c) =>
      assert SplitsExactly(sem, t, TypeOf(c), chk.narrow(t, TypeOf(c)));
    case SequencePattern(ps) =>
      SequenceStructural(sem, chk, p, t);
    case StarredPattern(_) =>
  }

  lemma {:induction false} AlternativesStructural(sem: Meaning, chk: Checker, p: Pattern, k: nat, t: Ty)
    requires Exact(sem, chk) && Structural(t) && p.OrPattern? && k <= |p.patterns|
    ensures var r := Alternatives(chk, p, k, t); AllStructural(TypesOf(r.0)) && Structural(r.1)
    decreases p, 0, |p.patterns| - k
  {
    if k < |p.patterns| {
      CheckedStructural(sem, chk, p.patterns[k], t);
      var first := Checked(chk, p.patterns[k], t);
      AlternativesStructural(sem, chk, p, k + 1, if first.typ.Never? then t else first.rest);
      var later := Alternatives(chk, p, k + 1, if first.typ.Never? then t else first.rest).0;
      assert TypesOf([first] + later) == [first.typ] + TypesOf(later);
    }
  }

  lemma {:induction false} SequenceStructural(sem: Meaning, chk: Checker, p: Pattern, t: Ty)
    requires Exact(sem, chk) && Structural(t) && p.SequencePattern?
    ensures StructuralResult(Checked(chk, p, t))
    decreases p, 1, t, 0
  {
    var ps := p.patterns;
    if t.UnionType? && CanMatchSequence(chk, t) {
      var results := seq(|t.items|, i requires 0 <= i < |t.items| => Checked(chk, p, t.items[i]));
      forall i | 0 <= i < |t.items|
        ensures StructuralResult(results[i])
      {
        CheckedStructural(sem, chk, p, t.items[i]);
      }
      UnionStructural(sem, chk, results, StarCapture(ps));
    } else if t.TupleType? && LengthFits(ps, |t.items|) {
      var contracted := ContractStarred(chk, t.items, StarAt(ps), Required(ps));
      ContractStructural(sem, chk, t.items, StarAt(ps), Required(ps));
      var results := Parts(chk, p, contracted);
      forall i | 0 <= i < |ps|
        ensures StructuralResult(results[i])
      {
        CheckedStructural(sem, chk, ps[i], contracted[i]);
      }
      TupleStructural(t, results, StarAt(ps));
    }
  }

  lemma UnionStructural(sem: Meaning, chk: Checker, results: seq<PatternType>, star: Option<Expr>)
    requires Exact(sem, chk) && forall i | 0 <= i < |results| :: StructuralResult(results[i])
    ensures StructuralResult(UnionResult(chk, results, star))
  {
    assert SimplifiesExactly(sem, TypesOf(results), chk.simplify(TypesOf(results)));
    assert SimplifiesExactly(sem, RestsOf(results), chk.simplify(RestsOf(results)));
  }

  lemma TupleStructural(t: Ty, results: seq<PatternType>, star: Option<nat>)
    requires t.TupleType? && Structural(t) && forall i | 0 <= i < |results| :: StructuralResult(results[i])
    requires if star.Some? then star.value < |results| <= |t.items| + 1 else |results| == |t.items|
    ensures Structural(TupleNarrowed(ExpandStarred(TypesOf(results), star, |t.items|), t.fallback))
    ensures Structural(TupleRest(t.items, ExpandStarred(RestsOf(results), star, |t.items|), t.fallback))
  {
    ExpandStructural(TypesOf(results), star, |t.items|);
    ExpandStructural(RestsOf(results), star, |t.items|);
  }

  // The theorem.

  lemma IrrefutableRest(chk: Checker, p: Pattern, t: Ty)
    requires Irrefutable(p)
    ensures Checked(chk, p, t).rest == Never
  {
  }

  /**
   * A value of the narrowed type matches; one of the rest type does not, if at most one pattern of
   * every sequence can fail.
   */
  lemma {:induction false} NarrowingExact(sem: Meaning, chk: Checker, p: Pattern, t: Ty, v: Value)
    requires Exact(sem, chk) && Structural(t)
    ensures Faithful(sem, p, t, v, Checked(chk, p, t))
    decreases p, 1, t, 1
  {
    match p
    case AsPattern(q, name) =>
      if q.Some? {
        NarrowingExact(sem, chk, q.value, t, v);
      }
      AsFaithful(sem, chk, p, t, v);
    case OrPattern(ps) =>
      AlternativesExact(sem, chk, p, 0, t, v);
      OrFaithful(sem, chk, p, t, v);
    case SingletonPattern(c) =>
      assert SplitsExactly(sem, t, TypeOf(c), chk.narrow(t, TypeOf(c)));
    case SequencePattern(ps) =>
      if !CanMatchSequence(chk, t) {
        if In(sem, v, t) { NotASequence(sem, chk, t, v); }
      } else if t.UnionType? {
        UnionExact(sem, chk, p, t, v);
      } else if LengthFits(ps, |t.items|) {
        TupleExact(sem, chk, p, t, v);
      }
    case StarredPattern(_) =>
  }

  lemma AsFaithful(sem: Meaning, chk: Checker, p: Pattern, t: Ty, v: Value)
    requires Exact(sem, chk) && p.AsPattern?
             && (p.pattern.Some? ==> Faithful(sem, p.pattern.value, t, v, Checked(chk, p.pattern.value, t)))
    ensures Faithful(sem, p, t, v, Checked(chk, p, t))
  {
    var inner := if p.pattern.Some? then Checked(chk, p.pattern.value, t) else PatternType(t, Never, []);
    assert SplitsExactly(sem, t, inner.typ, chk.narrow(t, inner.typ));
  }

  /** A value of any of the results matches one of the alternatives. */
  ghost predicate SomeMatches(sem: Meaning, p: Pattern, k: nat, t: Ty, v: Value, results: seq<PatternType>)
    requires p.OrPattern?
  {
    (exists i | 0 <= i < |results| :: In(sem, v, results[i].typ)) ==>
      (exists i | k <= i < |p.patterns| :: Matches(p.patterns[i], v)) && (StarFree(p) ==> In(sem, v, t))
  }

  /** A value of the rest type matches none. */
  ghost predicate NoneMatches(sem: Meaning, p: Pattern, k: nat, t: Ty, v: Value, rest: Ty)
    requires p.OrPattern?
  {
    In(sem, v, rest) ==> In(sem, v, t) && (OneMayFail(p) ==>
        forall i | k <= i < |p.patterns| :: !Matches(p.patterns[i], v))
  }

  lemma OrFaithful(sem: Meaning, chk: Checker, p: Pattern, t: Ty, v: Value)
    requires Exact(sem, chk) && p.OrPattern?
    requires SomeMatches(sem, p, 0, t, v, Alternatives(chk, p, 0, t).0)
             && NoneMatches(sem, p, 0, t, v, Alternatives(chk, p, 0, t).1)
    ensures Faithful(sem, p, t, v, Checked(chk, p, t))
  {
    var results := Alternatives(chk, p, 0, t).0;
    if In(sem, v, Checked(chk, p, t).typ) {
      var k := MemberOf(sem, chk, TypesOf(results), v);
      assert In(sem, v, results[k].typ);
    }
  }

  lemma MemberOf(sem: Meaning, chk: Checker, types: seq<Ty>, v: Value) returns (k: nat)
    requires Exact(sem, chk) && In(sem, v, chk.simplify(Inhabited(types)))
    ensures k < |types| && In(sem, v, types[k])
  {
    assert SimplifiesExactly(sem, Inhabited(types), chk.simplify(Inhabited(types)));
    var i :| 0 <= i < |Inhabited(types)| && In(sem, v, Inhabited(types)[i]);
    k := InhabitedFrom(types, i);
  }

  lemma {:induction false} AlternativesExact(sem: Meaning, chk: Checker, p: Pattern, k: nat, t: Ty, v: Value)
    requires Exact(sem, chk) && Structural(t) && p.OrPattern? && k <= |p.patterns|
    ensures SomeMatches(sem, p, k, t, v, Alternatives(chk, p, k, t).0)
            && NoneMatches(sem, p, k, t, v, Alternatives(chk, p, k, t).1)
    decreases p, 0, |p.patterns| - k
  {
    if k < |p.patterns| {
      var q := p.patterns[k];
      var first := Checked(chk, q, t);
      NarrowingExact(sem, chk, q, t, v);
      CheckedStructural(sem, chk, q, t);
      if In(sem, v, t) {
        NarrowingSound(sem, chk, q, t, v);
      }
      var left := if first.typ.Never? then t else first.rest;
      AlternativesExact(sem, chk, p, k + 1, left, v);
      var later := Alternatives(chk, p, k + 1, left);
      FirstThenSome(sem, p, k, t, left, v, first, later.0);
      FirstThenNone(sem, p, k, t, left, v, first, later.1);
    }
  }

  lemma FirstThenSome(sem: Meaning, p: Pattern, k: nat, t: Ty, left: Ty, v: Value, first: PatternType,
      later: seq<PatternType>)
    requires p.OrPattern? && k < |p.patterns| && left == (if first.typ.Never? then t else first.rest)
    requires Faithful(sem, p.patterns[k], t, v, first) && SomeMatches(sem, p, k + 1, left, v, later)
    ensures SomeMatches(sem, p, k, t, v, [first] + later)
  {
    var results := [first] + later;
    if i :| 0 <= i < |results| && In(sem, v, results[i].typ) {
      if i > 0 {
        assert results[i] == later[i - 1];
      } else {
        assert Matches(p.patterns[k], v);
      }
    }
  }

  lemma FirstThenNone(sem: Meaning, p: Pattern, k: nat, t: Ty, left: Ty, v: Value, first: PatternType, rest: Ty)
    requires p.OrPattern? && k < |p.patterns| && left == (if first.typ.Never? then t else first.rest)
    requires Faithful(sem, p.patterns[k], t, v, first) && (In(sem, v, t) ==> Fits(sem, p.patterns[k], v, first))
    requires NoneMatches(sem, p, k + 1, left, v, rest)
    ensures NoneMatches(sem, p, k, t, v, rest)
  {
    if In(sem, v, rest) && OneMayFail(p) {
      assert !Matches(p.patterns[k], v);
    }
  }

  lemma {:induction false} UnionExact(sem: Meaning, chk: Checker, p: Pattern, t: Ty, v: Value)
    requires Exact(sem, chk) && Structural(t) && t.UnionType? && p.SequencePattern? && CanMatchSequence(chk, t)
    ensures Faithful(sem, p, t, v, Checked(chk, p, t))
    decreases p, 1, t, 0
  {
    var results := seq(|t.items|, i requires 0 <= i < |t.items| => Checked(chk, p, t.items[i]));
    assert SimplifiesExactly(sem, TypesOf(results), chk.simplify(TypesOf(results)));
    assert SimplifiesExactly(sem, RestsOf(results), chk.simplify(RestsOf(results)));
    forall i | 0 <= i < |t.items|
      ensures Faithful(sem, p, t.items[i], v, results[i])
    {
      NarrowingExact(sem, chk, p, t.items[i], v);
    }
    if In(sem, v, chk.simplify(TypesOf(results))) {
      var i :| 0 <= i < |results| && In(sem, v, TypesOf(results)[i]);
      assert Faithful(sem, p, t.items[i], v, results[i]);
    }
    if In(sem, v, chk.simplify(RestsOf(results))) {
      var i :| 0 <= i < |results| && In(sem, v, RestsOf(results)[i]);
      assert Faithful(sem, p, t.items[i], v, results[i]);
    }
  }

  /** Every position is faithful to the pattern that takes it and to the type that this was checked against. */
  ghost predicate PartsFaithful(sem: Meaning, ps: seq<Pattern>, types: seq<Ty>, elems: seq<Value>,
      results: seq<PatternType>)
    requires LengthFits(ps, |elems|) && |results| == |types| == |ps|
  {
    forall j {:trigger elems[j]} | 0 <= j < |elems| ::
      var i := Taker(ps, |elems|, j); Faithful(sem, ps[i], types[i], elems[j], results[i])
  }

  lemma {:induction false} TupleExact(sem: Meaning, chk: Checker, p: Pattern, t: Ty, v: Value)
    requires Exact(sem, chk) && Structural(t) && t.TupleType? && p.SequencePattern? && LengthFits(p.patterns, |t.items|)
    ensures Faithful(sem, p, t, v, Checked(chk, p, t))
    decreases p, 1, t, 0
  {
    var ps := p.patterns;
    var contracted := ContractStarred(chk, t.items, StarAt(ps), Required(ps));
    ContractStructural(sem, chk, t.items, StarAt(ps), Required(ps));
    var results := Parts(chk, p, contracted);
    if v.SequenceValue? && |v.elems| == |t.items| {
      var narrowed := TupleNarrowed(ExpandStarred(TypesOf(results), StarAt(ps), |t.items|), t.fallback);
      var rest := TupleRest(t.items, ExpandStarred(RestsOf(results), StarAt(ps), |t.items|), t.fallback);
      forall j {:trigger v.elems[j]} | 0 <= j < |v.elems|
        ensures var i := Taker(ps, |v.elems|, j); Faithful(sem, ps[i], contracted[i], v.elems[j], results[i])
      {
        var i := Taker(ps, |v.elems|, j);
        NarrowingExact(sem, chk, ps[i], contracted[i], v.elems[j]);
      }
      if In(sem, v, narrowed) { NarrowedFaithful(sem, chk, p, t, v, results); }
      if In(sem, v, rest) { RestFaithful(sem, chk, p, t, v, results); }
    }
  }

  /** Away from the star, contracting keeps the types. */
  lemma ContractKeeps(chk: Checker, ps: seq<Pattern>, types: seq<Ty>, j: nat)
    requires LengthFits(ps, |types|) && j < |types| && Some(Taker(ps, |types|, j)) != StarAt(ps)
    ensures ContractStarred(chk, types, StarAt(ps), Required(ps))[Taker(ps, |types|, j)] == types[j]
  {
  }

  lemma NarrowedFaithful(sem: Meaning, chk: Checker, p: Pattern, t: Ty, v: Value, results: seq<PatternType>)
    requires t.TupleType? && p.SequencePattern? && LengthFits(p.patterns, |t.items|) && |results| == |p.patterns|
    requires v.SequenceValue? && |v.elems| == |t.items|
    requires PartsFaithful(sem, p.patterns, ContractStarred(chk, t.items, StarAt(p.patterns), Required(p.patterns)),
             v.elems, results)
    requires In(sem, v, TupleNarrowed(ExpandStarred(TypesOf(results), StarAt(p.patterns), |t.items|), t.fallback))
    ensures Matches(p, v) && (StarFree(p) ==> In(sem, v, t))
  {
    var ps, n := p.patterns, |t.items|;
    var news := ExpandStarred(TypesOf(results), StarAt(ps), n);
    var contracted := ContractStarred(chk, t.items, StarAt(ps), Required(ps));
    forall j {:trigger v.elems[j]} | 0 <= j < n
      ensures Matches(ps[Taker(ps, n, j)], v.elems[j])
      ensures StarFree(p) ==> In(sem, v.elems[j], t.items[j])
    {
      var i := Taker(ps, n, j);
      ExpandAt(ps, TypesOf(results), n, j);
      assert In(sem, v.elems[j], news[j]);
      assert Faithful(sem, ps[i], contracted[i], v.elems[j], results[i]);
      if StarFree(p) {
        assert StarFree(ps[i]);
        ContractKeeps(chk, ps, t.items, j);
      }
    }
    SequenceMatches(ps, v);
  }

  lemma {:induction false} TwoMayFail(rests: seq<Ty>) returns (a: nat, b: nat)
    requires CountNever(rests) < |rests| - 1
    ensures a < b < |rests| && !rests[a].Never? && !rests[b].Never?
  {
    if rests[0].Never? {
      a, b := TwoMayFail(rests[1..]);
      a, b := a + 1, b + 1;
    } else {
      CountBound(rests[1..]);
      var j :| 0 <= j < |rests[1..]| && !rests[1..][j].Never?;
      a, b := 0, j + 1;
    }
  }

  /** A position with a rest type is not taken by a pattern that always matches. */
  lemma TakerMayFail(chk: Checker, p: Pattern, types: seq<Ty>, n: nat, j: nat)
    requires p.SequencePattern? && LengthFits(p.patterns, n) && |types| == |p.patterns| && j < n
    requires !ExpandStarred(RestsOf(Parts(chk, p, types)), StarAt(p.patterns), n)[j].Never?
    ensures Some(Taker(p.patterns, n, j)) != StarAt(p.patterns) && !Irrefutable(p.patterns[Taker(p.patterns, n, j)])
    ensures Pos(p.patterns, n, Taker(p.patterns, n, j)) == j
  {
    var i := Taker(p.patterns, n, j);
    ExpandAt(p.patterns, RestsOf(Parts(chk, p, types)), n, j);
    if Irrefutable(p.patterns[i]) {
      IrrefutableRest(chk, p.patterns[i], types[i]);
    }
    PosOfTaker(p.patterns, n, j);
  }

  lemma OnlyOneRefutable(p: Pattern, a: nat, b: nat)
    requires p.SequencePattern? && OneMayFail(p) && a < |p.patterns| && b < |p.patterns|
    requires !Irrefutable(p.patterns[a]) && !Irrefutable(p.patterns[b])
    ensures a == b
  {
  }

  lemma RestFaithful(sem: Meaning, chk: Checker, p: Pattern, t: Ty, v: Value, results: seq<PatternType>)
    requires t.TupleType? && p.SequencePattern? && LengthFits(p.patterns, |t.items|)
    requires v.SequenceValue? && |v.elems| == |t.items|
    requires var contracted := ContractStarred(chk, t.items, StarAt(p.patterns), Required(p.patterns));
             results == Parts(chk, p, contracted) && PartsFaithful(sem, p.patterns, contracted, v.elems, results)
    requires In(sem, v, TupleRest(t.items, ExpandStarred(RestsOf(results), StarAt(p.patterns), |t.items|), t.fallback))
    ensures In(sem, v, t) && (OneMayFail(p) ==> !Matches(p, v))
  {
    var ps, n := p.patterns, |t.items|;
    var contracted := ContractStarred(chk, t.items, StarAt(ps), Required(ps));
    var rests := ExpandStarred(RestsOf(results), StarAt(ps), n);
    CountBound(rests);
    if CountNever(rests) == n - 1 {
      var j :| 0 <= j < n && !rests[j].Never?;
      OneFails(sem, chk, p, t, v, contracted, j);
    } else if OneMayFail(p) {
      var a, b := TwoMayFail(rests);
      TakerMayFail(chk, p, contracted, n, a);
      TakerMayFail(chk, p, contracted, n, b);
      OnlyOneRefutable(p, Taker(ps, n, a), Taker(ps, n, b));
    }
  }

  lemma OneFails(sem: Meaning, chk: Checker, p: Pattern, t: Ty, v: Value, contracted: seq<Ty>, j: nat)
    requires t.TupleType? && p.SequencePattern? && LengthFits(p.patterns, |t.items|) && j < |t.items|
    requires v.SequenceValue? && |v.elems| == |t.items|
    requires contracted == ContractStarred(chk, t.items, StarAt(p.patterns), Required(p.patterns))
    requires PartsFaithful(sem, p.patterns, contracted, v.elems, Parts(chk, p, contracted))
    requires var rests := ExpandStarred(RestsOf(Parts(chk, p, contracted)), StarAt(p.patterns), |t.items|);
             !rests[j].Never? && CountNever(rests) == |t.items| - 1
                 && In(sem, v, TupleType(FailingItems(t.items, rests), t.fallback))
    ensures In(sem, v, t) && (OneMayFail(p.patterns[Taker(p.patterns, |t.items|, j)]) ==> !Matches(p, v))
  {
    var rests := ExpandStarred(RestsOf(Parts(chk, p, contracted)), StarAt(p.patterns), |t.items|);
    assert In(sem, v.elems[j], FailingItems(t.items, rests)[j]);
    FailingAt(sem, chk, p, t.items, v, contracted, j);
    FailingWithin(sem, t.items, rests, t.fallback, v, j);
  }

  /** The item at the position that fails is in its type, and does not match its pattern. */
  lemma FailingAt(sem: Meaning, chk: Checker, p: Pattern, items: seq<Ty>, v: Value, contracted: seq<Ty>, j: nat)
    requires p.SequencePattern? && LengthFits(p.patterns, |items|) && j < |items| && v.SequenceValue?
             && |v.elems| == |items|
    requires contracted == ContractStarred(chk, items, StarAt(p.patterns), Required(p.patterns))
    requires PartsFaithful(sem, p.patterns, contracted, v.elems, Parts(chk, p, contracted))
    requires In(sem, v.elems[j], ExpandStarred(RestsOf(Parts(chk, p, contracted)), StarAt(p.patterns), |items|)[j])
    ensures In(sem, v.elems[j], items[j]) && (OneMayFail(p.patterns[Taker(p.patterns, |items|, j)]) ==> !Matches(p, v))
  {
    var ps, n := p.patterns, |items|;
    var i := Taker(ps, n, j);
    TakerMayFail(chk, p, contracted, n, j);
    ExpandAt(ps, RestsOf(Parts(chk, p, contracted)), n, j);
    assert Faithful(sem, ps[i], contracted[i], v.elems[j], Parts(chk, p, contracted)[i]);
    ContractKeeps(chk, ps, items, j);
    if OneMayFail(ps[i]) {
      FailsAt(ps, v, i);
    }
  }

  /** A pattern other than the star that does not match keeps the sequence from matching. */
  lemma FailsAt(ps: seq<Pattern>, v: Value, i: nat)
    requires v.SequenceValue? && LengthFits(ps, |v.elems|) && i < |ps| && Some(i) != StarAt(ps)
    requires !Matches(ps[i], v.elems[Pos(ps, |v.elems|, i)])
    ensures !Matches(SequencePattern(ps), v)
  {
  }

  lemma FailingWithin(sem: Meaning, items: seq<Ty>, rests: seq<Ty>, fallback: nat, v: Value, j: nat)
    requires |rests| == |items| && j < |items| && !rests[j].Never? && CountNever(rests) == |items| - 1
    requires In(sem, v, TupleType(FailingItems(items, rests), fallback)) && In(sem, v.elems[j], items[j])
    ensures In(sem, v, TupleType(items, fallback))
  {
    var failing := FailingItems(items, rests);
    forall k | 0 <= k < |items|
      ensures In(sem, v.elems[k], items[k])
    {
      assert In(sem, v.elems[k], failing[k]);
      if k < j { OnlyOne(rests, k, j); }
      if j < k { OnlyOne(rests, j, k); }
    }
  }
}
