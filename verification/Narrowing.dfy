// Narrowing by patterns is sound: a value that matches is in the narrowed type, any other value of
// the subject type is in the rest type.
module Narrowing {
  import opened Text
  import opened Patterns

  // What is asked of the other parts of the type checker.

  ghost predicate Splits(sem: Meaning, a: Ty, b: Ty, r: (Ty, Ty)) {
    forall v | In(sem, v, a) :: if In(sem, v, b) then In(sem, v, r.0) else In(sem, v, r.1)
  }

  ghost predicate Covers(sem: Meaning, types: seq<Ty>, union: Ty) {
    forall v, i | 0 <= i < |types| && In(sem, v, types[i]) :: In(sem, v, union)
  }

  ghost predicate AllIn(sem: Meaning, vs: seq<Value>, t: Ty) {
    forall i | 0 <= i < |vs| :: In(sem, vs[i], t)
  }

  ghost predicate ItemsIn(sem: Meaning, t: Ty, item: Ty) {
    forall v | In(sem, v, t) && v.SequenceValue? :: AllIn(sem, v.elems, item)
  }

  ghost predicate SequencesIn(sem: Meaning, t: Ty, item: Ty, child: Ty) {
    forall v | In(sem, v, t) && v.SequenceValue? && AllIn(sem, v.elems, item) :: In(sem, v, child)
  }

  ghost predicate OnlySequences(sem: Meaning, t: Ty) {
    forall v | In(sem, v, t) :: v.SequenceValue?
  }

  ghost predicate NoSequences(sem: Meaning, t: Ty) {
    forall v | In(sem, v, t) :: !v.SequenceValue?
  }

  /** Nothing is lost by any part of the type checker. */
  ghost predicate Sound(sem: Meaning, chk: Checker) {
    && (forall a, b {:trigger chk.narrow(a, b)} :: Splits(sem, a, b, chk.narrow(a, b)))
    && (forall types {:trigger chk.simplify(types)} :: Covers(sem, types, chk.simplify(types)))
    && (forall a, b {:trigger chk.join(a, b)} :: Covers(sem, [a, b], chk.join(a, b)))
    && (forall t {:trigger chk.itemType(t)} :: ItemsIn(sem, t, chk.itemType(t)))
    && (forall t, item {:trigger chk.sequenceOf(t, item)} :: SequencesIn(sem, t, item, chk.sequenceOf(t, item)))
    && (forall t {:trigger chk.mayBeSequence(t)} | !chk.mayBeSequence(t) :: NoSequences(sem, t))
  }

  /** Sequence types contain only what sequence patterns accept, so no strings. */
  ghost predicate Strict(sem: Meaning, chk: Checker) {
    forall t, item {:trigger chk.sequenceOf(t, item)} :: OnlySequences(sem, chk.sequenceOf(t, item))
  }

  /** The result accounts for the value. */
  ghost predicate Fits(sem: Meaning, p: Pattern, v: Value, r: PatternType) {
    if Matches(p, v) then In(sem, v, r.typ) else In(sem, v, r.rest)
  }

  // Positions of a sequence and the patterns that take them.

  /** The pattern that takes position j of a sequence of n. */
  function Taker(ps: seq<Pattern>, n: nat, j: nat): (r: nat)
    requires LengthFits(ps, n) && j < n
    ensures r < |ps|
  {
    match StarAt(ps)
    case None => j
    case Some(s) => if j < s then j else if j < s + n - Required(ps) then s else j + |ps| - n
  }

  lemma TakerOfPos(ps: seq<Pattern>, n: nat, i: nat)
    requires LengthFits(ps, n) && i < |ps| && Some(i) != StarAt(ps)
    ensures Taker(ps, n, Pos(ps, n, i)) == i
  {
  }

  lemma PosOfTaker(ps: seq<Pattern>, n: nat, j: nat)
    requires LengthFits(ps, n) && j < n && Some(Taker(ps, n, j)) != StarAt(ps)
    ensures Pos(ps, n, Taker(ps, n, j)) == j
  {
  }

  lemma MatchesByPosition(ps: seq<Pattern>, elems: seq<Value>)
    requires LengthFits(ps, |elems|)
    ensures (forall i {:trigger ps[i]} | 0 <= i < |ps| && Some(i) != StarAt(ps) ::
            Matches(ps[i], elems[Pos(ps, |elems|, i)]))
            <==> forall j {:trigger elems[j]} | 0 <= j < |elems| :: Matches(ps[Taker(ps, |elems|, j)], elems[j])
  {
    var n := |elems|;
    if forall i {:trigger ps[i]} | 0 <= i < |ps| && Some(i) != StarAt(ps) :: Matches(ps[i], elems[Pos(ps, n, i)]) {
      forall j {:trigger elems[j]} | 0 <= j < n
        ensures Matches(ps[Taker(ps, n, j)], elems[j])
      {
        if Some(Taker(ps, n, j)) != StarAt(ps) { PosOfTaker(ps, n, j); }
      }
    }
    if forall j {:trigger elems[j]} | 0 <= j < n :: Matches(ps[Taker(ps, n, j)], elems[j]) {
      forall i {:trigger ps[i]} | 0 <= i < |ps| && Some(i) != StarAt(ps)
        ensures Matches(ps[i], elems[Pos(ps, n, i)])
      {
        TakerOfPos(ps, n, i);
        var j := Pos(ps, n, i);
        assert Matches(ps[Taker(ps, n, j)], elems[j]);
      }
    }
  }

  lemma ExpandAt(ps: seq<Pattern>, types: seq<Ty>, n: nat, j: nat)
    requires LengthFits(ps, n) && |types| == |ps| && j < n
    ensures ExpandStarred(types, StarAt(ps), n)[j] == types[Taker(ps, n, j)]
  {
    match StarAt(ps)
    case None =>
    case Some(s) =>
      var before, run, after := types[..s], Repeated(types[s], n + 1 - |types|), types[s + 1..];
      if j < s {
        assert (before + run + after)[j] == before[j];
      } else if j < s + |run| {
        assert (before + run + after)[j] == run[j - s];
      } else {
        assert (before + run + after)[j] == after[j - s - |run|];
      }
  }

  /** The type at position j is part of the type that its pattern is checked against. */
  lemma ContractAt(sem: Meaning, chk: Checker, ps: seq<Pattern>, types: seq<Ty>, j: nat, v: Value)
    requires Sound(sem, chk) && LengthFits(ps, |types|) && j < |types| && In(sem, v, types[j])
    ensures In(sem, v, ContractStarred(chk, types, StarAt(ps), Required(ps))[Taker(ps, |types|, j)])
  {
    match StarAt(ps)
    case None =>
    case Some(s) =>
      var length := |types| - Required(ps);
      var slice := types[s..s + length];
      var before, merged, after := types[..s], [chk.simplify(slice)], types[s + length..];
      if j < s {
        assert (before + merged + after)[j] == before[j];
      } else if j < s + length {
        assert (before + merged + after)[s] == chk.simplify(slice);
        assert slice[j - s] == types[j];
        assert Covers(sem, slice, chk.simplify(slice));
      } else {
        assert (before + merged + after)[j + 1 - length] == after[j - s - length];
      }
  }

  lemma SequenceMatches(ps: seq<Pattern>, v: Value)
    ensures Matches(SequencePattern(ps), v)
            <==> v.SequenceValue? && LengthFits(ps, |v.elems|)
                 && forall j {:trigger v.elems[j]} | 0 <= j < |v.elems| ::
                    Matches(ps[Taker(ps, |v.elems|, j)], v.elems[j])
  {
    if v.SequenceValue? && LengthFits(ps, |v.elems|) {
      MatchesByPosition(ps, v.elems);
    }
  }

  lemma LoneStarMatches(ps: seq<Pattern>, v: Value)
    requires StarAt(ps) == Some(0) && |ps| == 1
    ensures Matches(SequencePattern(ps), v) <==> v.SequenceValue?
  {
  }

  // Counting the positions that always match.

  lemma {:induction false} CountBound(types: seq<Ty>)
    ensures CountNever(types) <= |types|
    ensures CountNever(types) == |types| <==> forall j | 0 <= j < |types| :: types[j].Never?
  {
    if types != [] {
      CountBound(types[1..]);
      assert forall j | 0 < j < |types| :: types[j] == types[1..][j - 1];
      if CountNever(types) == |types| {
        forall j | 0 <= j < |types|
          ensures types[j].Never?
        {
          if j > 0 { assert types[1..][j - 1].Never?; }
        }
      }
      if forall j | 0 <= j < |types| :: types[j].Never? {
        assert forall j | 0 <= j < |types[1..]| :: types[1..][j] == types[j + 1];
      }
    }
  }

  /** If all but one always match, the one is the only one that is not never. */
  lemma {:induction false} OnlyOne(types: seq<Ty>, a: nat, b: nat)
    requires CountNever(types) == |types| - 1 && a < b < |types|
    ensures types[a].Never? || types[b].Never?
  {
    CountBound(types[1..]);
    if a == 0 {
      if !types[0].Never? {
        assert types[1..][b - 1].Never?;
      }
    } else if types[0].Never? {
      OnlyOne(types[1..], a - 1, b - 1);
    } else {
      assert types[1..][a - 1].Never?;
    }
  }

  // The soundness theorem.

  /** The results of a sequence pattern account for the items at every position. */
  ghost predicate PartsFit(sem: Meaning, ps: seq<Pattern>, elems: seq<Value>, results: seq<PatternType>)
    requires LengthFits(ps, |elems|) && |results| == |ps|
  {
    forall j {:trigger elems[j]} | 0 <= j < |elems| ::
        Fits(sem, ps[Taker(ps, |elems|, j)], elems[j], results[Taker(ps, |elems|, j)])
  }

  lemma TupleFits(sem: Meaning, ps: seq<Pattern>, items: seq<Ty>, fallback: nat, results: seq<PatternType>, v: Value)
    requires In(sem, v, TupleType(items, fallback)) && LengthFits(ps, |items|) && |results| == |ps|
    requires PartsFit(sem, ps, v.elems, results)
    ensures Matches(SequencePattern(ps), v) ==>
            In(sem, v, TupleNarrowed(ExpandStarred(TypesOf(results), StarAt(ps), |items|), fallback))
    ensures !Matches(SequencePattern(ps), v) ==>
            In(sem, v, TupleRest(items, ExpandStarred(RestsOf(results), StarAt(ps), |items|), fallback))
  {
    var n := |items|;
    SequenceMatches(ps, v);
    if Matches(SequencePattern(ps), v) {
      var news := ExpandStarred(TypesOf(results), StarAt(ps), n);
      forall j | 0 <= j < n
        ensures In(sem, v.elems[j], news[j])
      {
        ExpandAt(ps, TypesOf(results), n, j);
        assert Fits(sem, ps[Taker(ps, n, j)], v.elems[j], results[Taker(ps, n, j)]);
      }
      assert Never !in news;
    } else {
      var rests := ExpandStarred(RestsOf(results), StarAt(ps), n);
      var j :| 0 <= j < n && !Matches(ps[Taker(ps, n, j)], v.elems[j]);
      ExpandAt(ps, RestsOf(results), n, j);
      assert Fits(sem, ps[Taker(ps, n, j)], v.elems[j], results[Taker(ps, n, j)]);
      RestFits(sem, items, fallback, rests, v, j);
    }
  }

  /** A position that fails keeps the value in the rest type. */
  lemma RestFits(sem: Meaning, items: seq<Ty>, fallback: nat, rests: seq<Ty>, v: Value, j: nat)
    requires In(sem, v, TupleType(items, fallback)) && |rests| == |items| && j < |items|
    requires In(sem, v.elems[j], rests[j])
    ensures In(sem, v, TupleRest(items, rests, fallback))
  {
    CountBound(rests);
    assert !rests[j].Never?;
    if CountNever(rests) == |rests| - 1 {
      var failing := FailingItems(items, rests);
      forall i | 0 <= i < |items|
        ensures In(sem, v.elems[i], failing[i])
      {
        if i < j { OnlyOne(rests, i, j); }
        if j < i { OnlyOne(rests, j, i); }
      }
    }
  }

  lemma {:induction false} JoinCovers(sem: Meaning, chk: Checker, typ: Ty, types: seq<Ty>, v: Value)
    requires Sound(sem, chk) && (In(sem, v, typ) || exists i | 0 <= i < |types| :: In(sem, v, types[i]))
    ensures In(sem, v, JoinAll(chk, typ, types))
    decreases |types|
  {
    if types != [] {
      var joined := chk.join(typ, types[0]);
      assert Covers(sem, [typ, types[0]], joined);
      assert [typ, types[0]][0] == typ && [typ, types[0]][1] == types[0];
      if !In(sem, v, joined) {
        var i :| 0 <= i < |types| && In(sem, v, types[i]);
        assert types[1..][i - 1] == types[i];
      }
      JoinCovers(sem, chk, joined, types[1..], v);
    }
  }

  lemma OtherFits(sem: Meaning, chk: Checker, t: Ty, ps: seq<Pattern>, results: seq<PatternType>, v: Value)
    requires Sound(sem, chk) && Strict(sem, chk) && In(sem, v, t) && |results| == |ps|
    requires v.SequenceValue? && LengthFits(ps, |v.elems|) ==> PartsFit(sem, ps, v.elems, results)
    ensures Fits(sem, SequencePattern(ps), v, OtherResult(chk, t, ps, results))
  {
    SequenceMatches(ps, v);
    var item := JoinAll(chk, Never, TypesOf(results));
    var child := chk.sequenceOf(t, item);
    assert Splits(sem, t, child, chk.narrow(t, child));
    if Matches(SequencePattern(ps), v) {
      forall j | 0 <= j < |v.elems|
        ensures In(sem, v.elems[j], item)
      {
        var i := Taker(ps, |v.elems|, j);
        assert Fits(sem, ps[i], v.elems[j], results[i]);
        assert TypesOf(results)[i] == results[i].typ;
        JoinCovers(sem, chk, Never, TypesOf(results), v.elems[j]);
      }
      assert SequencesIn(sem, t, item, child);
    } else if StarAt(ps) == Some(0) && |ps| == 1 {
      assert OnlySequences(sem, child);
      LoneStarMatches(ps, v);
    }
  }

  lemma {:induction false} NotASequence(sem: Meaning, chk: Checker, t: Ty, v: Value)
    requires Sound(sem, chk) && In(sem, v, t) && !CanMatchSequence(chk, t)
    ensures !v.SequenceValue?
  {
    if t.UnionType? {
      var i :| 0 <= i < |t.items| && In(sem, v, t.items[i]);
      NotASequence(sem, chk, t.items[i], v);
    }
  }

  lemma {:induction false} InhabitedHas(types: seq<Ty>, i: nat)
    requires i < |types| && !types[i].Never?
    ensures types[i] in Inhabited(types)
  {
    if i > 0 {
      InhabitedHas(types[1..], i - 1);
    }
  }

  lemma CoversMember(sem: Meaning, chk: Checker, types: seq<Ty>, t: Ty, v: Value)
    requires Sound(sem, chk) && t in types && In(sem, v, t)
    ensures In(sem, v, chk.simplify(types))
  {
    assert Covers(sem, types, chk.simplify(types));
    var i :| 0 <= i < |types| && types[i] == t;
    assert In(sem, v, types[i]);
  }

  /** Every value of the subject type that matches is in the narrowed type, every other one in the rest type. */
  lemma {:induction false} NarrowingSound(sem: Meaning, chk: Checker, p: Pattern, t: Ty, v: Value)
    requires Sound(sem, chk) && Strict(sem, chk) && In(sem, v, t)
    ensures Fits(sem, p, v, Checked(chk, p, t))
    decreases p, 1, t, 1
  {
    match p
    case AsPattern(q, name) =>
      if q.Some? {
        NarrowingSound(sem, chk, q.value, t, v);
        var inner := Checked(chk, q.value, t);
        assert Splits(sem, t, inner.typ, chk.narrow(t, inner.typ));
      } else {
        assert Splits(sem, t, t, chk.narrow(t, t));
      }
    case OrPattern(ps) =>
      AlternativesSound(sem, chk, p, 0, t, v);
      OrFits(sem, chk, p, t, v);
    case SingletonPattern(c) =>
      assert Splits(sem, t, TypeOf(c), chk.narrow(t, TypeOf(c)));
    case SequencePattern(ps) =>
      if !CanMatchSequence(chk, t) {
        NotASequence(sem, chk, t, v);
      } else if t.UnionType? {
        UnionSound(sem, chk, p, t, v);
      } else if t.TupleType? {
        TupleSound(sem, chk, p, t, v);
      } else {
        OtherSound(sem, chk, p, t, v);
      }
    case StarredPattern(_) =>
  }

  /** The alternatives from the k-th account for the value. */
  ghost predicate AlternativesFit(sem: Meaning, p: Pattern, k: nat, v: Value, results: seq<PatternType>, rest: Ty)
    requires p.OrPattern?
  {
    if exists i | k <= i < |p.patterns| :: Matches(p.patterns[i], v)
    then exists i | 0 <= i < |results| :: In(sem, v, results[i].typ)
    else In(sem, v, rest)
  }

  lemma OrFits(sem: Meaning, chk: Checker, p: Pattern, t: Ty, v: Value)
    requires Sound(sem, chk) && p.OrPattern?
    requires AlternativesFit(sem, p, 0, v, Alternatives(chk, p, 0, t).0, Alternatives(chk, p, 0, t).1)
    ensures Fits(sem, p, v, Checked(chk, p, t))
  {
    var results := Alternatives(chk, p, 0, t).0;
    if Matches(p, v) {
      var k :| 0 <= k < |results| && In(sem, v, results[k].typ);
      assert TypesOf(results)[k] == results[k].typ;
      InhabitedHas(TypesOf(results), k);
      CoversMember(sem, chk, Inhabited(TypesOf(results)), results[k].typ, v);
    }
  }

  lemma {:induction false} AlternativesSound(sem: Meaning, chk: Checker, p: Pattern, k: nat, t: Ty, v: Value)
    requires Sound(sem, chk) && Strict(sem, chk) && In(sem, v, t) && p.OrPattern? && k <= |p.patterns|
    ensures AlternativesFit(sem, p, k, v, Alternatives(chk, p, k, t).0, Alternatives(chk, p, k, t).1)
    decreases p, 0, |p.patterns| - k
  {
    if k < |p.patterns| {
      var first := Checked(chk, p.patterns[k], t);
      NarrowingSound(sem, chk, p.patterns[k], t, v);
      var left := if first.typ.Never? then t else first.rest;
      var later := Alternatives(chk, p, k + 1, left);
      if !Matches(p.patterns[k], v) {
        AlternativesSound(sem, chk, p, k + 1, left, v);
      }
      FirstThenLater(sem, p, k, v, first, later.0, later.1);
    }
  }

  lemma FirstThenLater(sem: Meaning, p: Pattern, k: nat, v: Value, first: PatternType, later: seq<PatternType>,
      rest: Ty)
    requires p.OrPattern? && k < |p.patterns| && Fits(sem, p.patterns[k], v, first)
    requires !Matches(p.patterns[k], v) ==> AlternativesFit(sem, p, k + 1, v, later, rest)
    ensures AlternativesFit(sem, p, k, v, [first] + later, rest)
  {
    var results := [first] + later;
    if Matches(p.patterns[k], v) {
      assert In(sem, v, results[0].typ);
    } else if exists i | k + 1 <= i < |p.patterns| :: Matches(p.patterns[i], v) {
      var i :| 0 <= i < |later| && In(sem, v, later[i].typ);
      assert results[i + 1] == later[i];
    }
  }

  lemma {:induction false} TupleSound(sem: Meaning, chk: Checker, p: Pattern, t: Ty, v: Value)
    requires Sound(sem, chk) && Strict(sem, chk) && In(sem, v, t) && t.TupleType? && p.SequencePattern?
    ensures Fits(sem, p, v, Checked(chk, p, t))
    decreases p, 1, t, 0
  {
    var ps := p.patterns;
    if LengthFits(ps, |t.items|) {
      var contracted := ContractStarred(chk, t.items, StarAt(ps), Required(ps));
      forall j {:trigger v.elems[j]} | 0 <= j < |t.items|
        ensures In(sem, v.elems[j], contracted[Taker(ps, |t.items|, j)])
      {
        ContractAt(sem, chk, ps, t.items, j, v.elems[j]);
      }
      PartsSound(sem, chk, p, contracted, v.elems);
      TupleFits(sem, ps, t.items, t.fallback, Parts(chk, p, contracted), v);
    }
  }

  lemma {:induction false} UnionSound(sem: Meaning, chk: Checker, p: Pattern, t: Ty, v: Value)
    requires Sound(sem, chk) && Strict(sem, chk) && In(sem, v, t) && t.UnionType? && p.SequencePattern?
             && CanMatchSequence(chk, t)
    ensures Fits(sem, p, v, Checked(chk, p, t))
    decreases p, 1, t, 0
  {
    var i :| 0 <= i < |t.items| && In(sem, v, t.items[i]);
    NarrowingSound(sem, chk, p, t.items[i], v);
    var results := seq(|t.items|, i requires 0 <= i < |t.items| => Checked(chk, p, t.items[i]));
    assert TypesOf(results)[i] == results[i].typ && RestsOf(results)[i] == results[i].rest;
    if Matches(p, v) {
      CoversMember(sem, chk, TypesOf(results), results[i].typ, v);
    } else {
      CoversMember(sem, chk, RestsOf(results), results[i].rest, v);
    }
  }

  lemma {:induction false} PartsSound(sem: Meaning, chk: Checker, p: Pattern, types: seq<Ty>, elems: seq<Value>)
    requires Sound(sem, chk) && Strict(sem, chk) && p.SequencePattern? && |types| == |p.patterns|
             && LengthFits(p.patterns, |elems|)
    requires forall j {:trigger elems[j]} | 0 <= j < |elems| :: In(sem, elems[j], types[Taker(p.patterns, |elems|, j)])
    ensures PartsFit(sem, p.patterns, elems, Parts(chk, p, types))
    decreases p, 0
  {
    forall j {:trigger elems[j]} | 0 <= j < |elems|
      ensures var i := Taker(p.patterns, |elems|, j); Fits(sem, p.patterns[i], elems[j], Parts(chk, p, types)[i])
    {
      var i := Taker(p.patterns, |elems|, j);
      NarrowingSound(sem, chk, p.patterns[i], types[i], elems[j]);
    }
  }

  lemma {:induction false} OtherSound(sem: Meaning, chk: Checker, p: Pattern, t: Ty, v: Value)
    requires Sound(sem, chk) && Strict(sem, chk) && In(sem, v, t) && p.SequencePattern? && CanMatchSequence(chk, t)
    requires !t.UnionType? && !t.TupleType?
    ensures Fits(sem, p, v, Checked(chk, p, t))
    decreases p, 1, t, 0
  {
    var ps, item := p.patterns, chk.itemType(t);
    var contracted := ContractStarred(chk, Repeated(item, |ps|), StarAt(ps), Required(ps));
    if v.SequenceValue? && LengthFits(ps, |v.elems|) {
      assert ItemsIn(sem, t, item);
      forall j {:trigger v.elems[j]} | 0 <= j < |v.elems|
        ensures In(sem, v.elems[j], contracted[Taker(ps, |v.elems|, j)])
      {
        RepeatedAt(sem, chk, ps, item, Taker(ps, |v.elems|, j), v.elems[j]);
      }
      PartsSound(sem, chk, p, contracted, v.elems);
    }
    OtherFits(sem, chk, t, ps, Parts(chk, p, contracted), v);
  }

  lemma RepeatedAt(sem: Meaning, chk: Checker, ps: seq<Pattern>, item: Ty, i: nat, v: Value)
    requires Sound(sem, chk) && i < |ps| && In(sem, v, item)
    ensures In(sem, v, ContractStarred(chk, Repeated(item, |ps|), StarAt(ps), Required(ps))[i])
  {
    var items := Repeated(item, |ps|);
    assert LengthFits(ps, |ps|);
    ContractAt(sem, chk, ps, items, i, v);
    assert Taker(ps, |ps|, i) == i;
  }
}
