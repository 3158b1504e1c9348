// Where narrowing by patterns stops being exact.
module PatternLimits {
  import opened Text
  import opened Patterns
  import opened Narrowing
  import opened PatternExactness

  // A star over a tuple.

  /** Position j of n is in the slice that the star takes. */
  predicate InSlice(ps: seq<Pattern>, n: nat, j: nat)
    requires LengthFits(ps, n) && j < n
  {
    Some(Taker(ps, n, j)) == StarAt(ps)
  }

  /** A match can have e at position j, as far as the slice is taken as a whole. */
  ghost predicate Possible(sem: Meaning, ps: seq<Pattern>, items: seq<Ty>, j: nat, e: Value)
    requires LengthFits(ps, |items|) && j < |items|
  {
    if InSlice(ps, |items|, j) then exists k | 0 <= k < |items| && InSlice(ps, |items|, k) :: In(sem, e, items[k])
    else In(sem, e, items[j]) && Matches(ps[Taker(ps, |items|, j)], e)
  }

  /** The items of the slice all have the same values. */
  ghost predicate SameSlice(sem: Meaning, ps: seq<Pattern>, items: seq<Ty>)
    requires LengthFits(ps, |items|)
  {
    forall j, k, e {:trigger In(sem, e, items[j]), In(sem, e, items[k])} |
      0 <= j < |items| && 0 <= k < |items| && InSlice(ps, |items|, j) && InSlice(ps, |items|, k)
          && In(sem, e, items[j]) ::
      In(sem, e, items[k])
  }

  /** No pattern but the star has a star inside. */
  ghost predicate OtherwiseStarFree(ps: seq<Pattern>) {
    forall i {:trigger ps[i]} | 0 <= i < |ps| && Some(i) != StarAt(ps) :: StarFree(ps[i])
  }

  function NewsOf(chk: Checker, p: Pattern, t: Ty): (r: seq<Ty>)
    requires p.SequencePattern? && t.TupleType? && LengthFits(p.patterns, |t.items|)
    ensures |r| == |t.items|
  {
    var contracted := ContractStarred(chk, t.items, StarAt(p.patterns), Required(p.patterns));
    ExpandStarred(TypesOf(Parts(chk, p, contracted)), StarAt(p.patterns), |t.items|)
  }

  lemma SliceMember(ps: seq<Pattern>, n: nat, j: nat)
    requires LengthFits(ps, n) && j < n && StarAt(ps).Some?
    ensures InSlice(ps, n, j) <==> StarAt(ps).value <= j < StarAt(ps).value + n - Required(ps)
  {
  }

  /** What the star's merged type holds. */
  lemma MergedIff(sem: Meaning, chk: Checker, ps: seq<Pattern>, items: seq<Ty>, e: Value)
    requires Exact(sem, chk) && LengthFits(ps, |items|) && StarAt(ps).Some?
    ensures var s := StarAt(ps).value;
            In(sem, e, ContractStarred(chk, items, StarAt(ps), Required(ps))[s])
            <==> exists k | 0 <= k < |items| && InSlice(ps, |items|, k) :: In(sem, e, items[k])
  {
    var s, length := StarAt(ps).value, |items| - Required(ps);
    var slice := items[s..s + length];
    assert ContractStarred(chk, items, StarAt(ps), Required(ps))[s] == chk.simplify(slice);
    if In(sem, e, chk.simplify(slice)) {
      assert SimplifiesExactly(sem, slice, chk.simplify(slice));
      var i :| 0 <= i < |slice| && In(sem, e, slice[i]);
      SliceMember(ps, |items|, s + i);
      assert items[s + i] == slice[i];
    }
    if k :| 0 <= k < |items| && InSlice(ps, |items|, k) && In(sem, e, items[k]) {
      SliceMember(ps, |items|, k);
      assert slice[k - s] == items[k];
      CoversMember(sem, chk, slice, items[k], e);
    }
  }

  /** The narrowed type of a position holds what is possible there. */
  lemma NewsIff(sem: Meaning, chk: Checker, p: Pattern, t: Ty, j: nat, e: Value)
    requires Exact(sem, chk) && Structural(t) && p.SequencePattern? && t.TupleType? && LengthFits(p.patterns, |t.items|)
    requires OtherwiseStarFree(p.patterns) && j < |t.items|
    ensures In(sem, e, NewsOf(chk, p, t)[j]) <==> Possible(sem, p.patterns, t.items, j, e)
  {
    var ps := p.patterns;
    var contracted := ContractStarred(chk, t.items, StarAt(ps), Required(ps));
    var i := Taker(ps, |t.items|, j);
    ExpandAt(ps, TypesOf(Parts(chk, p, contracted)), |t.items|, j);
    assert NewsOf(chk, p, t)[j] == Checked(chk, ps[i], contracted[i]).typ;
    if InSlice(ps, |t.items|, j) {
      MergedIff(sem, chk, ps, t.items, e);
    } else {
      ContractKeeps(chk, ps, t.items, j);
      assert StarFree(ps[i]);
      NarrowingExact(sem, chk, ps[i], t.items[j], e);
      if In(sem, e, t.items[j]) {
        NarrowingSound(sem, chk, ps[i], t.items[j], e);
      }
    }
  }

  /** The narrowed tuple type has the values that are possible at every position. */
  lemma NarrowedIff(sem: Meaning, chk: Checker, p: Pattern, t: Ty, v: Value)
    requires Exact(sem, chk) && Structural(t) && p.SequencePattern? && t.TupleType? && LengthFits(p.patterns, |t.items|)
    requires OtherwiseStarFree(p.patterns)
    ensures In(sem, v, Checked(chk, p, t).typ)
            <==> v.SequenceValue? && sem.subclass(v.cls, t.fallback) && |v.elems| == |t.items|
                 && forall j {:trigger v.elems[j]} | 0 <= j < |t.items| ::
                    Possible(sem, p.patterns, t.items, j, v.elems[j])
  {
    var news := NewsOf(chk, p, t);
    assert Checked(chk, p, t).typ == TupleNarrowed(news, t.fallback);
    if v.SequenceValue? && |v.elems| == |t.items| {
      forall j | 0 <= j < |t.items|
        ensures In(sem, v.elems[j], news[j]) <==> Possible(sem, p.patterns, t.items, j, v.elems[j])
      {
        NewsIff(sem, chk, p, t, j, v.elems[j]);
      }
    }
  }

  ghost predicate SomePossible(sem: Meaning, ps: seq<Pattern>, items: seq<Ty>, j: nat)
    requires LengthFits(ps, |items|) && j < |items|
  {
    exists e :: Possible(sem, ps, items, j, e)
  }

  ghost function Pick(sem: Meaning, ps: seq<Pattern>, items: seq<Ty>, j: nat): (e: Value)
    requires LengthFits(ps, |items|) && j < |items| && SomePossible(sem, ps, items, j)
    ensures Possible(sem, ps, items, j, e)
  {
    var e :| Possible(sem, ps, items, j, e);
    e
  }

  ghost predicate StaysWithin(sem: Meaning, narrowed: Ty, t: Ty) {
    forall v | In(sem, v, narrowed) :: In(sem, v, t)
  }

  /**
   * Over a tuple the narrowed type stays within the subject type exactly if the items that the star
   * takes all have the same values, or nothing can match at some position.
   */
  lemma StarWithinIff(sem: Meaning, chk: Checker, p: Pattern, t: Ty)
    requires Exact(sem, chk) && Structural(t) && p.SequencePattern? && t.TupleType? && LengthFits(p.patterns, |t.items|)
    requires OtherwiseStarFree(p.patterns) && sem.subclass(t.fallback, t.fallback)
    ensures StaysWithin(sem, Checked(chk, p, t).typ, t)
            <==> SameSlice(sem, p.patterns, t.items) || exists j | 0 <= j < |t.items| ::
                !SomePossible(sem, p.patterns, t.items, j)
  {
    var ps, items := p.patterns, t.items;
    if SameSlice(sem, ps, items) {
      forall v | In(sem, v, Checked(chk, p, t).typ)
        ensures In(sem, v, t)
      {
        NarrowedIff(sem, chk, p, t, v);
        SliceKeeps(sem, ps, items, v);
      }
    } else if j :| 0 <= j < |items| && !SomePossible(sem, ps, items, j) {
      forall v
        ensures !In(sem, v, Checked(chk, p, t).typ)
      {
        NothingPossible(sem, chk, p, t, j, v);
      }
    } else {
      var v := Gained(sem, chk, p, t);
      assert In(sem, v, Checked(chk, p, t).typ) && !In(sem, v, t);
    }
  }

  lemma NothingPossible(sem: Meaning, chk: Checker, p: Pattern, t: Ty, j: nat, v: Value)
    requires Exact(sem, chk) && Structural(t) && p.SequencePattern? && t.TupleType? && LengthFits(p.patterns, |t.items|)
    requires OtherwiseStarFree(p.patterns) && j < |t.items| && !SomePossible(sem, p.patterns, t.items, j)
    ensures !In(sem, v, Checked(chk, p, t).typ)
  {
    NarrowedIff(sem, chk, p, t, v);
    assert v.SequenceValue? && |v.elems| == |t.items| ==> !Possible(sem, p.patterns, t.items, j, v.elems[j]);
  }

  lemma SliceKeeps(sem: Meaning, ps: seq<Pattern>, items: seq<Ty>, v: Value)
    requires LengthFits(ps, |items|) && SameSlice(sem, ps, items) && v.SequenceValue? && |v.elems| == |items|
    requires forall j {:trigger v.elems[j]} | 0 <= j < |items| :: Possible(sem, ps, items, j, v.elems[j])
    ensures forall j | 0 <= j < |items| :: In(sem, v.elems[j], items[j])
  {
    forall j | 0 <= j < |items|
      ensures In(sem, v.elems[j], items[j])
    {
      assert Possible(sem, ps, items, j, v.elems[j]);
      if InSlice(ps, |items|, j) {
        var k :| 0 <= k < |items| && InSlice(ps, |items|, k) && In(sem, v.elems[j], items[k]);
      }
    }
  }

  /** An item of the slice put where only another one belongs. */
  lemma Gained(sem: Meaning, chk: Checker, p: Pattern, t: Ty) returns (v: Value)
    requires Exact(sem, chk) && Structural(t) && p.SequencePattern? && t.TupleType? && LengthFits(p.patterns, |t.items|)
    requires OtherwiseStarFree(p.patterns) && sem.subclass(t.fallback, t.fallback)
    requires !SameSlice(sem, p.patterns, t.items) && forall j | 0 <= j < |t.items| ::
             SomePossible(sem, p.patterns, t.items, j)
    ensures In(sem, v, Checked(chk, p, t).typ) && !In(sem, v, t)
  {
    var ps, items := p.patterns, t.items;
    var j, k, e :| 0 <= j < |items| && 0 <= k < |items| && InSlice(ps, |items|, j) && InSlice(ps, |items|, k)
                   && In(sem, e, items[j]) && !In(sem, e, items[k]);
    var elems := seq(|items|, i requires 0 <= i < |items| => if i == k then e else Pick(sem, ps, items, i));
    v := SequenceValue(t.fallback, elems);
    forall i {:trigger v.elems[i]} | 0 <= i < |items|
      ensures Possible(sem, ps, items, i, v.elems[i])
    {
    }
    NarrowedIff(sem, chk, p, t, v);
    assert !In(sem, v.elems[k], items[k]);
  }

  // Two positions that can fail.

  function RestTypes(chk: Checker, p: Pattern, t: Ty): (r: seq<Ty>)
    requires p.SequencePattern? && t.TupleType? && LengthFits(p.patterns, |t.items|)
    ensures |r| == |t.items|
  {
    var contracted := ContractStarred(chk, t.items, StarAt(p.patterns), Required(p.patterns));
    ExpandStarred(RestsOf(Parts(chk, p, contracted)), StarAt(p.patterns), |t.items|)
  }

  /** No value of the type matches: as a rest type it leaves out all that it should. */
  ghost predicate RestExact(sem: Meaning, p: Pattern, rest: Ty) {
    forall v | In(sem, v, rest) :: !Matches(p, v)
  }

  /**
   * Over a tuple the rest type leaves out all that matches exactly if at most one position can fail,
   * which is what the checker counts, or no value of the tuple type matches.
   */
  lemma RestExactIff(sem: Meaning, chk: Checker, p: Pattern, t: Ty)
    requires Exact(sem, chk) && Structural(t) && p.SequencePattern? && t.TupleType? && LengthFits(p.patterns, |t.items|)
    requires forall i | 0 <= i < |p.patterns| :: OneMayFail(p.patterns[i])
    ensures RestExact(sem, p, Checked(chk, p, t).rest)
            <==> CountNever(RestTypes(chk, p, t)) >= |t.items| - 1 || RestExact(sem, p, t)
  {
    var rests := RestTypes(chk, p, t);
    TupleRestChecked(chk, p, t);
    CountBound(rests);
    if CountNever(rests) == |t.items| - 1 {
      forall v | In(sem, v, TupleType(FailingItems(t.items, rests), t.fallback))
        ensures !Matches(p, v)
      {
        OneFailing(sem, chk, p, t, v);
      }
    }
    RestCases(sem, p, t, rests);
  }

  lemma TupleRestChecked(chk: Checker, p: Pattern, t: Ty)
    requires p.SequencePattern? && t.TupleType? && LengthFits(p.patterns, |t.items|)
    ensures Checked(chk, p, t).rest == TupleRest(t.items, RestTypes(chk, p, t), t.fallback)
  {
  }

  /** The three forms of the rest type. */
  lemma RestCases(sem: Meaning, p: Pattern, t: Ty, rests: seq<Ty>)
    requires t.TupleType? && |rests| == |t.items| && CountNever(rests) <= |rests|
    requires CountNever(rests) == |rests| - 1 ==> RestExact(sem, p, TupleType(FailingItems(t.items, rests), t.fallback))
    ensures RestExact(sem, p, TupleRest(t.items, rests, t.fallback))
            <==> CountNever(rests) >= |t.items| - 1 || RestExact(sem, p, t)
  {
    var rest := TupleRest(t.items, rests, t.fallback);
    if CountNever(rests) < |t.items| - 1 {
      assert rest == t;
    }
  }

  lemma OneFailing(sem: Meaning, chk: Checker, p: Pattern, t: Ty, v: Value)
    requires Exact(sem, chk) && Structural(t) && p.SequencePattern? && t.TupleType? && LengthFits(p.patterns, |t.items|)
    requires forall i | 0 <= i < |p.patterns| :: OneMayFail(p.patterns[i])
    requires CountNever(RestTypes(chk, p, t)) == |t.items| - 1
    requires In(sem, v, TupleType(FailingItems(t.items, RestTypes(chk, p, t)), t.fallback))
    ensures !Matches(p, v)
  {
    var ps, n := p.patterns, |t.items|;
    var contracted := ContractStarred(chk, t.items, StarAt(ps), Required(ps));
    ContractStructural(sem, chk, t.items, StarAt(ps), Required(ps));
    forall j {:trigger v.elems[j]} | 0 <= j < |v.elems|
      ensures var i := Taker(ps, |v.elems|, j);
              Faithful(sem, ps[i], contracted[i], v.elems[j], Parts(chk, p, contracted)[i])
    {
      var i := Taker(ps, |v.elems|, j);
      NarrowingExact(sem, chk, ps[i], contracted[i], v.elems[j]);
    }
    CountBound(RestTypes(chk, p, t));
    var j :| 0 <= j < n && !RestTypes(chk, p, t)[j].Never?;
    OneFails(sem, chk, p, t, v, contracted, j);
  }

  // Concrete cases of both.

  /** With a star every item of its slice gets the union of the slice, so values outside the subject type come in. */
  lemma StarWidens(sem: Meaning, chk: Checker, cls: nat, fallback: nat)
    requires Exact(sem, chk) && sem.subclass(cls, fallback)
    ensures var t := TupleType([NoneType, LiteralBool(true)], fallback);
            var v := SequenceValue(cls, [NoneValue, NoneValue]);
            In(sem, v, Checked(chk, SequencePattern([StarredPattern(None)]), t).typ) && !In(sem, v, t)
  {
    var p := SequencePattern([StarredPattern(None)]);
    var t := TupleType([NoneType, LiteralBool(true)], fallback);
    var v, w := SequenceValue(cls, [NoneValue, NoneValue]), SequenceValue(cls, [NoneValue, BoolValue(true)]);
    var merged := chk.simplify(t.items[0..2]);
    assert t.items[0..2] == t.items;
    CoversMember(sem, chk, t.items, t.items[0], NoneValue);
    CoversMember(sem, chk, t.items, t.items[1], BoolValue(true));
    var contracted := ContractStarred(chk, t.items, Some(0), 0);
    assert contracted == [merged];
    var types := TypesOf(Parts(chk, p, contracted));
    assert types == [merged];
    var news := ExpandStarred(types, Some(0), 2);
    assert news == [merged, merged];
    assert StarAt(p.patterns) == Some(0);
    assert !In(sem, v.elems[1], t.items[1]);
  }

  /** Where two positions can fail, the rest type keeps a value that matches. */
  lemma TwoCanFail(sem: Meaning, chk: Checker, cls: nat, fallback: nat)
    requires Exact(sem, chk) && sem.subclass(cls, fallback)
    ensures var p := SequencePattern([SingletonPattern(NoneConstant), SingletonPattern(NoneConstant)]);
            var item := UnionType([NoneType, LiteralBool(true)]);
            var v := SequenceValue(cls, [NoneValue, NoneValue]);
            Matches(p, v) && In(sem, v, Checked(chk, p, TupleType([item, item], fallback)).rest)
  {
    var none := SingletonPattern(NoneConstant);
    var p, item := SequencePattern([none, none]), UnionType([NoneType, LiteralBool(true)]);
    var t, v := TupleType([item, item], fallback), SequenceValue(cls, [NoneValue, NoneValue]);
    assert StarAt([none, none][1..]).None?;
    var rests := RestTypes(chk, p, t);
    assert rests == [Checked(chk, none, item).rest, Checked(chk, none, item).rest];
    assert In(sem, NoneValue, item.items[0]) && In(sem, BoolValue(true), item.items[1]);
    assert Splits(sem, item, NoneType, chk.narrow(item, NoneType));
    assert In(sem, BoolValue(true), rests[0]);
    assert CountNever(rests[1..]) == 0;
    TupleRestChecked(chk, p, t);
  }

  // A lone star over a type that is not spelled out.

  const LONE_STAR: Pattern := SequencePattern([StarredPattern(None)])

  /** The sequence type that a lone star makes of a type that is not spelled out. */
  function StarChild(chk: Checker, t: Ty): Ty {
    chk.sequenceOf(t, chk.join(Never, chk.simplify([chk.itemType(t)])))
  }

  lemma LoneStarChecked(chk: Checker, t: Ty)
    requires (t.Other? || t.ListType?) && chk.mayBeSequence(t)
    ensures var (yes, no) := chk.narrow(t, StarChild(chk, t)); var r := Checked(chk, LONE_STAR, t);
            r.typ == yes && r.rest == no
  {
    var ps := LONE_STAR.patterns;
    assert StarAt(ps) == Some(0) && Required(ps) == 0;
    var items := Repeated(chk.itemType(t), 1);
    assert items[0..1] == [chk.itemType(t)];
    var contracted := ContractStarred(chk, items, Some(0), 0);
    assert contracted == [chk.simplify([chk.itemType(t)])];
    var results := Parts(chk, LONE_STAR, contracted);
    assert TypesOf(results) == contracted;
    assert JoinAll(chk, Never, contracted) == chk.join(Never, contracted[0]);
  }

  /**
   * Against a type that is not spelled out, a lone star takes the values of the sequence type out of
   * the rest. That is right exactly if they are all sequences: a string is a Sequence of strings, but
   * does not match.
   */
  lemma LoneStarRestIff(sem: Meaning, chk: Checker, t: Ty)
    requires Sound(sem, chk) && (t.Other? || t.ListType?) && chk.mayBeSequence(t)
    requires forall v ::
             In(sem, v, chk.narrow(t, StarChild(chk, t)).1) <==> In(sem, v, t) && !In(sem, v, StarChild(chk, t))
    ensures (forall v | In(sem, v, t) && !Matches(LONE_STAR, v) :: In(sem, v, Checked(chk, LONE_STAR, t).rest))
            <==> forall v | In(sem, v, t) && In(sem, v, StarChild(chk, t)) :: v.SequenceValue?
  {
    LoneStarChecked(chk, t);
    assert StarAt(LONE_STAR.patterns) == Some(0);
    forall v
      ensures Matches(LONE_STAR, v) <==> v.SequenceValue?
    {
      LoneStarMatches(LONE_STAR.patterns, v);
    }
  }

  /** For any other type, what is left of it are sequences of the subject type. */
  lemma OnlySequencesLeft(sem: Meaning, chk: Checker, p: Pattern, t: Ty, v: Value)
    requires Exact(sem, chk) && p.SequencePattern? && !t.UnionType? && !t.TupleType?
    requires In(sem, v, Checked(chk, p, t).typ)
    ensures In(sem, v, t) && v.SequenceValue?
  {
    var ps := p.patterns;
    var types := ContractStarred(chk, Repeated(chk.itemType(t), |ps|), StarAt(ps), Required(ps));
    var child := chk.sequenceOf(t, JoinAll(chk, Never, TypesOf(Parts(chk, p, types))));
    assert SplitsExactly(sem, t, child, chk.narrow(t, child));
    assert OnlySequences(sem, child);
  }
}
