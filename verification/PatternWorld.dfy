// A small world in which the parts of the type checker that patterns use are exact: what the theorems
// about patterns assume can all hold together.
module PatternWorld {
  import opened Text
  import opened Patterns
  import opened Narrowing
  import opened PatternCaptures
  import opened PatternExactness
  import opened PatternBindings
  import opened PatternLimits

  /** The class of which all others are subclasses; no other class has subclasses. */
  const BASE_CLASS: nat := 1

  predicate IsSubclass(c: nat, d: nat) {
    c == d || d == BASE_CLASS
  }

  /** Types that are not spelled out are empty here. */
  function World(): Meaning {
    Meaning((name, v) => false, IsSubclass)
  }

  // Intersection, difference, and what else is asked for.

  function MeetClass(c: nat, d: nat): nat {
    if d == BASE_CLASS then c else d
  }

  predicate ClassesMeet(c: nat, d: nat) {
    c == d || c == BASE_CLASS || d == BASE_CLASS
  }

  function Meet(a: Ty, b: Ty): (r: Ty)
    ensures Structural(a) && Structural(b) ==> Structural(r)
    decreases a, b
  {
    if a.UnionType? then UnionType(seq(|a.items|, i requires 0 <= i < |a.items| => Meet(a.items[i], b)))
    else if b.UnionType? then UnionType(seq(|b.items|, i requires 0 <= i < |b.items| => Meet(a, b.items[i])))
    else match (a, b)
      case (TupleType(_, c), TupleType(_, d)) =>
        if |a.items| == |b.items| && ClassesMeet(c, d) then
          TupleType(seq(|a.items|, i requires 0 <= i < |a.items| => Meet(a.items[i], b.items[i])), MeetClass(c, d))
        else Never
      case (TupleType(_, c), ListType(item)) =>
        if ClassesMeet(c, LIST_CLASS) then
          TupleType(seq(|a.items|, i requires 0 <= i < |a.items| => Meet(a.items[i], item)), LIST_CLASS)
        else Never
      case (ListType(item), TupleType(_, d)) =>
        if ClassesMeet(LIST_CLASS, d) then
          TupleType(seq(|b.items|, i requires 0 <= i < |b.items| => Meet(item, b.items[i])), LIST_CLASS)
        else Never
      case (ListType(x), ListType(y)) => ListType(Meet(x, y))
      case _ => if a == b then a else Never
  }

  /** Takes a constant away. */
  function Minus(a: Ty, constant: Ty): (r: Ty)
    ensures Structural(a) ==> Structural(r)
  {
    if a.UnionType? then UnionType(seq(|a.items|, i requires 0 <= i < |a.items| => Minus(a.items[i], constant)))
    else if a == constant then Never else a
  }

  function ItemsOf(t: Ty): Ty {
    match t
    case TupleType(items, _) => UnionType(items)
    case UnionType(items) => UnionType(seq(|items|, i requires 0 <= i < |items| => ItemsOf(items[i])))
    case ListType(item) => item
    case _ => Never
  }

  function SequencesOf(t: Ty): Ty {
    match t
    case UnionType(items) => UnionType(seq(|items|, i requires 0 <= i < |items| => SequencesOf(items[i])))
    case TupleType(_, _) => t
    case ListType(_) => t
    case _ => Never
  }

  predicate IsConstant(t: Ty) {
    t.NoneType? || t.LiteralBool?
  }

  function ExactChecker(): Checker {
    Checker(
      (a, b) => (Meet(a, b), if IsConstant(b) then Minus(a, b) else a),
      types => if types == [] then Never else UnionType(types),
      (a, b) => UnionType([a, b]),
      ItemsOf,
      (t, item) => SequencesOf(t),
      t => true)
  }

  // They mean what their names say.

  lemma {:induction false} MeetIff(a: Ty, b: Ty, v: Value)
    ensures In(World(), v, Meet(a, b)) <==> In(World(), v, a) && In(World(), v, b)
    decreases a, b
  {
    if a.UnionType? {
      forall i | 0 <= i < |a.items|
        ensures In(World(), v, Meet(a.items[i], b)) <==> In(World(), v, a.items[i]) && In(World(), v, b)
      {
        MeetIff(a.items[i], b, v);
      }
      UnionIn(a.items, Meet(a, b).items, v, b);
    } else if b.UnionType? {
      forall i | 0 <= i < |b.items|
        ensures In(World(), v, Meet(a, b.items[i])) <==> In(World(), v, b.items[i]) && In(World(), v, a)
      {
        MeetIff(a, b.items[i], v);
      }
      UnionIn(b.items, Meet(a, b).items, v, a);
    } else if v.SequenceValue? && (a.TupleType? || a.ListType?) && (b.TupleType? || b.ListType?) {
      MeetSequences(a, b, v);
    }
  }

  lemma UnionIn(items: seq<Ty>, met: seq<Ty>, v: Value, other: Ty)
    requires |met| == |items|
    requires forall i | 0 <= i < |items| ::
             In(World(), v, met[i]) <==> In(World(), v, items[i]) && In(World(), v, other)
    ensures In(World(), v, UnionType(met)) <==> In(World(), v, UnionType(items)) && In(World(), v, other)
  {
    if i :| 0 <= i < |items| && In(World(), v, items[i]) && In(World(), v, other) {
      assert In(World(), v, met[i]);
    }
  }

  /** The type asked of item i of a sequence. */
  function ItemAt(t: Ty, i: nat): Ty
    requires t.ListType? || (t.TupleType? && i < |t.items|)
  {
    if t.ListType? then t.item else t.items[i]
  }

  predicate LengthIs(t: Ty, n: nat)
    requires t.ListType? || t.TupleType?
  {
    t.TupleType? ==> |t.items| == n
  }

  function ClassOf(t: Ty): nat
    requires t.ListType? || t.TupleType?
  {
    if t.ListType? then LIST_CLASS else t.fallback
  }

  lemma InSequence(t: Ty, v: Value)
    requires (t.TupleType? || t.ListType?) && v.SequenceValue?
    ensures In(World(), v, t) <==> && LengthIs(t, |v.elems|) && IsSubclass(v.cls, ClassOf(t))
                                   && forall i | 0 <= i < |v.elems| :: In(World(), v.elems[i], ItemAt(t, i))
  {
  }

  lemma {:induction false} MeetSequences(a: Ty, b: Ty, v: Value)
    requires v.SequenceValue? && (a.TupleType? || a.ListType?) && (b.TupleType? || b.ListType?)
    ensures In(World(), v, Meet(a, b)) <==> In(World(), v, a) && In(World(), v, b)
    decreases a, b, 0
  {
    InSequence(a, v);
    InSequence(b, v);
    var n, r := |v.elems|, Meet(a, b);
    if !r.Never? {
      InSequence(r, v);
      if LengthIs(a, n) && LengthIs(b, n) {
        forall i | 0 <= i < n
          ensures In(World(), v.elems[i], ItemAt(r, i))
                  <==> In(World(), v.elems[i], ItemAt(a, i)) && In(World(), v.elems[i], ItemAt(b, i))
        {
          assert ItemAt(r, i) == Meet(ItemAt(a, i), ItemAt(b, i));
          MeetIff(ItemAt(a, i), ItemAt(b, i), v.elems[i]);
        }
      }
    }
  }

  lemma {:induction false} MinusIff(a: Ty, b: Ty, v: Value)
    requires IsConstant(b)
    ensures In(World(), v, Minus(a, b)) <==> In(World(), v, a) && !In(World(), v, b)
  {
    if a.UnionType? {
      forall i | 0 <= i < |a.items|
        ensures In(World(), v, Minus(a, b).items[i]) <==> In(World(), v, a.items[i]) && !In(World(), v, b)
      {
        MinusIff(a.items[i], b, v);
      }
      if i :| 0 <= i < |a.items| && In(World(), v, a.items[i]) && !In(World(), v, b) {
        assert In(World(), v, Minus(a, b).items[i]);
      }
    }
  }

  lemma {:induction false} ItemsCovered(t: Ty, v: Value)
    requires In(World(), v, t) && v.SequenceValue?
    ensures AllIn(World(), v.elems, ItemsOf(t))
  {
    if t.UnionType? {
      var i :| 0 <= i < |t.items| && In(World(), v, t.items[i]);
      ItemsCovered(t.items[i], v);
      forall j | 0 <= j < |v.elems|
        ensures In(World(), v.elems[j], ItemsOf(t))
      {
        assert In(World(), v.elems[j], ItemsOf(t).items[i]);
      }
    }
  }

  lemma {:induction false} SequencesIff(t: Ty, v: Value)
    ensures In(World(), v, SequencesOf(t)) <==> In(World(), v, t) && v.SequenceValue?
  {
    if t.UnionType? {
      forall i | 0 <= i < |t.items|
        ensures In(World(), v, SequencesOf(t).items[i]) <==> In(World(), v, t.items[i]) && v.SequenceValue?
      {
        SequencesIff(t.items[i], v);
      }
      if i :| 0 <= i < |t.items| && In(World(), v, t.items[i]) && v.SequenceValue? {
        assert In(World(), v, SequencesOf(t).items[i]);
      }
    }
  }

  lemma NarrowsExactly(a: Ty, b: Ty)
    ensures Splits(World(), a, b, ExactChecker().narrow(a, b))
            && SplitsExactly(World(), a, b, ExactChecker().narrow(a, b))
  {
    var r := ExactChecker().narrow(a, b);
    forall v
      ensures In(World(), v, r.0) <==> In(World(), v, a) && In(World(), v, b)
      ensures In(World(), v, r.1) <==> In(World(), v, a) && (IsConstant(b) ==> !In(World(), v, b))
    {
      MeetIff(a, b, v);
      if IsConstant(b) { MinusIff(a, b, v); }
    }
  }

  /** The hypotheses of the theorems about patterns can be met. */
  lemma ExactExists()
    ensures Exact(World(), ExactChecker()) && Sound(World(), ExactChecker()) && Strict(World(), ExactChecker())
    ensures ExactChecker().simplify([]) == Never
  {
    var chk := ExactChecker();
    forall a, b {:trigger chk.narrow(a, b)}
      ensures Splits(World(), a, b, chk.narrow(a, b)) && SplitsExactly(World(), a, b, chk.narrow(a, b))
    {
      NarrowsExactly(a, b);
    }
    forall types {:trigger chk.simplify(types)}
      ensures Covers(World(), types, chk.simplify(types)) && SimplifiesExactly(World(), types, chk.simplify(types))
    {
      UnionCovers(types);
    }
    forall a, b {:trigger chk.join(a, b)}
      ensures Covers(World(), [a, b], chk.join(a, b))
    {
      UnionCovers([a, b]);
    }
    forall t {:trigger chk.itemType(t)}
      ensures ItemsIn(World(), t, chk.itemType(t))
    {
      forall v | In(World(), v, t) && v.SequenceValue?
        ensures AllIn(World(), v.elems, chk.itemType(t))
      {
        ItemsCovered(t, v);
      }
    }
    forall t, item {:trigger chk.sequenceOf(t, item)}
      ensures SequencesIn(World(), t, item, chk.sequenceOf(t, item)) && OnlySequences(World(), chk.sequenceOf(t, item))
    {
      forall v
        ensures In(World(), v, chk.sequenceOf(t, item)) <==> In(World(), v, t) && v.SequenceValue?
      {
        SequencesIff(t, v);
      }
    }
  }

  lemma UnionCovers(types: seq<Ty>)
    ensures Covers(World(), types, UnionType(types)) && SimplifiesExactly(World(), types, UnionType(types))
  {
  }

  // A pattern of two parts, the second of which cannot match.

  function NamedFirst(x: nat): Pattern {
    SequencePattern([AsPattern(None, Some(NameExpr(x, 0))), SingletonPattern(NoneConstant)])
  }

  const TRUE: Ty := LiteralBool(true)

  /**
   * The captures of the other parts are kept although nothing matches: case (x, None) against a pair of
   * True captures True for x, which no value binds.
   */
  lemma UnmatchedCaptures(x: nat)
    ensures var p, t := NamedFirst(x), TupleType([TRUE, TRUE], BASE_CLASS);
            && Exact(World(), ExactChecker()) && Structural(t) && StarFree(p) && LeavesExactly(p)
            && Capture(NameExpr(x, 0), TRUE) in Checked(ExactChecker(), p, t).captures
            && In(World(), BoolValue(true), TRUE)
            && !CanMatch(World(), p, t) && !Bound(World(), ExactChecker(), p, t)
  {
    var chk, p, t := ExactChecker(), NamedFirst(x), TupleType([TRUE, TRUE], BASE_CLASS);
    ExactExists();
    NoStar(p.patterns);
    var results := Parts(chk, p, t.items);
    var c := Capture(NameExpr(x, 0), TRUE);
    assert chk.narrow(TRUE, TRUE).0 == TRUE && chk.narrow(TRUE, NoneType).0 == Never;
    assert results[0] == Checked(chk, p.patterns[0], TRUE) && results[0].captures == [c];
    MergeHas([], results, 0, c);
    assert Checked(chk, p, t).captures == MergeCaptures([], results);
    forall v | In(World(), v, t)
      ensures !Matches(p, v)
    {
      assert Pos(p.patterns, |v.elems|, 1) == 1 && In(World(), v.elems[1], t.items[1]);
      FailsAt(p.patterns, v, 1);
    }
    assert In(World(), BoolValue(true), c.typ) && !CanBind(World(), p, t, x, BoolValue(true));
  }

  // A world with strings, which belong to a sequence type but are not matched by sequence patterns.

  const OBJECT: Ty := Other(0)
  const SEQUENCE: Ty := Other(1)
  const TEXT: Value := ObjectValue(0)

  function TextWorld(): Meaning {
    Meaning((name: nat, v: Value) => name == 0 || (name == 1 && (v.SequenceValue? || v == TEXT)), IsSubclass)
  }

  /** Nothing is said of items but that they are objects, and only sequences are told apart. */
  function TextChecker(): Checker {
    Checker(
      (a, b) => (a, if a == b then Never else a),
      types => OBJECT,
      (a, b) => OBJECT,
      t => OBJECT,
      (t, item) => SEQUENCE,
      t => true)
  }

  lemma TextSound()
    ensures Sound(TextWorld(), TextChecker())
  {
    forall a, b {:trigger TextChecker().narrow(a, b)}
      ensures Splits(TextWorld(), a, b, TextChecker().narrow(a, b))
    {
    }
  }

  /** A value that a lone star does not match, and that is not in the rest type either. */
  lemma LoneStarLosesText()
    ensures Sound(TextWorld(), TextChecker())
    ensures In(TextWorld(), TEXT, SEQUENCE) && !Matches(LONE_STAR, TEXT)
    ensures !In(TextWorld(), TEXT, Checked(TextChecker(), LONE_STAR, SEQUENCE).rest)
  {
    TextSound();
    LoneStarChecked(TextChecker(), SEQUENCE);
    LoneStarRestIff(TextWorld(), TextChecker(), SEQUENCE);
  }
}
