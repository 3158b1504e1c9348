// The pattern checker: visitors over a stack of type contexts.
module PatternChecking {
  import opened Text
  import opened Patterns
  import opened Narrowing
  import opened PatternCaptures
  import opened PatternExactness
  import opened PatternBindings

  method CollectByVariable(groups: seq<Group<nat>>, captures: seq<Capture>) returns (r: seq<Group<nat>>)
    ensures r == ByVariable(groups, captures)
  {
    r := groups;
    for i := 0 to |captures|
      invariant ByVariable(r, captures[i..]) == ByVariable(groups, captures)
    {
      assert captures[i..][1..] == captures[i + 1..];
      r := AddTo(r, captures[i].expr.variable, captures[i].expr, [captures[i].typ]);
    }
  }

  method CollectByExpr(groups: seq<Group<Expr>>, captures: seq<Capture>, star: Option<Expr>)
    returns (r: seq<Group<Expr>>)
    ensures r == ByExpr(groups, captures, star)
  {
    r := groups;
    for i := 0 to |captures|
      invariant ByExpr(r, captures[i..], star) == ByExpr(groups, captures, star)
    {
      assert captures[i..][1..] == captures[i + 1..];
      var c := captures[i];
      // An empty star would only add a list of nothing.
      var skip := star == Some(c.expr) && c.typ == ListType(Never);
      r := AddTo(r, c.expr, c.expr, if skip then [] else [c.typ]);
    }
  }

  method InhabitedTypes(results: seq<PatternType>) returns (types: seq<Ty>)
    ensures types == Inhabited(TypesOf(results))
  {
    types := [];
    ghost var all := TypesOf(results);
    for i := 0 to |results|
      invariant types + Inhabited(all[i..]) == Inhabited(all)
    {
      assert all[i..][1..] == all[i + 1..];
      if !results[i].typ.Never? {
        types := types + [results[i].typ];
      }
    }
  }

  method SimplifyOneByOne(chk: Checker, types: seq<Ty>) returns (typ: Ty)
    ensures typ == UnionOneByOne(chk, Never, types)
  {
    typ := Never;
    for k := 0 to |types|
      invariant UnionOneByOne(chk, typ, types[k..]) == UnionOneByOne(chk, Never, types)
    {
      assert types[k..][1..] == types[k + 1..];
      typ := chk.simplify([typ, types[k]]);
    }
  }

  method CollectAll(results: seq<PatternType>) returns (groups: seq<Group<nat>>)
    ensures groups == AllByVariable([], results)
  {
    groups := [];
    for i := 0 to |results|
      invariant AllByVariable(groups, results[i..]) == AllByVariable([], results)
    {
      assert results[i..][1..] == results[i + 1..];
      groups := CollectByVariable(groups, results[i].captures);
    }
  }

  /** The results of an or-pattern, put together. */
  method CombineAlternatives(chk: Checker, results: seq<PatternType>, rest: Ty) returns (r: PatternType)
    ensures r == OrResult(chk, results, rest)
  {
    var types := InhabitedTypes(results);
    var groups := CollectAll(results);
    var captures := [];
    for i := 0 to |groups|
      invariant captures == seq(i, k requires 0 <= k < i => Capture(groups[k].expr,
                UnionOneByOne(chk, Never, groups[k].types)))
    {
      var typ := SimplifyOneByOne(chk, groups[i].types);
      captures := captures + [Capture(groups[i].expr, typ)];
    }
    r := PatternType(chk.simplify(types), rest, captures);
  }

  /** The results of a sequence pattern for the members of a union, put together. */
  method CombineMembers(chk: Checker, results: seq<PatternType>, star: Option<Expr>) returns (r: PatternType)
    ensures r == UnionResult(chk, results, star)
  {
    var groups: seq<Group<Expr>> := [];
    for i := 0 to |results|
      invariant AllByExpr(groups, results[i..], star) == AllByExpr([], results, star)
    {
      assert results[i..][1..] == results[i + 1..];
      if !results[i].typ.Never? {
        groups := CollectByExpr(groups, results[i].captures, star);
      }
    }
    r := PatternType(
      chk.simplify(TypesOf(results)),
      chk.simplify(RestsOf(results)),
      seq(|groups|, i requires 0 <= i < |groups| => Capture(groups[i].expr, chk.simplify(groups[i].types))));
  }

  class PatternChecker {
    const chk: Checker
    var typeContext: seq<Ty>

    constructor (chk: Checker)
      ensures this.chk == chk && typeContext == []
    {
      this.chk := chk;
      typeContext := [];
    }

    function Current(): Ty
      reads this
      requires typeContext != []
    {
      typeContext[|typeContext| - 1]
    }

    /**
     * Checks a pattern against a type. The narrowed and the rest type account for every value, and
     * where types are exact and the parts can match, a captured type has only values that are bound.
     */
    method Accept(o: Pattern, t: Ty) returns (r: PatternType)
      modifies this
      ensures typeContext == old(typeContext)
      ensures r == Checked(chk, o, t)
      ensures forall sem, v | Sound(sem, chk) && Strict(sem, chk) && In(sem, v, t) :: Fits(sem, o, v, r)
      ensures forall sem, c: Capture, w | Exact(sem, chk) && Structural(t) && StarFree(o) && LeavesExactly(o)
                                          && Viable(sem, chk, o, t) && c in r.captures && In(sem, w, c.typ) ::
                CanBind(sem, o, t, c.expr.variable, w)
      decreases o, 1, t, 2
    {
      typeContext := typeContext + [t];
      match o {
        case AsPattern(_, _) => r := VisitAs(o);
        case OrPattern(_) => r := VisitOr(o);
        case SingletonPattern(_) => r := VisitSingleton(o);
        case SequencePattern(_) => r := VisitSequence(o);
        case StarredPattern(_) => r := VisitStarred(o);
      }
      typeContext := typeContext[..|typeContext| - 1];
      forall sem, v | Sound(sem, chk) && Strict(sem, chk) && In(sem, v, t)
        ensures Fits(sem, o, v, r)
      {
        NarrowingSound(sem, chk, o, t, v);
      }
      forall sem, c: Capture, w | Exact(sem, chk) && Structural(t) && StarFree(o) && LeavesExactly(o)
                         && Viable(sem, chk, o, t) && c in r.captures && In(sem, w, c.typ)
        ensures CanBind(sem, o, t, c.expr.variable, w)
      {
        CapturesExact(sem, chk, o, t);
      }
    }

    method VisitAs(o: Pattern) returns (r: PatternType)
      requires o.AsPattern? && typeContext != []
      modifies this
      ensures typeContext == old(typeContext)
      ensures r == Checked(chk, o, Current())
      ensures forall sem, c: Capture, w | Exact(sem, chk) && Structural(Current()) && Distinct(o)
                                          && o.name == Some(c.expr) && c in r.captures && In(sem, w, c.typ) ::
                In(sem, w, Current()) && (o.pattern.Some? ==> Matches(o.pattern.value, w))
      decreases o, 1, Current(), 1
    {
      var current := Current();
      if o.pattern.Some? {
        r := Accept(o.pattern.value, current);
      } else {
        r := PatternType(current, Never, []);
      }
      if !r.typ.Never? && o.name.Some? {
        var typ := chk.narrow(current, r.typ).0;
        r := PatternType(typ, r.rest, if typ.Never? then r.captures else SetCapture(r.captures, o.name.value, typ));
      }
      forall sem, c: Capture, w | Exact(sem, chk) && Structural(current) && Distinct(o) && o.name == Some(c.expr)
                         && c in r.captures && In(sem, w, c.typ)
        ensures In(sem, w, current) && (o.pattern.Some? ==> Matches(o.pattern.value, w))
      {
        if o.pattern.Some? {
          NotInside(chk, o, current, c);
        }
        AsBinds(sem, chk, o, current, c, w);
      }
    }

    method VisitOr(o: Pattern) returns (r: PatternType)
      requires o.OrPattern? && typeContext != []
      modifies this
      ensures typeContext == old(typeContext)
      ensures r == Checked(chk, o, Current())
      decreases o, 1, Current(), 1
    {
      ghost var t := Current();
      var current := Current();
      var results := [];
      for i := 0 to |o.patterns|
        invariant typeContext == old(typeContext)
        invariant results + Alternatives(chk, o, i, current).0 == Alternatives(chk, o, 0, t).0
        invariant Alternatives(chk, o, i, current).1 == Alternatives(chk, o, 0, t).1
      {
        var one := Accept(o.patterns[i], current);
        results := results + [one];
        if !one.typ.Never? {
          current := one.rest;
        }
      }
      assert results + [] == results;
      r := CombineAlternatives(chk, results, current);
    }

    method VisitSingleton(o: Pattern) returns (r: PatternType)
      requires o.SingletonPattern? && typeContext != []
      ensures r == Checked(chk, o, Current())
    {
      var (narrowed, rest) := chk.narrow(Current(), TypeOf(o.value));
      r := PatternType(narrowed, rest, []);
    }

    method VisitStarred(o: Pattern) returns (r: PatternType)
      requires o.StarredPattern? && typeContext != []
      ensures r == Checked(chk, o, Current())
    {
      r := PatternType(Current(), Never, if o.capture.Some? then [Capture(o.capture.value, ListType(Current()))]
          else []);
    }

    method VisitSequence(o: Pattern) returns (r: PatternType)
      requires o.SequencePattern? && typeContext != []
      modifies this
      ensures typeContext == old(typeContext)
      ensures r == Checked(chk, o, Current())
      decreases o, 1, Current(), 1
    {
      var current := Current();
      if !CanMatchSequence(chk, current) {
        r := EarlyNonMatch(current);
      } else if current.UnionType? {
        r := MatchMembers(o, current);
      } else if current.TupleType? {
        r := MatchTuple(o, current);
      } else {
        r := MatchIterable(o, current);
      }
    }

    method MatchIterable(o: Pattern, t: Ty) returns (r: PatternType)
      requires o.SequencePattern? && !t.UnionType? && !t.TupleType? && CanMatchSequence(chk, t)
      modifies this
      ensures typeContext == old(typeContext)
      ensures r == Checked(chk, o, t)
      decreases o, 1, t, 0
    {
      var inner := Repeated(chk.itemType(t), |o.patterns|);
      var results, captures := MatchParts(o, ContractStarred(chk, inner, StarAt(o.patterns), Required(o.patterns)));
      r := OtherResult(chk, t, o.patterns, results);
    }

    method MatchTuple(o: Pattern, t: Ty) returns (r: PatternType)
      requires o.SequencePattern? && t.TupleType?
      modifies this
      ensures typeContext == old(typeContext)
      ensures r == Checked(chk, o, t)
      decreases o, 1, t, 0
    {
      var star, required := StarAt(o.patterns), Required(o.patterns);
      if !LengthFits(o.patterns, |t.items|) {
        r := EarlyNonMatch(t);
      } else {
        var results, captures := MatchParts(o, ContractStarred(chk, t.items, star, required));
        var news := ExpandStarred(TypesOf(results), star, |t.items|);
        var rests := ExpandStarred(RestsOf(results), star, |t.items|);
        r := PatternType(TupleNarrowed(news, t.fallback), TupleRest(t.items, rests, t.fallback), captures);
      }
    }

    method MatchMembers(o: Pattern, t: Ty) returns (r: PatternType)
      requires o.SequencePattern? && t.UnionType? && CanMatchSequence(chk, t)
      modifies this
      ensures typeContext == old(typeContext)
      ensures r == Checked(chk, o, t)
      decreases o, 1, t, 0
    {
      var results := [];
      for i := 0 to |t.items|
        invariant typeContext == old(typeContext)
        invariant results == seq(i, k requires 0 <= k < i => Checked(chk, o, t.items[k]))
      {
        var one := Accept(o, t.items[i]);
        results := results + [one];
      }
      r := CombineMembers(chk, results, StarCapture(o.patterns));
    }

    method MatchParts(o: Pattern, types: seq<Ty>) returns (results: seq<PatternType>, captures: seq<Capture>)
      requires o.SequencePattern? && |types| == |o.patterns|
      modifies this
      ensures typeContext == old(typeContext)
      ensures results == Parts(chk, o, types) && captures == MergeCaptures([], results)
      decreases o, 0
    {
      results, captures := [], [];
      ghost var all := Parts(chk, o, types);
      for i := 0 to |types|
        invariant typeContext == old(typeContext)
        invariant results == all[..i] && MergeCaptures(captures, all[i..]) == MergeCaptures([], all)
      {
        var one := Accept(o.patterns[i], types[i]);
        assert one == all[i] && all[i..][1..] == all[i + 1..];
        results := results + [one];
        captures := UpdateTypeMap(captures, one.captures);
      }
      assert all[..|types|] == all;
    }
  }
}
