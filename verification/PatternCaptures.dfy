// The types inferred for captured variables contain what the match binds, up to an empty star.
module PatternCaptures {
  import opened Text
  import opened Patterns
  import opened Narrowing

  /** The slice that the star of a sequence pattern takes, as the list that it binds. */
  function StarSlice(ps: seq<Pattern>, elems: seq<Value>): Value
    requires StarAt(ps).Some? && LengthFits(ps, |elems|)
  {
    var s := StarAt(ps).value;
    SequenceValue(LIST_CLASS, elems[s..s + |elems| - Required(ps)])
  }

  /** A successful match of v against p binds x to w; an or-pattern binds what its first matching alternative does. */
  ghost predicate Binds(p: Pattern, v: Value, x: nat, w: Value) {
    match p
    case AsPattern(q, name) =>
      (name.Some? && name.value.variable == x && w == v) || (q.Some? && Binds(q.value, v, x, w))
    case OrPattern(ps) =>
      exists i | 0 <= i < |ps| ::
        Matches(ps[i], v) && (forall j | 0 <= j < i :: !Matches(ps[j], v)) && Binds(ps[i], v, x, w)
    case SequencePattern(ps) =>
      && v.SequenceValue? && LengthFits(ps, |v.elems|)
      && (|| (exists i | 0 <= i < |ps| :: Some(i) != StarAt(ps) && Binds(ps[i], v.elems[Pos(ps, |v.elems|, i)], x, w))
          || (StarCapture(ps).Some? && StarCapture(ps).value.variable == x && w == StarSlice(ps, v.elems)))
    case _ => false
  }

  function Names(p: Pattern): set<nat> {
    match p
    case AsPattern(q, name) =>
      (if name.Some? then {name.value.variable} else {}) + (if q.Some? then Names(q.value) else {})
    case OrPattern(ps) => set i, x | 0 <= i < |ps| && x in Names(ps[i]) :: x
    case SequencePattern(ps) => set i, x | 0 <= i < |ps| && x in Names(ps[i]) :: x
    case SingletonPattern(_) => {}
    case StarredPattern(capture) => if capture.Some? then {capture.value.variable} else {}
  }

  /** Python does not allow a pattern to bind a variable twice. */
  predicate Distinct(p: Pattern) {
    match p
    case AsPattern(q, name) =>
      q.Some? ==> Distinct(q.value) && (name.Some? ==> name.value.variable !in Names(q.value))
    case OrPattern(ps) => forall i | 0 <= i < |ps| :: Distinct(ps[i])
    case SequencePattern(ps) =>
      && (forall i | 0 <= i < |ps| :: Distinct(ps[i]))
      && (forall i, j | 0 <= i < j < |ps| :: Names(ps[i]) !! Names(ps[j]))
    case _ => true
  }

  const EMPTY_LIST: Value := SequenceValue(LIST_CLASS, [])

  /** Some capture of the variable has a type with this value; of an empty list only the capture is asked. */
  ghost predicate Captured(sem: Meaning, captures: seq<Capture>, x: nat, w: Value) {
    exists c | c in captures :: c.expr.variable == x && (In(sem, w, c.typ) || w == EMPTY_LIST)
  }

  // Only variables of the pattern are captured.

  ghost predicate Named(captures: seq<Capture>, names: set<nat>) {
    forall c | c in captures :: c.expr.variable in names
  }

  lemma {:induction false} SetCaptureHas(captures: seq<Capture>, expr: Expr, typ: Ty)
    ensures Capture(expr, typ) in SetCapture(captures, expr, typ)
    ensures forall c | c in captures && c.expr != expr :: c in SetCapture(captures, expr, typ)
    ensures forall c | c in SetCapture(captures, expr, typ) :: c in captures || c == Capture(expr, typ)
  {
    if captures != [] && captures[0].expr != expr {
      SetCaptureHas(captures[1..], expr, typ);
    }
  }

  lemma {:induction false} NotCapturedHas(original: seq<Capture>, extra: seq<Capture>)
    ensures forall c | c in extra && !Captures(original, c.expr.variable) :: c in NotCaptured(original, extra)
    ensures forall c | c in NotCaptured(original, extra) :: c in extra
  {
    if extra != [] {
      NotCapturedHas(original, extra[1..]);
    }
  }

  /** Merging keeps every capture of part k, if the parts before it and what was there do not capture its variables. */
  lemma {:induction false} MergeHas(captures: seq<Capture>, results: seq<PatternType>, k: nat, c: Capture)
    requires k < |results| && c in results[k].captures && !Captures(captures, c.expr.variable)
    requires forall i | 0 <= i < k :: !Captures(results[i].captures, c.expr.variable)
    ensures c in MergeCaptures(captures, results)
    decreases |results|
  {
    NotCapturedHas(captures, results[0].captures);
    var next := UpdateTypeMap(captures, results[0].captures);
    if k == 0 {
      MergeKeeps(next, results[1..], c);
    } else {
      assert forall i | 0 <= i < k - 1 :: results[1..][i] == results[i + 1];
      MergeHas(next, results[1..], k - 1, c);
    }
  }

  lemma {:induction false} MergeKeeps(captures: seq<Capture>, results: seq<PatternType>, c: Capture)
    requires c in captures
    ensures c in MergeCaptures(captures, results)
    decreases |results|
  {
    if results != [] {
      MergeKeeps(UpdateTypeMap(captures, results[0].captures), results[1..], c);
    }
  }

  lemma {:induction false} MergeOnly(captures: seq<Capture>, results: seq<PatternType>, names: set<nat>)
    requires Named(captures, names) && forall i | 0 <= i < |results| :: Named(results[i].captures, names)
    ensures Named(MergeCaptures(captures, results), names)
    decreases |results|
  {
    if results != [] {
      NotCapturedHas(captures, results[0].captures);
      MergeOnly(UpdateTypeMap(captures, results[0].captures), results[1..], names);
    }
  }

  // Groups.

  /** Group h continues group g. */
  ghost predicate Grows<K(!new)>(g: Group<K>, h: Group<K>) {
    h.key == g.key && h.expr == g.expr && forall t | t in g.types :: t in h.types
  }

  ghost predicate AllGrow<K(!new)>(before: seq<Group<K>>, after: seq<Group<K>>) {
    forall g | g in before :: exists h | h in after :: Grows(g, h)
  }

  ghost predicate Holds<K(!new)>(groups: seq<Group<K>>, key: K, types: seq<Ty>) {
    exists g | g in groups :: g.key == key && forall t | t in types :: t in g.types
  }

  ghost predicate AllGroups<K(!new)>(groups: seq<Group<K>>, ok: (K, Expr) -> bool) {
    forall g | g in groups :: ok(g.key, g.expr)
  }

  lemma GrowTransitive<K(!new)>(a: seq<Group<K>>, b: seq<Group<K>>, c: seq<Group<K>>)
    requires AllGrow(a, b) && AllGrow(b, c)
    ensures AllGrow(a, c)
  {
    forall g | g in a
      ensures exists h | h in c :: Grows(g, h)
    {
      var h :| h in b && Grows(g, h);
      var k :| k in c && Grows(h, k);
      assert Grows(g, k);
    }
  }

  lemma GrowHolds<K(!new)>(a: seq<Group<K>>, b: seq<Group<K>>, key: K, types: seq<Ty>)
    requires AllGrow(a, b) && Holds(a, key, types)
    ensures Holds(b, key, types)
  {
    var g :| g in a && g.key == key && forall t | t in types :: t in g.types;
    var h :| h in b && Grows(g, h);
  }

  lemma {:induction false} AddToHolds<K(!new)>(groups: seq<Group<K>>, key: K, expr: Expr, types: seq<Ty>)
    ensures Holds(AddTo(groups, key, expr, types), key, types)
    ensures AllGrow(groups, AddTo(groups, key, expr, types))
  {
    var out := AddTo(groups, key, expr, types);
    if groups == [] {
      assert Group(key, expr, types) in out;
    } else if groups[0].key == key {
      var h := groups[0].(types := groups[0].types + types);
      assert h in out && Grows(groups[0], h);
      forall g | g in groups
        ensures exists h | h in out :: Grows(g, h)
      {
        if g != groups[0] { assert g in out && Grows(g, g); }
      }
    } else {
      AddToHolds(groups[1..], key, expr, types);
      var later := AddTo(groups[1..], key, expr, types);
      assert forall h | h in later :: h in out;
      forall g | g in groups
        ensures exists h | h in out :: Grows(g, h)
      {
        if g == groups[0] {
          assert g in out && Grows(g, g);
        } else {
          assert g in groups[1..];
          var h :| h in later && Grows(g, h);
          assert h in out;
        }
      }
      var h :| h in later && h.key == key && forall t | t in types :: t in h.types;
      assert h in out;
    }
  }

  lemma {:induction false} AddToOnly<K(!new)>(groups: seq<Group<K>>, key: K, expr: Expr, types: seq<Ty>,
      ok: (K, Expr) -> bool)
    requires AllGroups(groups, ok) && ok(key, expr)
    ensures AllGroups(AddTo(groups, key, expr, types), ok)
  {
    if groups != [] {
      assert groups[0] in groups;
      if groups[0].key != key {
        AddToOnly(groups[1..], key, expr, types, ok);
      }
    }
  }

  // Or-patterns.

  lemma {:induction false} ByVariableHolds(groups: seq<Group<nat>>, captures: seq<Capture>)
    ensures AllGrow(groups, ByVariable(groups, captures))
    ensures forall c | c in captures :: Holds(ByVariable(groups, captures), c.expr.variable, [c.typ])
    decreases |captures|
  {
    if captures == [] {
      assert forall g | g in groups :: Grows(g, g);
    } else {
      var c := captures[0];
      var next := AddTo(groups, c.expr.variable, c.expr, [c.typ]);
      AddToHolds(groups, c.expr.variable, c.expr, [c.typ]);
      ByVariableHolds(next, captures[1..]);
      var out := ByVariable(next, captures[1..]);
      GrowTransitive(groups, next, out);
      GrowHolds(next, out, c.expr.variable, [c.typ]);
      assert forall d | d in captures :: d == c || d in captures[1..];
    }
  }

  lemma {:induction false} AllByVariableHolds(groups: seq<Group<nat>>, results: seq<PatternType>)
    ensures AllGrow(groups, AllByVariable(groups, results))
    ensures forall k, c | 0 <= k < |results| && c in results[k].captures ::
            Holds(AllByVariable(groups, results), c.expr.variable, [c.typ])
    decreases |results|
  {
    if results == [] {
      assert forall g | g in groups :: Grows(g, g);
    } else {
      var next := ByVariable(groups, results[0].captures);
      ByVariableHolds(groups, results[0].captures);
      AllByVariableHolds(next, results[1..]);
      var out := AllByVariable(next, results[1..]);
      GrowTransitive(groups, next, out);
      forall k, c | 0 <= k < |results| && c in results[k].captures
        ensures Holds(out, c.expr.variable, [c.typ])
      {
        if k == 0 {
          GrowHolds(next, out, c.expr.variable, [c.typ]);
        } else {
          assert results[1..][k - 1] == results[k];
        }
      }
    }
  }

  lemma {:induction false} ByVariableOnly(groups: seq<Group<nat>>, captures: seq<Capture>, names: set<nat>)
    requires AllGroups(groups, (k, e: Expr) => e.variable == k && k in names) && Named(captures, names)
    ensures AllGroups(ByVariable(groups, captures), (k, e: Expr) => e.variable == k && k in names)
    decreases |captures|
  {
    if captures != [] {
      var c := captures[0];
      AddToOnly(groups, c.expr.variable, c.expr, [c.typ], (k, e: Expr) => e.variable == k && k in names);
      ByVariableOnly(AddTo(groups, c.expr.variable, c.expr, [c.typ]), captures[1..], names);
    }
  }

  lemma {:induction false} AllByVariableOnly(groups: seq<Group<nat>>, results: seq<PatternType>, names: set<nat>)
    requires AllGroups(groups, (k, e: Expr) => e.variable == k && k in names)
    requires forall i | 0 <= i < |results| :: Named(results[i].captures, names)
    ensures AllGroups(AllByVariable(groups, results), (k, e: Expr) => e.variable == k && k in names)
    decreases |results|
  {
    if results != [] {
      ByVariableOnly(groups, results[0].captures, names);
      AllByVariableOnly(ByVariable(groups, results[0].captures), results[1..], names);
    }
  }

  lemma {:induction false} OneByOneCovers(sem: Meaning, chk: Checker, typ: Ty, types: seq<Ty>, w: Value)
    requires Sound(sem, chk) && (In(sem, w, typ) || exists t | t in types :: In(sem, w, t))
    ensures In(sem, w, UnionOneByOne(chk, typ, types))
    decreases |types|
  {
    if types != [] {
      var next := chk.simplify([typ, types[0]]);
      if In(sem, w, typ) {
        CoversMember(sem, chk, [typ, types[0]], typ, w);
      } else {
        var t :| t in types && In(sem, w, t);
        if t == types[0] {
          CoversMember(sem, chk, [typ, types[0]], t, w);
        } else {
          assert t in types[1..];
        }
      }
      OneByOneCovers(sem, chk, next, types[1..], w);
    }
  }

  ghost predicate AllNamed(results: seq<PatternType>, names: set<nat>) {
    forall i | 0 <= i < |results| :: Named(results[i].captures, names)
  }

  lemma OrNamed(chk: Checker, results: seq<PatternType>, rest: Ty, names: set<nat>)
    requires AllNamed(results, names)
    ensures Named(OrResult(chk, results, rest).captures, names)
  {
    AllByVariableOnly([], results, names);
  }

  /** What one alternative captures, the or-pattern captures. */
  lemma OrKeeps(sem: Meaning, chk: Checker, results: seq<PatternType>, rest: Ty, names: set<nat>, k: nat, x: nat,
      w: Value)
    requires Sound(sem, chk) && k < |results| && Captured(sem, results[k].captures, x, w) && AllNamed(results, names)
    ensures Captured(sem, OrResult(chk, results, rest).captures, x, w)
  {
    var groups := AllByVariable([], results);
    var c :| c in results[k].captures && c.expr.variable == x && (In(sem, w, c.typ) || w == EMPTY_LIST);
    AllByVariableHolds([], results);
    AllByVariableOnly([], results, names);
    assert Holds(groups, x, [c.typ]);
    var g :| g in groups && g.key == x && forall t | t in [c.typ] :: t in g.types;
    assert c.typ in g.types;
    if In(sem, w, c.typ) {
      OneByOneCovers(sem, chk, Never, g.types, w);
    }
    OrGroup(chk, results, rest, g);
  }

  lemma OrGroup(chk: Checker, results: seq<PatternType>, rest: Ty, g: Group<nat>)
    requires g in AllByVariable([], results)
    ensures Capture(g.expr, UnionOneByOne(chk, Never, g.types)) in OrResult(chk, results, rest).captures
  {
    var groups := AllByVariable([], results);
    var i :| 0 <= i < |groups| && groups[i] == g;
    assert OrResult(chk, results, rest).captures[i] == Capture(g.expr, UnionOneByOne(chk, Never, g.types));
  }

  // Sequence patterns over a union.

  function Kept(c: Capture, star: Option<Expr>): seq<Ty> {
    if star == Some(c.expr) && c.typ == ListType(Never) then [] else [c.typ]
  }

  lemma {:induction false} ByExprHolds(groups: seq<Group<Expr>>, captures: seq<Capture>, star: Option<Expr>)
    ensures AllGrow(groups, ByExpr(groups, captures, star))
    ensures forall c | c in captures :: Holds(ByExpr(groups, captures, star), c.expr, Kept(c, star))
    decreases |captures|
  {
    if captures == [] {
      assert forall g | g in groups :: Grows(g, g);
    } else {
      var c := captures[0];
      var next := AddTo(groups, c.expr, c.expr, Kept(c, star));
      AddToHolds(groups, c.expr, c.expr, Kept(c, star));
      ByExprHolds(next, captures[1..], star);
      var out := ByExpr(next, captures[1..], star);
      GrowTransitive(groups, next, out);
      GrowHolds(next, out, c.expr, Kept(c, star));
      assert forall d | d in captures :: d == c || d in captures[1..];
    }
  }

  lemma {:induction false} AllByExprHolds(groups: seq<Group<Expr>>, results: seq<PatternType>, star: Option<Expr>)
    ensures AllGrow(groups, AllByExpr(groups, results, star))
    ensures forall k, c | 0 <= k < |results| && !results[k].typ.Never? && c in results[k].captures ::
              Holds(AllByExpr(groups, results, star), c.expr, Kept(c, star))
    decreases |results|
  {
    if results == [] {
      assert forall g | g in groups :: Grows(g, g);
    } else {
      var next := if results[0].typ.Never? then groups else ByExpr(groups, results[0].captures, star);
      ByExprHolds(groups, results[0].captures, star);
      assert AllGrow(groups, next) by {
        assert forall g | g in groups :: Grows(g, g);
      }
      AllByExprHolds(next, results[1..], star);
      var out := AllByExpr(next, results[1..], star);
      GrowTransitive(groups, next, out);
      forall k, c | 0 <= k < |results| && !results[k].typ.Never? && c in results[k].captures
        ensures Holds(out, c.expr, Kept(c, star))
      {
        if k == 0 {
          GrowHolds(next, out, c.expr, Kept(c, star));
        } else {
          assert results[1..][k - 1] == results[k];
        }
      }
    }
  }

  lemma {:induction false} ByExprOnly(groups: seq<Group<Expr>>, captures: seq<Capture>, star: Option<Expr>,
      names: set<nat>)
    requires AllGroups(groups, (k: Expr, e) => e == k && e.variable in names) && Named(captures, names)
    ensures AllGroups(ByExpr(groups, captures, star), (k: Expr, e) => e == k && e.variable in names)
    decreases |captures|
  {
    if captures != [] {
      var c := captures[0];
      AddToOnly(groups, c.expr, c.expr, Kept(c, star), (k: Expr, e) => e == k && e.variable in names);
      ByExprOnly(AddTo(groups, c.expr, c.expr, Kept(c, star)), captures[1..], star, names);
    }
  }

  lemma {:induction false} AllByExprOnly(groups: seq<Group<Expr>>, results: seq<PatternType>, star: Option<Expr>,
      names: set<nat>)
    requires AllGroups(groups, (k: Expr, e) => e == k && e.variable in names) && AllNamed(results, names)
    ensures AllGroups(AllByExpr(groups, results, star), (k: Expr, e) => e == k && e.variable in names)
    decreases |results|
  {
    if results != [] {
      ByExprOnly(groups, results[0].captures, star, names);
      var next := if results[0].typ.Never? then groups else ByExpr(groups, results[0].captures, star);
      assert forall i | 0 <= i < |results[1..]| :: results[1..][i] == results[i + 1];
      AllByExprOnly(next, results[1..], star, names);
    }
  }

  lemma UnionNamed(chk: Checker, results: seq<PatternType>, star: Option<Expr>, names: set<nat>)
    requires AllNamed(results, names)
    ensures Named(UnionResult(chk, results, star).captures, names)
  {
    AllByExprOnly([], results, star, names);
  }

  lemma FirstOfList(sem: Meaning, w: Value, t: Ty)
    ensures In(sem, w, t) && t.ListType? ==> w == EMPTY_LIST || In(sem, w.elems[0], t.item)
  {
  }

  lemma UnionKeeps(sem: Meaning, chk: Checker, results: seq<PatternType>, star: Option<Expr>, names: set<nat>, k: nat,
      x: nat, w: Value)
    requires Sound(sem, chk) && k < |results| && !results[k].typ.Never? && Captured(sem, results[k].captures, x, w)
             && AllNamed(results, names)
    ensures Captured(sem, UnionResult(chk, results, star).captures, x, w)
  {
    var groups := AllByExpr([], results, star);
    var c :| c in results[k].captures && c.expr.variable == x && (In(sem, w, c.typ) || w == EMPTY_LIST);
    AllByExprHolds([], results, star);
    AllByExprOnly([], results, star, names);
    assert Holds(groups, c.expr, Kept(c, star));
    var g :| g in groups && g.key == c.expr && forall t | t in Kept(c, star) :: t in g.types;
    if In(sem, w, c.typ) && w != EMPTY_LIST {
      FirstOfList(sem, w, c.typ);
      assert c.typ in Kept(c, star);
      CoversMember(sem, chk, g.types, c.typ, w);
    }
    UnionGroup(chk, results, star, g);
  }

  // Only names of the pattern are captured.

  lemma {:induction false} CheckedNamed(chk: Checker, p: Pattern, t: Ty)
    ensures Named(Checked(chk, p, t).captures, Names(p))
    decreases p, 1, t, 1
  {
    match p
    case AsPattern(q, name) =>
      var inner := if q.Some? then Checked(chk, q.value, t) else PatternType(t, Never, []);
      if q.Some? {
        CheckedNamed(chk, q.value, t);
      }
      if name.Some? {
        SetCaptureHas(inner.captures, name.value, chk.narrow(t, inner.typ).0);
      }
    case OrPattern(ps) =>
      AlternativesNamed(chk, p, 0, t);
      OrNamed(chk, Alternatives(chk, p, 0, t).0, Alternatives(chk, p, 0, t).1, Names(p));
    case SingletonPattern(_) =>
    case SequencePattern(ps) =>
      if CanMatchSequence(chk, t) {
        SequenceNamed(chk, p, t);
      }
    case StarredPattern(_) =>
  }

  lemma {:induction false} AlternativesNamed(chk: Checker, p: Pattern, k: nat, t: Ty)
    requires p.OrPattern? && k <= |p.patterns|
    ensures AllNamed(Alternatives(chk, p, k, t).0, Names(p))
    decreases p, 0, |p.patterns| - k
  {
    if k < |p.patterns| {
      var first := Checked(chk, p.patterns[k], t);
      CheckedNamed(chk, p.patterns[k], t);
      AlternativesNamed(chk, p, k + 1, if first.typ.Never? then t else first.rest);
    }
  }

  lemma {:induction false} SequenceNamed(chk: Checker, p: Pattern, t: Ty)
    requires p.SequencePattern? && CanMatchSequence(chk, t)
    ensures Named(Checked(chk, p, t).captures, Names(p))
    decreases p, 1, t, 0
  {
    var ps := p.patterns;
    if t.UnionType? {
      var results := seq(|t.items|, i requires 0 <= i < |t.items| => Checked(chk, p, t.items[i]));
      forall i | 0 <= i < |t.items|
        ensures Named(results[i].captures, Names(p))
      {
        CheckedNamed(chk, p, t.items[i]);
      }
      UnionNamed(chk, results, StarCapture(ps), Names(p));
    } else if t.TupleType? {
      if LengthFits(ps, |t.items|) {
        PartsNamed(chk, p, ContractStarred(chk, t.items, StarAt(ps), Required(ps)));
      }
    } else {
      PartsNamed(chk, p, ContractStarred(chk, Repeated(chk.itemType(t), |ps|), StarAt(ps), Required(ps)));
    }
  }

  lemma {:induction false} PartsNamed(chk: Checker, p: Pattern, types: seq<Ty>)
    requires p.SequencePattern? && |types| == |p.patterns|
    ensures forall i | 0 <= i < |types| :: Named(Parts(chk, p, types)[i].captures, Names(p.patterns[i]))
    ensures Named(MergeCaptures([], Parts(chk, p, types)), Names(p))
    decreases p, 0
  {
    forall i | 0 <= i < |types|
      ensures Named(Parts(chk, p, types)[i].captures, Names(p.patterns[i]))
    {
      CheckedNamed(chk, p.patterns[i], types[i]);
    }
    MergeOnly([], Parts(chk, p, types), Names(p));
  }

  // The theorem.

  /** Whatever a match binds belongs to a type captured for the variable, except that an empty star may be left out. */
  lemma {:induction false} CapturesSound(sem: Meaning, chk: Checker, p: Pattern, t: Ty, v: Value, x: nat, w: Value)
    requires Sound(sem, chk) && Strict(sem, chk) && In(sem, v, t) && Distinct(p)
    requires Matches(p, v) && Binds(p, v, x, w)
    ensures Captured(sem, Checked(chk, p, t).captures, x, w)
    decreases p, 1, t, 1
  {
    match p
    case AsPattern(_, _) =>
      AsCaptures(sem, chk, p, t, v, x, w);
    case OrPattern(_) =>
      OrCaptures(sem, chk, p, t, v, x, w);
    case SequencePattern(ps) =>
      if !CanMatchSequence(chk, t) {
        NotASequence(sem, chk, t, v);
      } else if t.UnionType? {
        UnionCaptures(sem, chk, p, t, v, x, w);
      } else {
        SequenceCaptures(sem, chk, p, t, v, x, w);
      }
  }

  lemma {:induction false} AsCaptures(sem: Meaning, chk: Checker, p: Pattern, t: Ty, v: Value, x: nat, w: Value)
    requires Sound(sem, chk) && Strict(sem, chk) && In(sem, v, t) && Distinct(p) && p.AsPattern?
    requires Matches(p, v) && Binds(p, v, x, w)
    ensures Captured(sem, Checked(chk, p, t).captures, x, w)
    decreases p, 1, t, 0
  {
    var inner := if p.pattern.Some? then Checked(chk, p.pattern.value, t) else PatternType(t, Never, []);
    if p.pattern.Some? {
      NarrowingSound(sem, chk, p.pattern.value, t, v);
    }
    assert In(sem, v, inner.typ);
    assert Splits(sem, t, inner.typ, chk.narrow(t, inner.typ));
    if p.name.Some? {
      SetCaptureHas(inner.captures, p.name.value, chk.narrow(t, inner.typ).0);
    }
    if p.pattern.Some? && Binds(p.pattern.value, v, x, w) {
      CapturesSound(sem, chk, p.pattern.value, t, v, x, w);
      CheckedNamed(chk, p.pattern.value, t);
    }
  }

  /** Alternative i is the first that matches, and it binds x to w. */
  ghost predicate BindsAt(ps: seq<Pattern>, k: nat, i: nat, v: Value, x: nat, w: Value) {
    k <= i < |ps| && Matches(ps[i], v) && (forall j | k <= j < i :: !Matches(ps[j], v)) && Binds(ps[i], v, x, w)
  }

  lemma FirstBinds(ps: seq<Pattern>, v: Value, x: nat, w: Value) returns (i: nat)
    requires Binds(OrPattern(ps), v, x, w)
    ensures BindsAt(ps, 0, i, v, x, w)
  {
    i :| 0 <= i < |ps| && Matches(ps[i], v) && (forall j | 0 <= j < i :: !Matches(ps[j], v)) && Binds(ps[i], v, x, w);
  }

  lemma {:induction false} OrCaptures(sem: Meaning, chk: Checker, p: Pattern, t: Ty, v: Value, x: nat, w: Value)
    requires Sound(sem, chk) && Strict(sem, chk) && In(sem, v, t) && Distinct(p) && p.OrPattern? && Binds(p, v, x, w)
    ensures Captured(sem, Checked(chk, p, t).captures, x, w)
    decreases p, 1, t, 0
  {
    var i := FirstBinds(p.patterns, v, x, w);
    AlternativesCapture(sem, chk, p, 0, t, v, i, x, w);
    OrCaptured(sem, chk, p, t, i, x, w);
  }

  lemma OrCaptured(sem: Meaning, chk: Checker, p: Pattern, t: Ty, i: nat, x: nat, w: Value)
    requires Sound(sem, chk) && p.OrPattern? && i < |p.patterns|
    requires Captured(sem, Alternatives(chk, p, 0, t).0[i].captures, x, w)
    ensures Captured(sem, Checked(chk, p, t).captures, x, w)
  {
    var r := Alternatives(chk, p, 0, t);
    AlternativesNamed(chk, p, 0, t);
    OrKeeps(sem, chk, r.0, r.1, Names(p), i, x, w);
  }

  lemma {:induction false} AlternativesCapture(sem: Meaning, chk: Checker, p: Pattern, k: nat, t: Ty, v: Value, i: nat,
      x: nat, w: Value)
    requires Sound(sem, chk) && Strict(sem, chk) && In(sem, v, t) && Distinct(p) && p.OrPattern?
             && BindsAt(p.patterns, k, i, v, x, w)
    ensures Captured(sem, Alternatives(chk, p, k, t).0[i - k].captures, x, w)
    decreases p, 0, |p.patterns| - k
  {
    var first := Checked(chk, p.patterns[k], t);
    if k == i {
      CapturesSound(sem, chk, p.patterns[k], t, v, x, w);
    } else {
      NarrowingSound(sem, chk, p.patterns[k], t, v);
      var left := if first.typ.Never? then t else first.rest;
      AlternativesCapture(sem, chk, p, k + 1, left, v, i, x, w);
      assert Alternatives(chk, p, k, t).0 == [first] + Alternatives(chk, p, k + 1, left).0;
    }
  }

  lemma {:induction false} UnionCaptures(sem: Meaning, chk: Checker, p: Pattern, t: Ty, v: Value, x: nat, w: Value)
    requires Sound(sem, chk) && Strict(sem, chk) && In(sem, v, t) && Distinct(p) && p.SequencePattern? && t.UnionType?
    requires CanMatchSequence(chk, t) && Matches(p, v) && Binds(p, v, x, w)
    ensures Captured(sem, Checked(chk, p, t).captures, x, w)
    decreases p, 1, t, 0
  {
    var i :| 0 <= i < |t.items| && In(sem, v, t.items[i]);
    CapturesSound(sem, chk, p, t.items[i], v, x, w);
    NarrowingSound(sem, chk, p, t.items[i], v);
    var results := seq(|t.items|, i requires 0 <= i < |t.items| => Checked(chk, p, t.items[i]));
    forall i | 0 <= i < |t.items|
      ensures Named(results[i].captures, Names(p))
    {
      CheckedNamed(chk, p, t.items[i]);
    }
    UnionKeeps(sem, chk, results, StarCapture(p.patterns), Names(p), i, x, w);
  }

  /** The types that the parts of a sequence pattern are checked against, for a tuple or an iterable. */
  function PartTypes(chk: Checker, ps: seq<Pattern>, t: Ty): (r: seq<Ty>)
    requires t.TupleType? ==> LengthFits(ps, |t.items|)
    ensures |r| == |ps|
  {
    ContractStarred(chk, if t.TupleType? then t.items else Repeated(chk.itemType(t), |ps|), StarAt(ps), Required(ps))
  }

  lemma PartTypesHave(sem: Meaning, chk: Checker, ps: seq<Pattern>, t: Ty, v: Value, j: nat)
    requires Sound(sem, chk) && In(sem, v, t) && !t.UnionType? && v.SequenceValue? && LengthFits(ps, |v.elems|)
             && j < |v.elems|
    ensures In(sem, v.elems[j], PartTypes(chk, ps, t)[Taker(ps, |v.elems|, j)])
  {
    if t.TupleType? {
      ContractAt(sem, chk, ps, t.items, j, v.elems[j]);
    } else {
      assert ItemsIn(sem, t, chk.itemType(t));
      RepeatedAt(sem, chk, ps, chk.itemType(t), Taker(ps, |v.elems|, j), v.elems[j]);
    }
  }

  lemma {:induction false} SequenceCaptures(sem: Meaning, chk: Checker, p: Pattern, t: Ty, v: Value, x: nat, w: Value)
    requires Sound(sem, chk) && Strict(sem, chk) && In(sem, v, t) && Distinct(p) && p.SequencePattern? && !t.UnionType?
    requires CanMatchSequence(chk, t) && Matches(p, v) && Binds(p, v, x, w)
    ensures Captured(sem, Checked(chk, p, t).captures, x, w)
    decreases p, 1, t, 0
  {
    var ps, n := p.patterns, |v.elems|;
    var types := PartTypes(chk, ps, t);
    var part := PartBinds(ps, v, x, w);
    if part.Some? {
      var i := part.value;
      TakerOfPos(ps, n, i);
      PartTypesHave(sem, chk, ps, t, v, Pos(ps, n, i));
      CapturesSound(sem, chk, ps[i], types[i], v.elems[Pos(ps, n, i)], x, w);
      PartCaptured(sem, chk, p, t, i, x, w);
    } else {
      StarCaptures(sem, chk, ps, t, v);
      PartCaptured(sem, chk, p, t, StarAt(ps).value, x, w);
    }
  }

  /** The part that binds x, if it is not the star. */
  lemma PartBinds(ps: seq<Pattern>, v: Value, x: nat, w: Value) returns (part: Option<nat>)
    requires Binds(SequencePattern(ps), v, x, w)
    ensures v.SequenceValue? && LengthFits(ps, |v.elems|)
    ensures part.Some? ==> part.value < |ps| && part != StarAt(ps)
                           && Binds(ps[part.value], v.elems[Pos(ps, |v.elems|, part.value)], x, w)
    ensures part.None? ==> StarCapture(ps).Some? && StarCapture(ps).value.variable == x && w == StarSlice(ps, v.elems)
  {
    if k :| 0 <= k < |ps| && Some(k) != StarAt(ps) && Binds(ps[k], v.elems[Pos(ps, |v.elems|, k)], x, w) {
      part := Some(k);
    } else {
      part := None;
    }
  }

  /** What a part captures is captured for the sequence. */
  lemma PartCaptured(sem: Meaning, chk: Checker, p: Pattern, t: Ty, i: nat, x: nat, w: Value)
    requires p.SequencePattern? && Distinct(p) && !t.UnionType? && CanMatchSequence(chk, t)
    requires (t.TupleType? ==> LengthFits(p.patterns, |t.items|)) && i < |p.patterns|
    requires Captured(sem, Checked(chk, p.patterns[i], PartTypes(chk, p.patterns, t)[i]).captures, x, w)
    ensures Captured(sem, Checked(chk, p, t).captures, x, w)
  {
    var types := PartTypes(chk, p.patterns, t);
    PartKeeps(sem, chk, p, types, i, x, w);
    assert Checked(chk, p, t).captures == MergeCaptures([], Parts(chk, p, types));
  }

  lemma StarCaptures(sem: Meaning, chk: Checker, ps: seq<Pattern>, t: Ty, v: Value)
    requires Sound(sem, chk) && In(sem, v, t) && !t.UnionType? && v.SequenceValue? && LengthFits(ps, |v.elems|)
             && StarAt(ps).Some?
    ensures In(sem, StarSlice(ps, v.elems), ListType(PartTypes(chk, ps, t)[StarAt(ps).value]))
  {
    var s, slice := StarAt(ps).value, StarSlice(ps, v.elems);
    forall k | 0 <= k < |slice.elems|
      ensures In(sem, slice.elems[k], PartTypes(chk, ps, t)[s])
    {
      PartTypesHave(sem, chk, ps, t, v, s + k);
    }
  }

  /** No other part captures the same variable, so nothing of part i is left out. */
  lemma PartKeeps(sem: Meaning, chk: Checker, p: Pattern, types: seq<Ty>, i: nat, x: nat, w: Value)
    requires p.SequencePattern? && Distinct(p) && |types| == |p.patterns| && i < |types|
    requires Captured(sem, Parts(chk, p, types)[i].captures, x, w)
    ensures Captured(sem, MergeCaptures([], Parts(chk, p, types)), x, w)
  {
    var results := Parts(chk, p, types);
    PartsNamed(chk, p, types);
    var c :| c in results[i].captures && c.expr.variable == x && (In(sem, w, c.typ) || w == EMPTY_LIST);
    forall k | 0 <= k < i
      ensures !Captures(results[k].captures, x)
    {
      assert Named(results[k].captures, Names(p.patterns[k])) && Named(results[i].captures, Names(p.patterns[i]));
    }
    MergeHas([], results, i, c);
  }

  // When an empty star is left out.

  /** Every pattern around the star can match the item in its place, and the star has something to take. */
  predicate TakesItems(chk: Checker, ps: seq<Pattern>, items: seq<Ty>)
    requires StarAt(ps).Some?
  {
    && LengthFits(ps, |items|)
    && (var s := StarAt(ps).value; !chk.simplify(items[s..s + |items| - Required(ps)]).Never?)
    && forall i {:trigger ps[i]} | 0 <= i < |ps| && Some(i) != StarAt(ps) ::
         !Checked(chk, ps[i], items[Pos(ps, |items|, i)]).typ.Never?
  }

  /** What a pattern other than the star is checked against. */
  lemma PartTypeAt(chk: Checker, ps: seq<Pattern>, t: Ty, i: nat)
    requires t.TupleType? && LengthFits(ps, |t.items|) && StarAt(ps).Some? && i < |ps| && Some(i) != StarAt(ps)
    ensures PartTypes(chk, ps, t)[i] == t.items[Pos(ps, |t.items|, i)]
  {
    var s := StarAt(ps).value;
    ContractedAt(chk, t.items, s, |ps| - 1, i);
    assert PartTypes(chk, ps, t) == ContractStarred(chk, t.items, Some(s), |ps| - 1);
  }

  lemma ContractedAt(chk: Checker, items: seq<Ty>, s: nat, required: nat, i: nat)
    requires s <= required <= |items| && i <= required && i != s
    ensures ContractStarred(chk, items, Some(s), required)[i] == if i < s then items[i]
            else items[i + |items| - required - 1]
  {
    var length := |items| - required;
    AroundOne(items[..s], [chk.simplify(items[s..s + length])], items[s + length..], i);
  }

  lemma AroundOne<T>(before: seq<T>, one: seq<T>, after: seq<T>, i: nat)
    requires |one| == 1 && i < |before| + 1 + |after| && i != |before|
    ensures (before + one + after)[i] == if i < |before| then before[i] else after[i - |before| - 1]
  {
  }

  /** The narrowed type of a tuple at the place of such a pattern. */
  lemma NewsAt(chk: Checker, p: Pattern, t: Ty, i: nat)
    requires p.SequencePattern? && t.TupleType? && LengthFits(p.patterns, |t.items|) && StarAt(p.patterns).Some?
    requires i < |p.patterns| && Some(i) != StarAt(p.patterns)
    ensures var j := Pos(p.patterns, |t.items|, i);
            News(chk, p, t)[j] == Checked(chk, p.patterns[i], t.items[j]).typ
  {
    var ps, n := p.patterns, |t.items|;
    PartTypeAt(chk, ps, t, i);
    TakerOfPos(ps, n, i);
    ExpandAt(ps, TypesOf(Parts(chk, p, PartTypes(chk, ps, t))), n, Pos(ps, n, i));
  }

  function News(chk: Checker, p: Pattern, t: Ty): (r: seq<Ty>)
    requires p.SequencePattern? && t.TupleType? && LengthFits(p.patterns, |t.items|)
    ensures |r| == |t.items|
  {
    ExpandStarred(TypesOf(Parts(chk, p, PartTypes(chk, p.patterns, t))), StarAt(p.patterns), |t.items|)
  }

  lemma TupleChecked(chk: Checker, p: Pattern, t: Ty)
    requires p.SequencePattern? && t.TupleType? && LengthFits(p.patterns, |t.items|)
    ensures Checked(chk, p, t).typ == TupleNarrowed(News(chk, p, t), t.fallback)
  {
  }

  /** What the slice of the star narrows to. */
  lemma StarNews(chk: Checker, p: Pattern, t: Ty, j: nat)
    requires p.SequencePattern? && t.TupleType? && LengthFits(p.patterns, |t.items|) && StarAt(p.patterns).Some?
    requires j < |t.items| && Some(Taker(p.patterns, |t.items|, j)) == StarAt(p.patterns)
    ensures News(chk, p, t)[j] == PartTypes(chk, p.patterns, t)[StarAt(p.patterns).value]
  {
    ExpandAt(p.patterns, TypesOf(Parts(chk, p, PartTypes(chk, p.patterns, t))), |t.items|, j);
  }

  /** A tuple narrows to something with a type for the star exactly if its parts do. */
  lemma TakesItemsIff(chk: Checker, p: Pattern, t: Ty)
    requires p.SequencePattern? && StarAt(p.patterns).Some? && t.TupleType?
    ensures TakesItems(chk, p.patterns, t.items)
            <==> && LengthFits(p.patterns, |t.items|)
                 && !Checked(chk, p, t).typ.Never?
                 && !PartTypes(chk, p.patterns, t)[StarAt(p.patterns).value].Never?
  {
    if LengthFits(p.patterns, |t.items|) {
      TupleChecked(chk, p, t);
      if TakesItems(chk, p.patterns, t.items) && !PartTypes(chk, p.patterns, t)[StarAt(p.patterns).value].Never? {
        NoneNever(chk, p, t);
      }
      if Never !in News(chk, p, t) {
        AllTake(chk, p, t);
      }
    }
  }

  lemma NoneNever(chk: Checker, p: Pattern, t: Ty)
    requires p.SequencePattern? && StarAt(p.patterns).Some? && t.TupleType? && LengthFits(p.patterns, |t.items|)
    requires TakesItems(chk, p.patterns, t.items) && !PartTypes(chk, p.patterns, t)[StarAt(p.patterns).value].Never?
    ensures Never !in News(chk, p, t)
  {
    forall j | 0 <= j < |t.items|
      ensures News(chk, p, t)[j] != Never
    {
      if News(chk, p, t)[j] == Never {
        SomeNever(chk, p, t, j);
      }
    }
  }

  lemma AllTake(chk: Checker, p: Pattern, t: Ty)
    requires p.SequencePattern? && StarAt(p.patterns).Some? && t.TupleType? && LengthFits(p.patterns, |t.items|)
    requires Never !in News(chk, p, t)
    ensures forall i {:trigger p.patterns[i]} | 0 <= i < |p.patterns| && Some(i) != StarAt(p.patterns) ::
              !Checked(chk, p.patterns[i], t.items[Pos(p.patterns, |t.items|, i)]).typ.Never?
  {
    PartNews(chk, p, t);
  }

  lemma PartNews(chk: Checker, p: Pattern, t: Ty)
    requires p.SequencePattern? && StarAt(p.patterns).Some? && t.TupleType? && LengthFits(p.patterns, |t.items|)
    ensures forall i {:trigger p.patterns[i]} | 0 <= i < |p.patterns| && Some(i) != StarAt(p.patterns) ::
              var j := Pos(p.patterns, |t.items|, i); News(chk, p, t)[j] == Checked(chk, p.patterns[i], t.items[j]).typ
  {
    forall i {:trigger p.patterns[i]} | 0 <= i < |p.patterns| && Some(i) != StarAt(p.patterns)
      ensures var j := Pos(p.patterns, |t.items|, i); News(chk, p, t)[j] == Checked(chk, p.patterns[i], t.items[j]).typ
    {
      NewsAt(chk, p, t, i);
    }
  }

  /** If a position narrows to nothing, its pattern does, or the star has nothing to take. */
  lemma SomeNever(chk: Checker, p: Pattern, t: Ty, j: nat)
    requires p.SequencePattern? && StarAt(p.patterns).Some? && t.TupleType? && LengthFits(p.patterns, |t.items|)
    requires j < |t.items| && News(chk, p, t)[j] == Never
    ensures PartTypes(chk, p.patterns, t)[StarAt(p.patterns).value].Never? || !TakesItems(chk, p.patterns, t.items)
  {
    var ps, n := p.patterns, |t.items|;
    var i := Taker(ps, n, j);
    if Some(i) == StarAt(ps) {
      StarNews(chk, p, t, j);
    } else {
      PosOfTaker(ps, n, j);
      NewsAt(chk, p, t, i);
      assert Checked(chk, ps[i], t.items[j]).typ.Never?;
    }
  }

  lemma {:induction false} MergeFrom(captures: seq<Capture>, results: seq<PatternType>, c: Capture)
    requires c in MergeCaptures(captures, results) && c !in captures
    ensures exists i | 0 <= i < |results| :: c in results[i].captures
    decreases |results|
  {
    NotCapturedHas(captures, results[0].captures);
    var next := UpdateTypeMap(captures, results[0].captures);
    if c in next {
      assert c in results[0].captures;
    } else {
      MergeFrom(next, results[1..], c);
      var i :| 0 <= i < |results[1..]| && c in results[1..][i].captures;
      assert c in results[i + 1].captures;
    }
  }

  /** A tuple that can match captures the list of what the star takes, and nothing else under that expression. */
  lemma TupleStarCapture(chk: Checker, p: Pattern, t: Ty, e: Expr)
    requires p.SequencePattern? && StarCapture(p.patterns) == Some(e) && Distinct(p) && t.TupleType?
             && LengthFits(p.patterns, |t.items|)
    ensures var own := Capture(e, ListType(PartTypes(chk, p.patterns, t)[StarAt(p.patterns).value]));
            && own in Checked(chk, p, t).captures
            && forall c | c in Checked(chk, p, t).captures && c.expr == e :: c == own
  {
    var ps, s, types := p.patterns, StarAt(p.patterns).value, PartTypes(chk, p.patterns, t);
    var results := Parts(chk, p, types);
    var own := Capture(e, ListType(types[s]));
    assert results[s].captures == [own];
    PartsNamed(chk, p, types);
    assert e.variable in Names(ps[s]);
    forall k | 0 <= k < |ps| && k != s
      ensures !Captures(results[k].captures, e.variable)
    {
      assert Named(results[k].captures, Names(ps[k]));
      assert Names(ps[if k < s then k else s]) !! Names(ps[if k < s then s else k]);
    }
    MergeHas([], results, s, own);
    forall c | c in MergeCaptures([], results) && c.expr == e
      ensures c == own
    {
      MergeFrom([], results, c);
    }
  }

  /** Nothing is collected under an expression whose every capture is skipped. */
  ghost predicate NothingFor(groups: seq<Group<Expr>>, e: Expr) {
    forall g | g in groups && g.key == e :: g.types == []
  }

  lemma {:induction false} AddNothingFor(groups: seq<Group<Expr>>, key: Expr, types: seq<Ty>, e: Expr)
    requires NothingFor(groups, e) && (key == e ==> types == [])
    ensures NothingFor(AddTo(groups, key, key, types), e)
  {
    if groups != [] {
      assert groups[0] in groups;
      if groups[0].key != key {
        AddNothingFor(groups[1..], key, types, e);
      }
    }
  }

  lemma {:induction false} ByExprNothingFor(groups: seq<Group<Expr>>, captures: seq<Capture>, e: Expr)
    requires NothingFor(groups, e) && forall c | c in captures && c.expr == e :: c.typ == ListType(Never)
    ensures NothingFor(ByExpr(groups, captures, Some(e)), e)
    decreases |captures|
  {
    if captures != [] {
      var c := captures[0];
      AddNothingFor(groups, c.expr, Kept(c, Some(e)), e);
      ByExprNothingFor(AddTo(groups, c.expr, c.expr, Kept(c, Some(e))), captures[1..], e);
    }
  }

  lemma {:induction false} AllByExprNothingFor(groups: seq<Group<Expr>>, results: seq<PatternType>, e: Expr)
    requires NothingFor(groups, e)
    requires forall k, c | 0 <= k < |results| && !results[k].typ.Never? && c in results[k].captures
             && c.expr == e :: c.typ == ListType(Never)
    ensures NothingFor(AllByExpr(groups, results, Some(e)), e)
    decreases |results|
  {
    if results != [] {
      if !results[0].typ.Never? {
        ByExprNothingFor(groups, results[0].captures, e);
      }
      var next := if results[0].typ.Never? then groups else ByExpr(groups, results[0].captures, Some(e));
      assert forall k | 0 <= k < |results[1..]| :: results[1..][k] == results[k + 1];
      AllByExprNothingFor(next, results[1..], e);
    }
  }

  /** Some type captured for the star has this list. */
  ghost predicate StarTyped(sem: Meaning, captures: seq<Capture>, e: Expr, w: Value) {
    exists c | c in captures :: c.expr == e && In(sem, w, c.typ)
  }

  /**
   * Over a union of tuples, the type captured for the star of a matching value contains what the
   * star takes exactly if some tuple that can match leaves the star something to take; otherwise
   * the star captures the empty type, although it binds the empty list.
   */
  lemma StarTypedIff(sem: Meaning, chk: Checker, p: Pattern, t: Ty, v: Value, e: Expr)
    requires Sound(sem, chk) && Strict(sem, chk) && chk.simplify([]) == Never
    requires p.SequencePattern? && StarCapture(p.patterns) == Some(e) && Distinct(p)
    requires t.UnionType? && (forall i | 0 <= i < |t.items| :: t.items[i].TupleType?) && In(sem, v, t) && Matches(p, v)
    ensures StarTyped(sem, Checked(chk, p, t).captures, e, StarSlice(p.patterns, v.elems))
            <==> exists i | 0 <= i < |t.items| :: TakesItems(chk, p.patterns, t.items[i].items)
  {
    var w := StarSlice(p.patterns, v.elems);
    var k :| 0 <= k < |t.items| && In(sem, v, t.items[k]);
    assert CanMatchSequence(chk, t.items[k]);
    if i :| 0 <= i < |t.items| && TakesItems(chk, p.patterns, t.items[i].items) {
      StarTypedBy(sem, chk, p, t, v, e, if w == EMPTY_LIST then i else k);
    } else {
      StarUntyped(sem, chk, p, t, e, w);
    }
  }

  lemma StarTypedBy(sem: Meaning, chk: Checker, p: Pattern, t: Ty, v: Value, e: Expr, i: nat)
    requires Sound(sem, chk) && Strict(sem, chk)
    requires p.SequencePattern? && StarCapture(p.patterns) == Some(e) && Distinct(p) && Matches(p, v)
    requires t.UnionType? && i < |t.items| && t.items[i].TupleType?
    requires if StarSlice(p.patterns, v.elems) == EMPTY_LIST then TakesItems(chk, p.patterns, t.items[i].items)
             else In(sem, v, t.items[i])
    ensures StarTyped(sem, Checked(chk, p, t).captures, e, StarSlice(p.patterns, v.elems))
  {
    var ps, w, member := p.patterns, StarSlice(p.patterns, v.elems), t.items[i];
    var own := Capture(e, ListType(PartTypes(chk, ps, member)[StarAt(ps).value]));
    TupleStarCapture(chk, p, member, e);
    TakesItemsIff(chk, p, member);
    if w != EMPTY_LIST {
      NarrowingSound(sem, chk, p, member, v);
      StarCaptures(sem, chk, ps, member, v);
      FirstOfList(sem, w, own.typ);
    }
    UnionTyped(sem, chk, MemberResults(chk, p, t), e, i, own, w);
  }

  function MemberResults(chk: Checker, p: Pattern, t: Ty): seq<PatternType>
    requires t.UnionType?
  {
    seq(|t.items|, i requires 0 <= i < |t.items| => Checked(chk, p, t.items[i]))
  }

  function Variables(results: seq<PatternType>): set<nat> {
    set j, c | 0 <= j < |results| && c in results[j].captures :: c.expr.variable
  }

  /** A capture that is not skipped gives the star its type. */
  lemma UnionTyped(sem: Meaning, chk: Checker, results: seq<PatternType>, e: Expr, k: nat, c: Capture, w: Value)
    requires Sound(sem, chk) && k < |results| && !results[k].typ.Never? && c in results[k].captures
    requires c.expr == e && c.typ != ListType(Never) && In(sem, w, c.typ)
    ensures StarTyped(sem, UnionResult(chk, results, Some(e)).captures, e, w)
  {
    AllByExprHolds([], results, Some(e));
    AllByExprOnly([], results, Some(e), Variables(results));
    var groups := AllByExpr([], results, Some(e));
    assert Holds(groups, e, [c.typ]);
    var g :| g in groups && g.key == e && forall u | u in [c.typ] :: u in g.types;
    assert c.typ in g.types;
    CoversMember(sem, chk, g.types, c.typ, w);
    UnionGroup(chk, results, Some(e), g);
  }

  lemma UnionGroup(chk: Checker, results: seq<PatternType>, star: Option<Expr>, g: Group<Expr>)
    requires g in AllByExpr([], results, star)
    ensures Capture(g.expr, chk.simplify(g.types)) in UnionResult(chk, results, star).captures
  {
    var groups := AllByExpr([], results, star);
    var j :| 0 <= j < |groups| && groups[j] == g;
    assert UnionResult(chk, results, star).captures[j] == Capture(g.expr, chk.simplify(g.types));
  }

  lemma StarUntyped(sem: Meaning, chk: Checker, p: Pattern, t: Ty, e: Expr, w: Value)
    requires p.SequencePattern? && StarCapture(p.patterns) == Some(e) && Distinct(p) && chk.simplify([]) == Never
    requires t.UnionType? && CanMatchSequence(chk, t) && forall i | 0 <= i < |t.items| ::
             t.items[i].TupleType? && !TakesItems(chk, p.patterns, t.items[i].items)
    ensures !StarTyped(sem, Checked(chk, p, t).captures, e, w)
  {
    var results := MemberResults(chk, p, t);
    forall k, c | 0 <= k < |results| && !results[k].typ.Never? && c in results[k].captures && c.expr == e
      ensures c.typ == ListType(Never)
    {
      TakesItemsIff(chk, p, t.items[k]);
      if LengthFits(p.patterns, |t.items[k].items|) {
        TupleStarCapture(chk, p, t.items[k], e);
      }
    }
    UnionUntyped(sem, chk, results, e, w);
  }

  lemma UnionUntyped(sem: Meaning, chk: Checker, results: seq<PatternType>, e: Expr, w: Value)
    requires chk.simplify([]) == Never
    requires forall k, c | 0 <= k < |results| && !results[k].typ.Never? && c in results[k].captures
             && c.expr == e :: c.typ == ListType(Never)
    ensures !StarTyped(sem, UnionResult(chk, results, Some(e)).captures, e, w)
  {
    AllByExprNothingFor([], results, e);
    AllByExprOnly([], results, Some(e), Variables(results));
    var groups := AllByExpr([], results, Some(e));
    var captures := UnionResult(chk, results, Some(e)).captures;
    forall c | c in captures && c.expr == e
      ensures c.typ == Never
    {
      var j :| 0 <= j < |captures| && captures[j] == c;
      assert groups[j] in groups;
    }
  }

  /** Where all captures of the star are skipped, it gets the empty type. */
  lemma SkippedNever(chk: Checker, results: seq<PatternType>, e: Expr, k: nat)
    requires chk.simplify([]) == Never && k < |results| && !results[k].typ.Never?
    requires Capture(e, ListType(Never)) in results[k].captures
    requires forall k, c | 0 <= k < |results| && !results[k].typ.Never? && c in results[k].captures
             && c.expr == e :: c.typ == ListType(Never)
    ensures Capture(e, Never) in UnionResult(chk, results, Some(e)).captures
  {
    var c := Capture(e, ListType(Never));
    AllByExprHolds([], results, Some(e));
    AllByExprOnly([], results, Some(e), Variables(results));
    AllByExprNothingFor([], results, e);
    var groups := AllByExpr([], results, Some(e));
    assert Holds(groups, c.expr, Kept(c, Some(e)));
    var g :| g in groups && g.key == e;
    UnionGroup(chk, results, Some(e), g);
  }

  /** The pattern `[x, *rest]`. */
  function FirstAndRest(x: Expr, rest: Expr): Pattern {
    SequencePattern([AsPattern(None, Some(x)), StarredPattern(Some(rest))])
  }

  /** Checked against this type, the star captures a list of nothing. */
  ghost predicate SkipsStar(chk: Checker, p: Pattern, t: Ty, e: Expr) {
    var r := Checked(chk, p, t);
    && !r.typ.Never? && Capture(e, ListType(Never)) in r.captures
    && forall c | c in r.captures && c.expr == e :: c.typ == ListType(Never)
  }

  lemma FirstAndRestChecked(sem: Meaning, chk: Checker, x: Expr, rest: Expr, item: Ty, fallback: nat, v: Value)
    requires Sound(sem, chk) && x.variable != rest.variable && chk.simplify([]) == Never && In(sem, v, item)
    ensures StarCapture(FirstAndRest(x, rest).patterns) == Some(rest)
    ensures SkipsStar(chk, FirstAndRest(x, rest), TupleType([item], fallback), rest)
  {
    var p, t := FirstAndRest(x, rest), TupleType([item], fallback);
    var ps := p.patterns;
    assert StarAt(ps[1..]) == Some(0);
    var types := PartTypes(chk, ps, t);
    assert types == [item, Never];
    TupleStarCapture(chk, p, t, rest);
    assert Splits(sem, item, item, chk.narrow(item, item));
    var results := Parts(chk, p, types);
    assert !results[0].typ.Never?;
    assert ExpandStarred(TypesOf(results), Some(1), 1) == [results[0].typ];
  }

  /**
   * A union of one-element tuples leaves nothing to the star of `[x, *rest]`: it binds the empty list,
   * but captures the empty type.
   */
  lemma StarCapturesNever(sem: Meaning, chk: Checker, x: Expr, rest: Expr, cls: nat, fallback: nat)
    requires Sound(sem, chk) && chk.simplify([]) == Never && x.variable != rest.variable && sem.subclass(cls, fallback)
    ensures var p := FirstAndRest(x, rest); var v := SequenceValue(cls, [NoneValue]);
            var t := UnionType([TupleType([NoneType], fallback), TupleType([LiteralBool(true)], fallback)]);
            && In(sem, v, t) && Matches(p, v) && Binds(p, v, rest.variable, EMPTY_LIST)
            && Capture(rest, Never) in Checked(chk, p, t).captures
            && !StarTyped(sem, Checked(chk, p, t).captures, rest, EMPTY_LIST)
  {
    var p, v := FirstAndRest(x, rest), SequenceValue(cls, [NoneValue]);
    var t := UnionType([TupleType([NoneType], fallback), TupleType([LiteralBool(true)], fallback)]);
    FirstAndRestChecked(sem, chk, x, rest, NoneType, fallback, NoneValue);
    FirstAndRestChecked(sem, chk, x, rest, LiteralBool(true), fallback, BoolValue(true));
    FirstAndRestBinds(x, rest, cls, NoneValue);
    assert In(sem, v, t.items[0]);
    UnionSkipped(sem, chk, p, t, rest);
  }

  lemma FirstAndRestBinds(x: Expr, rest: Expr, cls: nat, v: Value)
    ensures var p := FirstAndRest(x, rest);
            Matches(p, SequenceValue(cls, [v])) && Binds(p, SequenceValue(cls, [v]), rest.variable, EMPTY_LIST)
  {
    var p, w := FirstAndRest(x, rest), SequenceValue(cls, [v]);
    assert StarAt(p.patterns[1..]) == Some(0) && StarAt(p.patterns) == Some(1);
    assert StarSlice(p.patterns, w.elems) == EMPTY_LIST;
  }

  lemma UnionSkipped(sem: Meaning, chk: Checker, p: Pattern, t: Ty, e: Expr)
    requires chk.simplify([]) == Never && p.SequencePattern? && StarCapture(p.patterns) == Some(e)
    requires t.UnionType? && t.items != [] && t.items[0].TupleType?
    requires forall i | 0 <= i < |t.items| :: SkipsStar(chk, p, t.items[i], e)
    ensures Capture(e, Never) in Checked(chk, p, t).captures
    ensures !StarTyped(sem, Checked(chk, p, t).captures, e, EMPTY_LIST)
  {
    assert CanMatchSequence(chk, t.items[0]);
    var results := MemberResults(chk, p, t);
    assert Checked(chk, p, t).captures == UnionResult(chk, results, Some(e)).captures;
    assert results[0] == Checked(chk, p, t.items[0]) && SkipsStar(chk, p, t.items[0], e);
    forall k, c | 0 <= k < |results| && c in results[k].captures && c.expr == e
      ensures c.typ == ListType(Never)
    {
      assert results[k] == Checked(chk, p, t.items[k]) && SkipsStar(chk, p, t.items[k], e);
    }
    SkippedNever(chk, results, e, 0);
    UnionUntyped(sem, chk, results, e, EMPTY_LIST);
  }
}
