// Patterns of the match statement: what they match, and the types to which they narrow a subject.
module Patterns {
  import opened Text

  /** One occurrence of a variable. */
  datatype Expr = NameExpr(variable: nat, node: nat)

  datatype Constant = NoneConstant | BoolConstant(b: bool)

  /** A capture is an as-pattern without a pattern, a wildcard one that has no name either. */
  datatype Pattern =
    | AsPattern(pattern: Option<Pattern>, name: Option<Expr>)
    | OrPattern(patterns: seq<Pattern>)
    | SingletonPattern(value: Constant)
    | SequencePattern(patterns: seq<Pattern>)
    | StarredPattern(capture: Option<Expr>)

  datatype Ty =
    | Never
    | NoneType
    | LiteralBool(b: bool)
    | TupleType(items: seq<Ty>, fallback: nat)
    | UnionType(items: seq<Ty>)
    | ListType(item: Ty)
    | Other(name: nat)

  /** A sequence is an instance of a class that sequence patterns accept; a string is not. */
  datatype Value = NoneValue | BoolValue(b: bool) | SequenceValue(cls: nat, elems: seq<Value>) | ObjectValue(id: nat)

  const LIST_CLASS: nat := 0

  // What a pattern matches and binds.

  /** The parser allows one starred pattern at most. */
  function StarAt(ps: seq<Pattern>): (r: Option<nat>)
    ensures r.Some? ==> r.value < |ps| && ps[r.value].StarredPattern?
    ensures r.None? ==> forall i | 0 <= i < |ps| :: !ps[i].StarredPattern?
  {
    if ps == [] then None
    else if ps[0].StarredPattern? then Some(0)
    else
      var rest := StarAt(ps[1..]);
      if rest.Some? then Some(rest.value + 1) else None
  }

  function Required(ps: seq<Pattern>): nat {
    if StarAt(ps).Some? then |ps| - 1 else |ps|
  }

  predicate LengthFits(ps: seq<Pattern>, n: nat) {
    if StarAt(ps).Some? then Required(ps) <= n else n == |ps|
  }

  /** The position in a sequence of n that pattern i is matched against; for the star, where its slice starts. */
  function Pos(ps: seq<Pattern>, n: nat, i: nat): (r: nat)
    requires LengthFits(ps, n) && i < |ps|
    ensures Some(i) != StarAt(ps) ==> r < n
    ensures r <= n
  {
    if StarAt(ps).Some? && i > StarAt(ps).value then i + n - |ps| else i
  }

  predicate Matches(p: Pattern, v: Value) {
    match p
    case AsPattern(q, _) => q.Some? ==> Matches(q.value, v)
    case OrPattern(ps) => exists i | 0 <= i < |ps| :: Matches(ps[i], v)
    case SingletonPattern(c) => v == ValueOf(c)
    case SequencePattern(ps) =>
      && v.SequenceValue?
      && LengthFits(ps, |v.elems|)
      && forall i {:trigger ps[i]} | 0 <= i < |ps| && Some(i) != StarAt(ps) ::
         Matches(ps[i], v.elems[Pos(ps, |v.elems|, i)])
    case StarredPattern(_) => true
  }

  function ValueOf(c: Constant): Value {
    match c
    case NoneConstant => NoneValue
    case BoolConstant(b) => BoolValue(b)
  }

  // What a type contains.

  /** Which objects belong to a type that is not spelled out, and which classes are subclasses of which. */
  datatype Meaning = Meaning(other: (nat, Value) -> bool, subclass: (nat, nat) -> bool)

  predicate In(sem: Meaning, v: Value, t: Ty) {
    match t
    case Never => false
    case NoneType => v.NoneValue?
    case LiteralBool(b) => v == BoolValue(b)
    case TupleType(items, fallback) =>
      && v.SequenceValue?
      && sem.subclass(v.cls, fallback)
      && |v.elems| == |items|
      && forall i {:trigger items[i]} {:trigger v.elems[i]} | 0 <= i < |items| :: In(sem, v.elems[i], items[i])
    case UnionType(items) => exists i | 0 <= i < |items| :: In(sem, v, items[i])
    case ListType(item) => v.SequenceValue? && v.cls == LIST_CLASS
        && forall i | 0 <= i < |v.elems| :: In(sem, v.elems[i], item)
    case Other(name) => sem.other(name, v)
  }

  // The parts of the type checker that patterns use.

  /**
   * `narrow` splits a type by another one, `simplify` forms a union, `join` a common supertype,
   * `itemType` what iteration gives and `sequenceOf` a sequence type for a subject and its items.
   */
  datatype Checker = Checker(
    narrow: (Ty, Ty) -> (Ty, Ty),
    simplify: seq<Ty> -> Ty,
    join: (Ty, Ty) -> Ty,
    itemType: Ty -> Ty,
    sequenceOf: (Ty, Ty) -> Ty,
    mayBeSequence: Ty -> bool)

  // The narrowed type, the rest type and the captures.

  datatype Capture = Capture(expr: Expr, typ: Ty)

  datatype PatternType = PatternType(typ: Ty, rest: Ty, captures: seq<Capture>)

  predicate CanMatchSequence(chk: Checker, t: Ty) {
    match t
    case Never | NoneType | LiteralBool(_) => false
    case TupleType(_, _) => true
    case UnionType(items) => exists i | 0 <= i < |items| :: CanMatchSequence(chk, items[i])
    case ListType(_) | Other(_) => chk.mayBeSequence(t)
  }

  function EarlyNonMatch(t: Ty): PatternType {
    PatternType(Never, t, [])
  }

  /** Merges the types that the star takes. */
  function ContractStarred(chk: Checker, types: seq<Ty>, star: Option<nat>, required: nat): (r: seq<Ty>)
    requires star.Some? ==> star.value <= required <= |types|
    ensures |r| == if star.Some? then required + 1 else |types|
  {
    match star
    case None => types
    case Some(s) =>
      var length := |types| - required;
      types[..s] + [chk.simplify(types[s..s + length])] + types[s + length..]
  }

  /** Repeats the type of the star for every item that it takes. */
  function ExpandStarred(types: seq<Ty>, star: Option<nat>, n: nat): (r: seq<Ty>)
    requires star.Some? ==> star.value < |types| <= n + 1
    ensures |r| == if star.Some? then n else |types|
  {
    match star
    case None => types
    case Some(s) => types[..s] + Repeated(types[s], n + 1 - |types|) + types[s + 1..]
  }

  function Repeated<T>(t: T, n: nat): seq<T> {
    seq(n, i => t)
  }

  function CountNever(types: seq<Ty>): nat {
    if types == [] then 0 else (if types[0].Never? then 1 else 0) + CountNever(types[1..])
  }

  // Captures, in the order in which they are made.

  predicate Captures(captures: seq<Capture>, variable: nat) {
    exists c | c in captures :: c.expr.variable == variable
  }

  /** Keeps the first type of each variable. */
  function UpdateTypeMap(original: seq<Capture>, extra: seq<Capture>): seq<Capture> {
    original + NotCaptured(original, extra)
  }

  function NotCaptured(original: seq<Capture>, extra: seq<Capture>): seq<Capture> {
    if extra == [] then []
    else (if Captures(original, extra[0].expr.variable) then [] else [extra[0]]) + NotCaptured(original, extra[1..])
  }

  function SetCapture(captures: seq<Capture>, expr: Expr, typ: Ty): seq<Capture> {
    if captures == [] then [Capture(expr, typ)]
    else if captures[0].expr == expr then [Capture(expr, typ)] + captures[1..]
    else [captures[0]] + SetCapture(captures[1..], expr, typ)
  }

  /** The types collected under one key, and the expression that was seen first. */
  datatype Group<K> = Group(key: K, expr: Expr, types: seq<Ty>)

  function AddTo<K(==)>(groups: seq<Group<K>>, key: K, expr: Expr, types: seq<Ty>): seq<Group<K>>
    decreases |groups|
  {
    if groups == [] then [Group(key, expr, types)]
    else if groups[0].key == key then [groups[0].(types := groups[0].types + types)] + groups[1..]
    else [groups[0]] + AddTo(groups[1..], key, expr, types)
  }

  /** Or-patterns collect by variable. */
  function ByVariable(groups: seq<Group<nat>>, captures: seq<Capture>): seq<Group<nat>>
    decreases |captures|
  {
    if captures == [] then groups
    else ByVariable(AddTo(groups, captures[0].expr.variable, captures[0].expr, [captures[0].typ]), captures[1..])
  }

  function AllByVariable(groups: seq<Group<nat>>, results: seq<PatternType>): seq<Group<nat>>
    decreases |results|
  {
    if results == [] then groups else AllByVariable(ByVariable(groups, results[0].captures), results[1..])
  }

  function UnionOneByOne(chk: Checker, typ: Ty, types: seq<Ty>): Ty
    decreases |types|
  {
    if types == [] then typ else UnionOneByOne(chk, chk.simplify([typ, types[0]]), types[1..])
  }

  /** Sequence patterns over a union collect by expression and skip an empty star. */
  function ByExpr(groups: seq<Group<Expr>>, captures: seq<Capture>, star: Option<Expr>): seq<Group<Expr>>
    decreases |captures|
  {
    if captures == [] then groups
    else
      var c := captures[0];
      var skip := star == Some(c.expr) && c.typ == ListType(Never);
      ByExpr(AddTo(groups, c.expr, c.expr, if skip then [] else [c.typ]), captures[1..], star)
  }

  function AllByExpr(groups: seq<Group<Expr>>, results: seq<PatternType>, star: Option<Expr>): seq<Group<Expr>>
    decreases |results|
  {
    if results == [] then groups
    else AllByExpr(if results[0].typ.Never? then groups else ByExpr(groups, results[0].captures, star), results[1..],
        star)
  }

  function MergeCaptures(captures: seq<Capture>, results: seq<PatternType>): seq<Capture>
    decreases |results|
  {
    if results == [] then captures else MergeCaptures(UpdateTypeMap(captures, results[0].captures), results[1..])
  }

  function TypesOf(results: seq<PatternType>): seq<Ty> {
    seq(|results|, i requires 0 <= i < |results| => results[i].typ)
  }

  function RestsOf(results: seq<PatternType>): seq<Ty> {
    seq(|results|, i requires 0 <= i < |results| => results[i].rest)
  }

  function Inhabited(types: seq<Ty>): seq<Ty> {
    if types == [] then [] else (if types[0].Never? then [] else [types[0]]) + Inhabited(types[1..])
  }

  // The results of each kind of pattern, given those of its parts.

  function AsResult(chk: Checker, t: Ty, inner: PatternType, name: Option<Expr>): PatternType {
    if inner.typ.Never? || name.None? then inner
    else
      var typ := chk.narrow(t, inner.typ).0;
      PatternType(typ, inner.rest, if typ.Never? then inner.captures else SetCapture(inner.captures, name.value, typ))
  }

  function OrResult(chk: Checker, results: seq<PatternType>, rest: Ty): PatternType {
    var groups := AllByVariable([], results);
    PatternType(
      chk.simplify(Inhabited(TypesOf(results))),
      rest,
      seq(|groups|, i requires 0 <= i < |groups| => Capture(groups[i].expr,
          UnionOneByOne(chk, Never, groups[i].types))))
  }

  function UnionResult(chk: Checker, results: seq<PatternType>, star: Option<Expr>): PatternType {
    var groups := AllByExpr([], results, star);
    PatternType(
      chk.simplify(TypesOf(results)),
      chk.simplify(RestsOf(results)),
      seq(|groups|, i requires 0 <= i < |groups| => Capture(groups[i].expr, chk.simplify(groups[i].types))))
  }

  /** The items of a tuple at the only position that may fail. */
  function FailingItems(items: seq<Ty>, rests: seq<Ty>): (r: seq<Ty>)
    requires |items| == |rests|
  {
    seq(|items|, i requires 0 <= i < |items| => if rests[i].Never? then items[i] else rests[i])
  }

  function TupleNarrowed(news: seq<Ty>, fallback: nat): Ty {
    if Never in news then Never else TupleType(news, fallback)
  }

  function TupleRest(items: seq<Ty>, rests: seq<Ty>, fallback: nat): Ty
    requires |items| == |rests|
  {
    var always := CountNever(rests);
    if always == |rests| then Never
    else if always == |rests| - 1 then TupleType(FailingItems(items, rests), fallback)
    else TupleType(items, fallback)
  }

  function JoinAll(chk: Checker, typ: Ty, types: seq<Ty>): Ty
    decreases |types|
  {
    if types == [] then typ else JoinAll(chk, chk.join(typ, types[0]), types[1..])
  }

  function OtherResult(chk: Checker, t: Ty, ps: seq<Pattern>, results: seq<PatternType>): PatternType {
    var child := chk.sequenceOf(t, JoinAll(chk, Never, TypesOf(results)));
    var (typ, possible) := chk.narrow(t, child);
    PatternType(typ, if StarAt(ps) == Some(0) && |ps| == 1 then possible else t, MergeCaptures([], results))
  }

  function StarCapture(ps: seq<Pattern>): Option<Expr> {
    if StarAt(ps).Some? then ps[StarAt(ps).value].capture else None
  }

  function TypeOf(c: Constant): Ty {
    match c
    case NoneConstant => NoneType
    case BoolConstant(b) => LiteralBool(b)
  }

  /** The result for a pattern and the type that it is checked against. */
  function Checked(chk: Checker, p: Pattern, t: Ty): PatternType
    decreases p, 1, t
  {
    match p
    case AsPattern(q, name) =>
      AsResult(chk, t, if q.Some? then Checked(chk, q.value, t) else PatternType(t, Never, []), name)
    case OrPattern(ps) =>
      var (results, rest) := Alternatives(chk, p, 0, t);
      OrResult(chk, results, rest)
    case SingletonPattern(c) =>
      var (yes, no) := chk.narrow(t, TypeOf(c));
      PatternType(yes, no, [])
    case SequencePattern(ps) =>
      if !CanMatchSequence(chk, t) then EarlyNonMatch(t)
      else if t.UnionType? then
        UnionResult(chk, seq(|t.items|, i requires 0 <= i < |t.items| => Checked(chk, p, t.items[i])), StarCapture(ps))
      else if t.TupleType? then
        if !LengthFits(ps, |t.items|) then EarlyNonMatch(t)
        else
          var results := Parts(chk, p, ContractStarred(chk, t.items, StarAt(ps), Required(ps)));
          var rests := ExpandStarred(RestsOf(results), StarAt(ps), |t.items|);
          PatternType(
            TupleNarrowed(ExpandStarred(TypesOf(results), StarAt(ps), |t.items|), t.fallback),
            TupleRest(t.items, rests, t.fallback),
            MergeCaptures([], results))
      else
        OtherResult(chk, t, ps, Parts(chk, p,
            ContractStarred(chk, Repeated(chk.itemType(t), |ps|), StarAt(ps), Required(ps))))
    case StarredPattern(capture) =>
      PatternType(t, Never, if capture.Some? then [Capture(capture.value, ListType(t))] else [])
  }

  /** Each alternative is checked against what the ones before it leave. */
  function Alternatives(chk: Checker, p: Pattern, k: nat, t: Ty): (r: (seq<PatternType>, Ty))
    requires p.OrPattern? && k <= |p.patterns|
    ensures |r.0| == |p.patterns| - k
    decreases p, 0, |p.patterns| - k
  {
    if k == |p.patterns| then ([], t)
    else
      var first := Checked(chk, p.patterns[k], t);
      var (results, rest) := Alternatives(chk, p, k + 1, if first.typ.Never? then t else first.rest);
      ([first] + results, rest)
  }

  function Parts(chk: Checker, p: Pattern, types: seq<Ty>): (r: seq<PatternType>)
    requires p.SequencePattern? && |types| == |p.patterns|
    ensures |r| == |types|
    ensures forall i | 0 <= i < |types| :: r[i] == Checked(chk, p.patterns[i], types[i])
    decreases p, 0
  {
    seq(|types|, i requires 0 <= i < |types| => Checked(chk, p.patterns[i], types[i]))
  }
}
