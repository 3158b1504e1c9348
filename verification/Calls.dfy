// Binding the arguments of a call to the parameters of the callee.
module Calls {
  import opened Text

  datatype Kind = ArgPos | ArgOpt | ArgStar | ArgNamed | ArgStar2 | ArgNamedOpt

  predicate IsStar(k: Kind) { k.ArgStar? || k.ArgStar2? }

  predicate IsRequired(k: Kind) { k.ArgPos? || k.ArgNamed? }

  predicate IsNamed(k: Kind) { k.ArgNamed? || k.ArgNamedOpt? }

  predicate IsPositional(k: Kind) { k.ArgPos? || k.ArgOpt? }

  /** A parameter; one that is positional-only has no name. */
  datatype Formal = Formal(kind: Kind, name: Option<string>)

  /** An argument: by position, an unpacked tuple of some length, or by keyword. */
  datatype Actual = Positional | StarTuple(items: nat) | Keyword(name: string)

  function Rank(k: Kind): nat {
    match k
    case ArgPos | ArgOpt => 0
    case ArgStar => 1
    case ArgNamed | ArgNamedOpt => 2
    case ArgStar2 => 3
  }

  /** What the grammar of function definitions allows. */
  ghost predicate Signature(formals: seq<Formal>) {
    && (forall i, j | 0 <= i < j < |formals| ::
          Rank(formals[i].kind) <= Rank(formals[j].kind)
              && (IsStar(formals[i].kind) ==> formals[i].kind != formals[j].kind))
    && (forall i, j | 0 <= i < j < |formals| && formals[i].name.Some? :: formals[i].name != formals[j].name)
  }

  /** The grammar does not allow a keyword to be repeated. */
  ghost predicate KeywordsDistinct(actuals: seq<Actual>) {
    forall i, j | 0 <= i < j < |actuals| && actuals[i].Keyword? :: actuals[i] != actuals[j]
  }

  // What Python does.

  function Repeat(a: nat, n: nat): (r: seq<nat>)
    ensures |r| == n
  {
    if n == 0 then [] else Repeat(a, n - 1) + [a]
  }

  /** The positional values of the first k arguments, each written as the argument that it comes from. */
  function Values(actuals: seq<Actual>, k: nat): seq<nat>
    requires k <= |actuals|
  {
    if k == 0 then []
    else Values(actuals, k - 1) + ValuesOf(actuals[k - 1], k - 1)
  }

  function ValuesOf(actual: Actual, a: nat): seq<nat> {
    match actual
    case Positional => [a]
    case StarTuple(n) => Repeat(a, n)
    case Keyword(_) => []
  }

  /** The number of positional parameters, which come first. */
  function Slots(formals: seq<Formal>): (n: nat)
    ensures n <= |formals|
    ensures forall i | 0 <= i < n :: IsPositional(formals[i].kind)
    ensures n < |formals| ==> !IsPositional(formals[n].kind)
  {
    if formals == [] || !IsPositional(formals[0].kind) then 0 else 1 + Slots(formals[1..])
  }

  ghost predicate Has(formals: seq<Formal>, kind: Kind) {
    exists i | 0 <= i < |formals| :: formals[i].kind == kind
  }

  /** Keyword argument a is for parameter i. */
  ghost predicate Names(actuals: seq<Actual>, formals: seq<Formal>, a: nat, i: nat) {
    && a < |actuals| && actuals[a].Keyword?
    && i < |formals| && !IsStar(formals[i].kind) && formals[i].name == Some(actuals[a].name)
  }

  ghost predicate NamedByKeyword(actuals: seq<Actual>, formals: seq<Formal>, i: nat) {
    exists a :: Names(actuals, formals, a, i)
  }

  ghost predicate NoParameter(actuals: seq<Actual>, formals: seq<Formal>, a: nat) {
    forall i :: !Names(actuals, formals, a, i)
  }

  /** A positional value fills parameter i. */
  predicate FilledByPosition(values: seq<nat>, formals: seq<Formal>, i: nat) {
    i < Slots(formals) && i < |values|
  }

  /** Section 6.3.4 "Calls" of the Python Language Reference: when a call does not raise a TypeError. */
  ghost predicate CallSucceeds(actuals: seq<Actual>, formals: seq<Formal>) {
    var values := Values(actuals, |actuals|);
    && (|values| <= Slots(formals) || Has(formals, ArgStar))
    && (forall a {:trigger actuals[a]} | 0 <= a < |actuals| && actuals[a].Keyword?
       && NoParameter(actuals, formals, a) :: Has(formals, ArgStar2))
    && (forall a, i | Names(actuals, formals, a, i) :: !FilledByPosition(values, formals, i))
    && (forall i {:trigger formals[i]} | 0 <= i < |formals| && IsRequired(formals[i].kind) ::
          FilledByPosition(values, formals, i) || NamedByKeyword(actuals, formals, i))
  }

  ghost predicate Ascending(s: seq<nat>) {
    forall x, y | 0 <= x < y < |s| :: s[x] < s[y]
  }

  /** The arguments that Python gives to parameter i. */
  ghost predicate Gets(actuals: seq<Actual>, formals: seq<Formal>, i: nat, bound: seq<nat>)
    requires i < |formals|
  {
    var values := Values(actuals, |actuals|);
    match formals[i].kind
    case ArgStar => bound == if |values| <= Slots(formals) then [] else values[Slots(formals)..]
    case ArgStar2 =>
      && Ascending(bound)
      && (forall a: nat :: a in bound <==> a < |actuals| && actuals[a].Keyword? && NoParameter(actuals, formals, a))
    case _ =>
      if FilledByPosition(values, formals, i) then bound == [values[i]]
      else if NamedByKeyword(actuals, formals, i) then |bound| == 1 && Names(actuals, formals, bound[0], i)
      else bound == []
  }

  // The mapping.

  function IndexOfName(formals: seq<Formal>, name: string): (r: Option<nat>)
    ensures r.Some? ==> r.value < |formals| && formals[r.value].name == Some(name)
    ensures r.Some? ==> forall j | 0 <= j < r.value :: formals[j].name != Some(name)
    ensures r.None? ==> forall j | 0 <= j < |formals| :: formals[j].name != Some(name)
  {
    if formals == [] then None
    else if formals[0].name == Some(name) then Some(0)
    else
      var rest := IndexOfName(formals[1..], name);
      if rest.Some? then Some(rest.value + 1) else None
  }

  function IndexOfKind(formals: seq<Formal>, kind: Kind): (r: Option<nat>)
    ensures r.Some? ==> r.value < |formals| && formals[r.value].kind == kind
    ensures r.None? ==> forall j | 0 <= j < |formals| :: formals[j].kind != kind
  {
    if formals == [] then None
    else if formals[0].kind == kind then Some(0)
    else
      var rest := IndexOfKind(formals[1..], kind);
      if rest.Some? then Some(rest.value + 1) else None
  }

  /** The parameter to which a keyword is mapped. */
  function KeywordTarget(formals: seq<Formal>, name: string): Option<nat> {
    var i := IndexOfName(formals, name);
    if i.Some? && formals[i.value].kind != ArgStar then i else IndexOfKind(formals, ArgStar2)
  }

  /** The keyword arguments among the first k that are mapped to parameter i. */
  function Keywords(actuals: seq<Actual>, formals: seq<Formal>, k: nat, i: nat): seq<nat>
    requires k <= |actuals|
  {
    if k == 0 then []
    else Keywords(actuals, formals, k - 1, i)
         + if actuals[k - 1].Keyword? && KeywordTarget(formals, actuals[k - 1].name) == Some(i) then [k - 1] else []
  }

  /** The keyword arguments among the first k that are mapped at all. */
  function MappedKeywords(actuals: seq<Actual>, formals: seq<Formal>, k: nat): seq<nat>
    requires k <= |actuals|
  {
    if k == 0 then []
    else MappedKeywords(actuals, formals, k - 1)
         + if actuals[k - 1].Keyword? && KeywordTarget(formals, actuals[k - 1].name).Some? then [k - 1] else []
  }

  /** Positional values are mapped up to the first starred parameter. */
  function Stop(formals: seq<Formal>): (n: nat)
    ensures n <= |formals|
    ensures forall i | 0 <= i < n :: !IsStar(formals[i].kind)
    ensures n < |formals| ==> IsStar(formals[n].kind)
  {
    if formals == [] || IsStar(formals[0].kind) then 0 else 1 + Stop(formals[1..])
  }

  predicate StopsAtStar(formals: seq<Formal>) {
    Stop(formals) < |formals| && formals[Stop(formals)].kind == ArgStar
  }

  function MappedValues(formals: seq<Formal>, values: seq<nat>): seq<nat> {
    if StopsAtStar(formals) || |values| <= Stop(formals) then values else values[..Stop(formals)]
  }

  function Concat(lists: seq<seq<nat>>): seq<nat> {
    if lists == [] then [] else lists[0] + Concat(lists[1..])
  }

  /** What is mapped to parameter i, given the positional values and the keywords so far. */
  ghost predicate EntryIs(kind: Kind, i: nat, stop: nat, values: seq<nat>, keywords: seq<nat>, entry: seq<nat>) {
    match kind
    case ArgStar => entry == (if |values| <= i then [] else values[i..]) && keywords == []
    case ArgStar2 => entry == keywords
    case _ => multiset(entry) == multiset(if i < stop && i < |values| then [values[i]] else []) + multiset(keywords)
  }

  ghost predicate Entries(formals: seq<Formal>, stop: nat, values: seq<nat>, keywords: seq<seq<nat>>,
      toActual: seq<seq<nat>>) {
    && |toActual| == |formals| == |keywords|
    && forall i {:trigger toActual[i]} | 0 <= i < |formals| ::
       EntryIs(formals[i].kind, i, stop, values, keywords[i], toActual[i])
  }

  /**
   * The state of the mapping, given the positional values, the keywords of every parameter and all
   * keywords together.
   */
  ghost predicate State(formals: seq<Formal>, values: seq<nat>, keywords: seq<seq<nat>>, named: seq<nat>,
      toActual: seq<seq<nat>>) {
    && Entries(formals, Stop(formals), values, keywords, toActual)
    && multiset(Concat(toActual)) == multiset(MappedValues(formals, values)) + multiset(named)
  }

  function AllKeywords(actuals: seq<Actual>, formals: seq<Formal>, k: nat): seq<seq<nat>>
    requires k <= |actuals|
  {
    seq(|formals|, i requires 0 <= i < |formals| => Keywords(actuals, formals, k, i))
  }

  /** The state after the first k arguments. */
  ghost predicate Mapping(actuals: seq<Actual>, formals: seq<Formal>, k: nat, toActual: seq<seq<nat>>)
    requires k <= |actuals|
  {
    State(formals, Values(actuals, k), AllKeywords(actuals, formals, k), MappedKeywords(actuals, formals, k), toActual)
  }

  /** `*args` comes before every other starred parameter. */
  ghost predicate StarFirst(formals: seq<Formal>) {
    forall i {:trigger formals[i]} | 0 <= i < |formals| && formals[i].kind == ArgStar :: i == Stop(formals)
  }

  lemma SignatureStarFirst(formals: seq<Formal>)
    requires Signature(formals)
    ensures StarFirst(formals)
  {
    forall i | 0 <= i < |formals| && formals[i].kind == ArgStar
      ensures i == Stop(formals)
    {
      var first := formals[Stop(formals)];
      assert IsStar(first.kind);
    }
  }

  lemma {:induction false} ConcatAppend(lists: seq<seq<nat>>, i: nat, a: nat)
    requires i < |lists|
    ensures multiset(Concat(lists[i := lists[i] + [a]])) == multiset(Concat(lists)) + multiset{a}
  {
    var after := lists[i := lists[i] + [a]];
    if i == 0 {
      assert after[1..] == lists[1..];
    } else {
      assert after[1..] == lists[1..][i - 1 := lists[1..][i - 1] + [a]];
      ConcatAppend(lists[1..], i - 1, a);
    }
  }

  function Min(a: nat, b: nat): nat {
    if a < b then a else b
  }

  /** The parameter that the next positional value would go to. */
  function NextFormal(formals: seq<Formal>, values: seq<nat>): nat {
    Min(|values|, Stop(formals))
  }

  /** One more positional value goes to parameter fi. */
  lemma PlaceValue(formals: seq<Formal>, values: seq<nat>, keywords: seq<seq<nat>>, named: seq<nat>,
      toActual: seq<seq<nat>>, fi: nat, a: nat)
    requires StarFirst(formals) && State(formals, values, keywords, named, toActual)
             && fi == NextFormal(formals, values)
    requires fi < |formals| && formals[fi].kind != ArgStar2
    ensures State(formals, values + [a], keywords, named, toActual[fi := toActual[fi] + [a]])
    ensures (if formals[fi].kind == ArgStar then fi else fi + 1) == NextFormal(formals, values + [a])
  {
    EntriesMore(formals, Stop(formals), values, keywords, toActual, fi, a);
    TotalMore(formals, values, named, toActual, fi, a);
  }

  lemma TotalMore(formals: seq<Formal>, values: seq<nat>, named: seq<nat>, toActual: seq<seq<nat>>, fi: nat, a: nat)
    requires fi < |toActual| && (StopsAtStar(formals) || |values| < Stop(formals))
    requires multiset(Concat(toActual)) == multiset(MappedValues(formals, values)) + multiset(named)
    ensures multiset(Concat(toActual[fi := toActual[fi] + [a]])) == multiset(MappedValues(formals, values + [a]))
            + multiset(named)
  {
    ConcatAppend(toActual, fi, a);
    MappedValuesMore(formals, values, a);
  }

  lemma EntriesMore(formals: seq<Formal>, stop: nat, values: seq<nat>, keywords: seq<seq<nat>>,
      toActual: seq<seq<nat>>, fi: nat, a: nat)
    requires Entries(formals, stop, values, keywords, toActual) && fi == Min(|values|, stop)
    requires fi < |formals| && formals[fi].kind != ArgStar2 && (fi == stop ==> formals[fi].kind == ArgStar)
    requires forall i {:trigger formals[i]} | 0 <= i < |formals| ::
             if i < stop then !IsStar(formals[i].kind) else formals[i].kind == ArgStar ==> i == stop
    ensures Entries(formals, stop, values + [a], keywords, toActual[fi := toActual[fi] + [a]])
  {
    var after := toActual[fi := toActual[fi] + [a]];
    forall i {:trigger after[i]} | 0 <= i < |formals|
      ensures EntryIs(formals[i].kind, i, stop, values + [a], keywords[i], after[i])
    {
      EntryMore(formals[i].kind, i, stop, values, a, keywords[i], toActual[i], fi);
    }
  }

  /** Or nowhere. */
  lemma DropValue(formals: seq<Formal>, values: seq<nat>, keywords: seq<seq<nat>>, named: seq<nat>,
      toActual: seq<seq<nat>>, fi: nat, a: nat)
    requires StarFirst(formals) && State(formals, values, keywords, named, toActual)
             && fi == NextFormal(formals, values)
    requires fi == |formals| || formals[fi].kind == ArgStar2
    ensures State(formals, values + [a], keywords, named, toActual)
    ensures fi == NextFormal(formals, values + [a])
  {
    assert MappedValues(formals, values + [a]) == MappedValues(formals, values);
    forall i {:trigger toActual[i]} | 0 <= i < |formals|
      ensures EntryIs(formals[i].kind, i, Stop(formals), values + [a], keywords[i], toActual[i])
    {
      EntrySame(formals[i].kind, i, Stop(formals), values, a, keywords[i], toActual[i]);
    }
  }

  lemma MappedValuesMore(formals: seq<Formal>, values: seq<nat>, a: nat)
    requires StopsAtStar(formals) || |values| < Stop(formals)
    ensures multiset(MappedValues(formals, values + [a])) == multiset(MappedValues(formals, values)) + multiset{a}
  {
  }

  lemma EntryMore(kind: Kind, i: nat, stop: nat, values: seq<nat>, a: nat, keywords: seq<nat>, entry: seq<nat>, fi: nat)
    requires fi == Min(|values|, stop) && EntryIs(kind, i, stop, values, keywords, entry)
    requires i == fi ==> kind != ArgStar2
    requires if i < stop then !IsStar(kind) else kind == ArgStar ==> i == stop
    requires i == stop == fi ==> kind == ArgStar
    ensures EntryIs(kind, i, stop, values + [a], keywords, if i == fi then entry + [a] else entry)
  {
    var more := values + [a];
    if kind == ArgStar {
      if |values| >= i {
        assert more[i..] == values[i..] + [a];
      }
    } else if i < stop && i < |values| {
      assert more[i] == values[i];
    }
  }

  lemma EntrySame(kind: Kind, i: nat, stop: nat, values: seq<nat>, a: nat, keywords: seq<nat>, entry: seq<nat>)
    requires EntryIs(kind, i, stop, values, keywords, entry) && kind != ArgStar && stop <= |values|
    ensures EntryIs(kind, i, stop, values + [a], keywords, entry)
  {
    if i < stop {
      assert (values + [a])[i] == values[i];
    }
  }

  /** A keyword goes to its target. */
  lemma PlaceKeyword(formals: seq<Formal>, values: seq<nat>, keywords: seq<seq<nat>>, named: seq<nat>,
      toActual: seq<seq<nat>>, i: nat, a: nat)
    requires State(formals, values, keywords, named, toActual) && i < |formals| && formals[i].kind != ArgStar
    ensures State(formals, values, keywords[i := keywords[i] + [a]], named + [a], toActual[i := toActual[i] + [a]])
  {
    EntriesKeyword(formals, Stop(formals), values, keywords, toActual, i, a);
    ConcatAppend(toActual, i, a);
    assert multiset(named + [a]) == multiset(named) + multiset{a};
  }

  lemma EntriesKeyword(formals: seq<Formal>, stop: nat, values: seq<nat>, keywords: seq<seq<nat>>,
      toActual: seq<seq<nat>>, i: nat, a: nat)
    requires Entries(formals, stop, values, keywords, toActual) && i < |formals| && formals[i].kind != ArgStar
    ensures Entries(formals, stop, values, keywords[i := keywords[i] + [a]], toActual[i := toActual[i] + [a]])
  {
    var after := toActual[i := toActual[i] + [a]];
    forall j {:trigger after[j]} | 0 <= j < |formals|
      ensures EntryIs(formals[j].kind, j, stop, values, keywords[i := keywords[i] + [a]][j], after[j])
    {
      EntryKeyword(formals[j].kind, j, stop, values, keywords[j], toActual[j], a);
    }
  }

  lemma EntryKeyword(kind: Kind, i: nat, stop: nat, values: seq<nat>, keywords: seq<nat>, entry: seq<nat>, a: nat)
    requires EntryIs(kind, i, stop, values, keywords, entry)
    ensures kind != ArgStar ==> EntryIs(kind, i, stop, values, keywords + [a], entry + [a])
  {
  }

  lemma {:induction false} NothingMapped(lists: seq<seq<nat>>)
    requires forall i | 0 <= i < |lists| :: lists[i] == []
    ensures Concat(lists) == []
  {
    if lists != [] {
      NothingMapped(lists[1..]);
    }
  }

  lemma RepeatMore(values: seq<nat>, a: nat, k: nat)
    ensures values + Repeat(a, k) + [a] == values + Repeat(a, k + 1)
  {
    assert Repeat(a, k + 1) == Repeat(a, k) + [a];
  }

  lemma {:induction false} RepeatSplit(a: nat, k: nat, m: nat)
    ensures Repeat(a, k) + Repeat(a, m) == Repeat(a, k + m)
  {
    if m == 0 {
      assert Repeat(a, k) + [] == Repeat(a, k);
    } else {
      RepeatSplit(a, k, m - 1);
      assert Repeat(a, k) + Repeat(a, m) == Repeat(a, k) + Repeat(a, m - 1) + [a];
    }
  }

  /** The items of a tuple are mapped one by one, until they meet `**kwargs`. */
  method MapTuple(formals: seq<Formal>, a: nat, items: nat, start: nat, before: seq<seq<nat>>,
      ghost values: seq<nat>, ghost keywords: seq<seq<nat>>, ghost named: seq<nat>)
    returns (fi: nat, toActual: seq<seq<nat>>)
    requires StarFirst(formals) && State(formals, values, keywords, named, before)
             && start == NextFormal(formals, values)
    ensures State(formals, values + Repeat(a, items), keywords, named, toActual)
    ensures fi == NextFormal(formals, values + Repeat(a, items))
  {
    fi, toActual := start, before;
    assert values + Repeat(a, 0) == values;
    ghost var more := values;
    for k := 0 to items
      invariant more == values + Repeat(a, k) && State(formals, more, keywords, named, toActual)
      invariant fi == NextFormal(formals, more)
    {
      RepeatMore(values, a, k);
      if fi < |formals| {
        if formals[fi].kind != ArgStar2 {
          PlaceValue(formals, more, keywords, named, toActual, fi, a);
          toActual := toActual[fi := toActual[fi] + [a]];
        } else {
          DropRest(formals, values, keywords, named, toActual, fi, a, k, items);
          return;
        }
        if formals[fi].kind != ArgStar {
          fi := fi + 1;
        }
      } else {
        DropValue(formals, more, keywords, named, toActual, fi, a);
      }
      more := more + [a];
    }
  }

  lemma {:induction false} DropValues(formals: seq<Formal>, values: seq<nat>, keywords: seq<seq<nat>>, named: seq<nat>,
      toActual: seq<seq<nat>>, fi: nat, dropped: seq<nat>)
    requires StarFirst(formals) && State(formals, values, keywords, named, toActual)
             && fi == NextFormal(formals, values)
    requires fi == |formals| || formals[fi].kind == ArgStar2
    ensures State(formals, values + dropped, keywords, named, toActual)
    ensures fi == NextFormal(formals, values + dropped)
    decreases |dropped|
  {
    if dropped == [] {
      assert values + dropped == values;
    } else {
      DropValue(formals, values, keywords, named, toActual, fi, dropped[0]);
      DropValues(formals, values + [dropped[0]], keywords, named, toActual, fi, dropped[1..]);
      assert values + dropped == values + [dropped[0]] + dropped[1..];
    }
  }

  lemma DropRest(formals: seq<Formal>, values: seq<nat>, keywords: seq<seq<nat>>, named: seq<nat>,
      toActual: seq<seq<nat>>, fi: nat, a: nat, k: nat, items: nat)
    requires StarFirst(formals) && k <= items && State(formals, values + Repeat(a, k), keywords, named, toActual)
    requires fi == NextFormal(formals, values + Repeat(a, k)) && (fi == |formals| || formals[fi].kind == ArgStar2)
    ensures State(formals, values + Repeat(a, items), keywords, named, toActual)
    ensures fi == NextFormal(formals, values + Repeat(a, items))
  {
    RepeatWhole(values, a, k, items);
    DropValues(formals, values + Repeat(a, k), keywords, named, toActual, fi, Repeat(a, items - k));
  }

  lemma RepeatWhole(values: seq<nat>, a: nat, k: nat, items: nat)
    requires k <= items
    ensures values + Repeat(a, k) + Repeat(a, items - k) == values + Repeat(a, items)
  {
    RepeatSplit(a, k, items - k);
    assert values + Repeat(a, k) + Repeat(a, items - k) == values + (Repeat(a, k) + Repeat(a, items - k));
  }

  lemma NextValues(actuals: seq<Actual>, formals: seq<Formal>, k: nat)
    requires k < |actuals| && !actuals[k].Keyword?
    ensures Values(actuals, k + 1) == Values(actuals, k) + ValuesOf(actuals[k], k)
    ensures AllKeywords(actuals, formals, k + 1) == AllKeywords(actuals, formals, k)
    ensures MappedKeywords(actuals, formals, k + 1) == MappedKeywords(actuals, formals, k)
  {
    assert forall i | 0 <= i < |formals| :: Keywords(actuals, formals, k + 1, i) == Keywords(actuals, formals, k, i);
  }

  lemma NextKeyword(actuals: seq<Actual>, formals: seq<Formal>, k: nat)
    requires k < |actuals| && actuals[k].Keyword?
    ensures Values(actuals, k + 1) == Values(actuals, k)
    ensures AllKeywords(actuals, formals, k + 1)
            == WithKeyword(AllKeywords(actuals, formals, k), KeywordTarget(formals, actuals[k].name), k)
    ensures MappedKeywords(actuals, formals, k + 1)
            == MappedKeywords(actuals, formals, k) + if KeywordTarget(formals, actuals[k].name).Some? then [k] else []
  {
    var target := KeywordTarget(formals, actuals[k].name);
    forall i | 0 <= i < |formals|
      ensures AllKeywords(actuals, formals, k + 1)[i] == WithKeyword(AllKeywords(actuals, formals, k), target, k)[i]
    {
      assert Keywords(actuals, formals, k, i) + [] == Keywords(actuals, formals, k, i);
    }
  }

  function WithKeyword(keywords: seq<seq<nat>>, target: Option<nat>, a: nat): seq<seq<nat>> {
    if target.Some? && target.value < |keywords| then keywords[target.value := keywords[target.value] + [a]]
        else keywords
  }

  method MapPositional(formals: seq<Formal>, a: nat, start: nat, before: seq<seq<nat>>,
      ghost values: seq<nat>, ghost keywords: seq<seq<nat>>, ghost named: seq<nat>)
    returns (fi: nat, toActual: seq<seq<nat>>)
    requires StarFirst(formals) && State(formals, values, keywords, named, before)
             && start == NextFormal(formals, values)
    ensures State(formals, values + [a], keywords, named, toActual)
    ensures fi == NextFormal(formals, values + [a])
  {
    fi, toActual := start, before;
    if fi < |formals| && formals[fi].kind != ArgStar2 {
      PlaceValue(formals, values, keywords, named, toActual, fi, a);
    } else {
      DropValue(formals, values, keywords, named, toActual, fi, a);
    }
    if fi < |formals| {
      if !IsStar(formals[fi].kind) {
        toActual := toActual[fi := toActual[fi] + [a]];
        fi := fi + 1;
      } else if formals[fi].kind == ArgStar {
        toActual := toActual[fi := toActual[fi] + [a]];
      }
    }
  }

  method MapKeyword(formals: seq<Formal>, name: string, a: nat, before: seq<seq<nat>>,
      ghost values: seq<nat>, ghost keywords: seq<seq<nat>>, ghost named: seq<nat>)
    returns (toActual: seq<seq<nat>>)
    requires State(formals, values, keywords, named, before)
    ensures var target := KeywordTarget(formals, name);
            State(formals, values, WithKeyword(keywords, target, a), named + (if target.Some? then [a] else []),
                toActual)
  {
    toActual := before;
    var index := IndexOfName(formals, name);
    if index.Some? && formals[index.value].kind != ArgStar {
      PlaceKeyword(formals, values, keywords, named, toActual, index.value, a);
      toActual := toActual[index.value := toActual[index.value] + [a]];
    } else {
      var rest := IndexOfKind(formals, ArgStar2);
      if rest.Some? {
        PlaceKeyword(formals, values, keywords, named, toActual, rest.value, a);
        toActual := toActual[rest.value := toActual[rest.value] + [a]];
      } else {
        assert named + [] == named;
      }
    }
  }

  /** For every parameter, the arguments that are mapped to it. */
  method MapActualsToFormals(actuals: seq<Actual>, formals: seq<Formal>) returns (toActual: seq<seq<nat>>)
    requires Signature(formals)
    ensures Mapping(actuals, formals, |actuals|, toActual)
  {
    toActual := seq(|formals|, i => []);
    NothingMapped(toActual);
    SignatureStarFirst(formals);
    var fi := 0;
    for a := 0 to |actuals|
      invariant Mapping(actuals, formals, a, toActual)
      invariant fi == NextFormal(formals, Values(actuals, a))
    {
      ghost var values, keywords, named := Values(actuals, a), AllKeywords(actuals, formals, a),
          MappedKeywords(actuals, formals, a);
      match actuals[a] {
        case Positional =>
          fi, toActual := MapPositional(formals, a, fi, toActual, values, keywords, named);
          NextValues(actuals, formals, a);
        case StarTuple(items) =>
          fi, toActual := MapTuple(formals, a, items, fi, toActual, values, keywords, named);
          NextValues(actuals, formals, a);
        case Keyword(name) =>
          NextKeyword(actuals, formals, a);
          toActual := MapKeyword(formals, name, a, toActual, values, keywords, named);
      }
    }
  }

  // The check of the mapping.

  /** How often a is among the first n elements. */
  function CountTo(s: seq<nat>, n: nat, a: nat): nat
    requires n <= |s|
  {
    if n == 0 then 0 else CountTo(s, n - 1, a) + if s[n - 1] == a then 1 else 0
  }

  function Count(s: seq<nat>, a: nat): nat {
    CountTo(s, |s|, a)
  }

  lemma {:induction false} CountToMultiset(s: seq<nat>, n: nat, a: nat)
    requires n <= |s|
    ensures CountTo(s, n, a) == multiset(s[..n])[a]
  {
    if n > 0 {
      CountToMultiset(s, n - 1, a);
      assert s[..n] == s[..n - 1] + [s[n - 1]];
    }
  }

  lemma CountMultiset(s: seq<nat>, a: nat)
    ensures Count(s, a) == multiset(s)[a]
    ensures a in s <==> Count(s, a) > 0
  {
    CountToMultiset(s, |s|, a);
    assert s[..|s|] == s;
  }

  function Items(actual: Actual): nat {
    match actual
    case Positional => 1
    case StarTuple(n) => n
    case Keyword(_) => 1
  }

  /** An argument that is mapped so often is not matched, or not all of its items are. */
  ghost predicate Extra(actual: Actual, formals: seq<Formal>, count: nat) {
    || (count == 0 && (actual.StarTuple? ==> actual.items > 0))
    || (actual.StarTuple? && !Has(formals, ArgStar) && count < actual.items)
  }

  ghost predicate TooMany(actuals: seq<Actual>, formals: seq<Formal>, mapped: seq<nat>, a: nat)
    requires a < |actuals|
  {
    Extra(actuals[a], formals, Count(mapped, a))
  }

  /** The values mapped to parameter i fit it. */
  ghost predicate FormalOk(actuals: seq<Actual>, kind: Kind, mapped: seq<nat>) {
    && (IsRequired(kind) ==> mapped != [])
    && (!IsStar(kind) ==> |mapped| <= 1)
    && (IsNamed(kind) && mapped != [] && mapped[0] < |actuals| ==> actuals[mapped[0]].Keyword?)
  }

  ghost predicate NoExtras(actuals: seq<Actual>, formals: seq<Formal>, mapped: seq<nat>) {
    forall a | 0 <= a < |actuals| :: !TooMany(actuals, formals, mapped, a)
  }

  ghost predicate FormalsOk(actuals: seq<Actual>, formals: seq<Formal>, toActual: seq<seq<nat>>)
    requires |toActual| == |formals|
  {
    forall i {:trigger toActual[i]} | 0 <= i < |formals| :: FormalOk(actuals, formals[i].kind, toActual[i])
  }

  ghost predicate Accepts(actuals: seq<Actual>, formals: seq<Formal>, toActual: seq<seq<nat>>)
    requires |toActual| == |formals|
  {
    NoExtras(actuals, formals, Concat(toActual)) && FormalsOk(actuals, formals, toActual)
  }

  // How often an argument is mapped.

  lemma {:induction false} ValuesCount(actuals: seq<Actual>, k: nat, a: nat)
    requires k <= |actuals|
    ensures Count(Values(actuals, k), a) == if a < k && !actuals[a].Keyword? then Items(actuals[a]) else 0
  {
    if k > 0 {
      ValuesCount(actuals, k - 1, a);
      NextCount(Values(actuals, k - 1), actuals[k - 1], k - 1, a, Values(actuals, k));
    }
  }

  lemma NextCount(before: seq<nat>, actual: Actual, b: nat, a: nat, after: seq<nat>)
    requires after == before + ValuesOf(actual, b)
    ensures Count(after, a) == Count(before, a) + if a == b && !actual.Keyword? then Items(actual) else 0
  {
    ValuesOfCount(actual, b, a);
    CountAppend(before, ValuesOf(actual, b), a);
  }

  lemma {:induction false} CountPrefixes(x: seq<nat>, y: seq<nat>, n: nat, a: nat)
    requires n <= |x + y|
    ensures CountTo(x + y, n, a) == if n <= |x| then CountTo(x, n, a) else CountTo(x, |x|, a) + CountTo(y, n - |x|, a)
  {
    if n > 0 {
      CountPrefixes(x, y, n - 1, a);
    }
  }

  lemma CountAppend(x: seq<nat>, y: seq<nat>, a: nat)
    ensures Count(x + y, a) == Count(x, a) + Count(y, a)
  {
    CountPrefixes(x, y, |x + y|, a);
  }

  lemma CountOne(b: nat, a: nat)
    ensures Count([b], a) == (if a == b then 1 else 0) && Count([], a) == 0
  {
    assert CountTo([b], 1, a) == CountTo([b], 0, a) + if b == a then 1 else 0;
  }

  lemma ValuesOfCount(actual: Actual, b: nat, a: nat)
    ensures Count(ValuesOf(actual, b), a) == if a == b && !actual.Keyword? then Items(actual) else 0
  {
    CountOne(b, a);
    if actual.StarTuple? {
      RepeatCount(b, actual.items, a);
    }
  }

  lemma {:induction false} RepeatCount(b: nat, n: nat, a: nat)
    ensures Count(Repeat(b, n), a) == if a == b then n else 0
  {
    CountOne(b, a);
    if n > 0 {
      RepeatCount(b, n - 1, a);
      CountAppend(Repeat(b, n - 1), [b], a);
    }
  }

  lemma {:induction false} NamedCount(actuals: seq<Actual>, formals: seq<Formal>, k: nat, a: nat)
    requires k <= |actuals|
    ensures Count(MappedKeywords(actuals, formals, k), a)
            == if a < k && actuals[a].Keyword? && KeywordTarget(formals, actuals[a].name).Some? then 1 else 0
  {
    if k > 0 {
      NamedCount(actuals, formals, k - 1, a);
      NextNamed(MappedKeywords(actuals, formals, k - 1), MappedKeywords(actuals, formals, k), k - 1, a,
                actuals[k - 1].Keyword? && KeywordTarget(formals, actuals[k - 1].name).Some?);
    }
  }

  lemma NextNamed(before: seq<nat>, after: seq<nat>, b: nat, a: nat, mapped: bool)
    requires after == before + if mapped then [b] else []
    ensures Count(after, a) == Count(before, a) + if mapped && a == b then 1 else 0
  {
    CountOne(b, a);
    CountAppend(before, if mapped then [b] else [], a);
  }

  ghost predicate IsTarget(actuals: seq<Actual>, formals: seq<Formal>, a: nat, i: nat) {
    a < |actuals| && actuals[a].Keyword? && KeywordTarget(formals, actuals[a].name) == Some(i)
  }

  lemma {:induction false} KeywordsOf(actuals: seq<Actual>, formals: seq<Formal>, k: nat, i: nat)
    requires k <= |actuals|
    ensures forall a: nat :: a in Keywords(actuals, formals, k, i) <==> a < k && IsTarget(actuals, formals, a, i)
  {
    if k > 0 {
      KeywordsOf(actuals, formals, k - 1, i);
    }
  }

  lemma {:induction false} KeywordsAscending(actuals: seq<Actual>, formals: seq<Formal>, k: nat, i: nat)
    requires k <= |actuals|
    ensures Ascending(Keywords(actuals, formals, k, i))
  {
    if k > 0 {
      KeywordsAscending(actuals, formals, k - 1, i);
      KeywordsOf(actuals, formals, k - 1, i);
      var before, s := Keywords(actuals, formals, k - 1, i), Keywords(actuals, formals, k, i);
      assert forall x | 0 <= x < |before| :: before[x] in before && s[x] == before[x];
    }
  }

  // What the grammar gives.

  lemma TargetNamed(actuals: seq<Actual>, formals: seq<Formal>, a: nat, i: nat)
    requires Signature(formals) && a < |actuals| && actuals[a].Keyword? && i < |formals| && !IsStar(formals[i].kind)
    ensures KeywordTarget(formals, actuals[a].name) == Some(i) <==> Names(actuals, formals, a, i)
  {
  }

  lemma TargetRest(actuals: seq<Actual>, formals: seq<Formal>, a: nat, i: nat)
    requires Signature(formals) && a < |actuals| && actuals[a].Keyword? && i < |formals| && formals[i].kind == ArgStar2
    ensures KeywordTarget(formals, actuals[a].name) == Some(i) <==> NoParameter(actuals, formals, a)
  {
    var found := IndexOfName(formals, actuals[a].name);
    if NoParameter(actuals, formals, a) {
      if found.Some? {
        assert !Names(actuals, formals, a, found.value);
      }
    }
  }

  lemma TargetNone(actuals: seq<Actual>, formals: seq<Formal>, a: nat)
    requires Signature(formals) && a < |actuals| && actuals[a].Keyword?
    ensures KeywordTarget(formals, actuals[a].name).None?
            <==> NoParameter(actuals, formals, a) && !Has(formals, ArgStar2)
  {
    var found := IndexOfName(formals, actuals[a].name);
    if found.Some? {
      assert Names(actuals, formals, a, found.value) <==> !IsStar(formals[found.value].kind);
    }
  }

  /** Positional parameters come right before `*args`. */
  lemma StarAfterSlots(formals: seq<Formal>)
    requires Signature(formals)
    ensures Slots(formals) <= Stop(formals)
    ensures Has(formals, ArgStar) <==> StopsAtStar(formals)
    ensures Has(formals, ArgStar) ==> Stop(formals) == Slots(formals)
  {
    SignatureStarFirst(formals);
  }

  // The check is exact.

  lemma KeywordsNamed(actuals: seq<Actual>, formals: seq<Formal>, i: nat)
    requires Signature(formals) && i < |formals| && !IsStar(formals[i].kind)
    ensures forall a: nat :: a in Keywords(actuals, formals, |actuals|, i) <==> Names(actuals, formals, a, i)
  {
    KeywordsOf(actuals, formals, |actuals|, i);
    forall a: nat
      ensures a in Keywords(actuals, formals, |actuals|, i) <==> Names(actuals, formals, a, i)
    {
      if a < |actuals| && actuals[a].Keyword? {
        TargetNamed(actuals, formals, a, i);
      }
    }
  }

  /** Parameter i is reached by position. */
  predicate Reached(values: seq<nat>, formals: seq<Formal>, i: nat) {
    i < Stop(formals) && i < |values|
  }

  /** What is mapped to a parameter that is not starred: the value at its position and the keywords with its name. */
  lemma EntryOfFormal(actuals: seq<Actual>, formals: seq<Formal>, toActual: seq<seq<nat>>, i: nat)
    requires Signature(formals) && Mapping(actuals, formals, |actuals|, toActual) && i < |formals|
             && !IsStar(formals[i].kind)
    ensures var values := Values(actuals, |actuals|);
            && (forall a: nat ::
               a in toActual[i] <==> Names(actuals, formals, a, i) || (Reached(values, formals, i) && a == values[i]))
            && |toActual[i]| == |Keywords(actuals, formals, |actuals|, i)|
               + (if Reached(values, formals, i) then 1 else 0)
  {
    var values, keywords := Values(actuals, |actuals|), Keywords(actuals, formals, |actuals|, i);
    assert EntryIs(formals[i].kind, i, Stop(formals), values, keywords, toActual[i]);
    KeywordsNamed(actuals, formals, i);
    var hit := if Reached(values, formals, i) then [values[i]] else [];
    assert |multiset(toActual[i])| == |multiset(hit)| + |multiset(keywords)|;
    assert forall a: nat :: a in toActual[i] <==> a in multiset(toActual[i]);
  }

  lemma TwoDiffer(s: seq<nat>)
    requires |s| >= 2 && Ascending(s)
    ensures s[0] in s && s[1] in s && s[0] != s[1]
  {
  }

  /** At most one keyword is for a parameter. */
  lemma OneKeyword(actuals: seq<Actual>, formals: seq<Formal>, i: nat)
    requires Signature(formals) && KeywordsDistinct(actuals) && i < |formals| && !IsStar(formals[i].kind)
    ensures |Keywords(actuals, formals, |actuals|, i)| == if NamedByKeyword(actuals, formals, i) then 1 else 0
  {
    var s := Keywords(actuals, formals, |actuals|, i);
    KeywordsNamed(actuals, formals, i);
    KeywordsAscending(actuals, formals, |actuals|, i);
    if |s| >= 2 {
      TwoDiffer(s);
    }
    if |s| == 1 {
      assert s[0] in s;
    }
  }

  /** What a parameter that is not starred must and must not be given, in Python's terms. */
  ghost predicate Fitting(actuals: seq<Actual>, formals: seq<Formal>, i: nat)
    requires i < |formals|
  {
    var values := Values(actuals, |actuals|);
    && (IsRequired(formals[i].kind) ==> FilledByPosition(values, formals, i) || NamedByKeyword(actuals, formals, i))
    && !(FilledByPosition(values, formals, i) && NamedByKeyword(actuals, formals, i))
    && (Reached(values, formals, i) ==> FilledByPosition(values, formals, i))
  }

  lemma ValuesArePositional(actuals: seq<Actual>, v: nat)
    requires v in Values(actuals, |actuals|)
    ensures v < |actuals| && !actuals[v].Keyword?
  {
    ValuesCount(actuals, |actuals|, v);
    CountMultiset(Values(actuals, |actuals|), v);
  }

  lemma FittingIff(actuals: seq<Actual>, formals: seq<Formal>, toActual: seq<seq<nat>>, i: nat)
    requires Signature(formals) && KeywordsDistinct(actuals) && Mapping(actuals, formals, |actuals|, toActual)
    requires i < |formals| && !IsStar(formals[i].kind)
    ensures FormalOk(actuals, formals[i].kind, toActual[i]) <==> Fitting(actuals, formals, i)
    ensures Fitting(actuals, formals, i) ==> Gets(actuals, formals, i, toActual[i])
  {
    var values := Values(actuals, |actuals|);
    EntryOfFormal(actuals, formals, toActual, i);
    OneKeyword(actuals, formals, i);
    StarAfterSlots(formals);
    if Reached(values, formals, i) {
      assert values[i] in values;
      ValuesArePositional(actuals, values[i]);
    }
    if toActual[i] != [] {
      assert toActual[i][0] in toActual[i];
    }
    SlotsAreExactly(formals, i);
  }

  /** A parameter that is neither starred nor among the slots is named. */
  lemma SlotsAreExactly(formals: seq<Formal>, i: nat)
    requires Signature(formals) && i < |formals| && !IsStar(formals[i].kind)
    ensures i < Slots(formals) <==> IsPositional(formals[i].kind)
    ensures i >= Slots(formals) <==> IsNamed(formals[i].kind)
  {
    if i > Slots(formals) {
      assert Rank(formals[Slots(formals)].kind) <= Rank(formals[i].kind);
    }
  }

  lemma MappedCount(actuals: seq<Actual>, formals: seq<Formal>, toActual: seq<seq<nat>>, a: nat)
    requires Mapping(actuals, formals, |actuals|, toActual) && a < |actuals|
    ensures Count(Concat(toActual), a)
            == if actuals[a].Keyword? then (if KeywordTarget(formals, actuals[a].name).Some? then 1 else 0)
               else Count(MappedValues(formals, Values(actuals, |actuals|)), a)
  {
    var values, named := Values(actuals, |actuals|), MappedKeywords(actuals, formals, |actuals|);
    var mapped := MappedValues(formals, values);
    CountMultiset(Concat(toActual), a);
    CountMultiset(mapped, a);
    CountMultiset(named, a);
    NamedCount(actuals, formals, |actuals|, a);
    ValuesCount(actuals, |actuals|, a);
    CountPrefix(values, |mapped|, a);
  }

  lemma CountPrefix(s: seq<nat>, n: nat, a: nat)
    requires n <= |s|
    ensures Count(s[..n], a) + Count(s[n..], a) == Count(s, a)
  {
    assert s == s[..n] + s[n..];
    CountAppend(s[..n], s[n..], a);
  }

  /** Every positional value is mapped. */
  predicate NothingDropped(actuals: seq<Actual>, formals: seq<Formal>) {
    StopsAtStar(formals) || |Values(actuals, |actuals|)| <= Stop(formals)
  }

  ghost predicate KeywordsMapped(actuals: seq<Actual>, formals: seq<Formal>) {
    forall a {:trigger actuals[a]} | 0 <= a < |actuals| && actuals[a].Keyword? ::
        KeywordTarget(formals, actuals[a].name).Some?
  }

  lemma NoneTooMany(actuals: seq<Actual>, formals: seq<Formal>, toActual: seq<seq<nat>>, a: nat)
    requires Mapping(actuals, formals, |actuals|, toActual) && a < |actuals|
    requires NothingDropped(actuals, formals) && KeywordsMapped(actuals, formals)
    ensures !TooMany(actuals, formals, Concat(toActual), a)
  {
    MappedCount(actuals, formals, toActual, a);
    ValuesCount(actuals, |actuals|, a);
  }

  /** A value that is dropped is too many. */
  lemma DroppedTooMany(actuals: seq<Actual>, formals: seq<Formal>, toActual: seq<seq<nat>>) returns (a: nat)
    requires Signature(formals) && Mapping(actuals, formals, |actuals|, toActual) && !NothingDropped(actuals, formals)
    ensures a < |actuals| && TooMany(actuals, formals, Concat(toActual), a)
  {
    var values, stop := Values(actuals, |actuals|), Stop(formals);
    a := values[stop];
    assert a in values && values[stop..][0] == a;
    ValuesArePositional(actuals, a);
    MappedCount(actuals, formals, toActual, a);
    ValuesCount(actuals, |actuals|, a);
    CountPrefix(values, stop, a);
    CountMultiset(values[stop..], a);
    assert a in values[stop..];
    StarAfterSlots(formals);
  }

  lemma ExtrasIff(actuals: seq<Actual>, formals: seq<Formal>, toActual: seq<seq<nat>>)
    requires Signature(formals) && Mapping(actuals, formals, |actuals|, toActual)
    ensures NoExtras(actuals, formals, Concat(toActual))
            <==> NothingDropped(actuals, formals) && KeywordsMapped(actuals, formals)
  {
    var mapped := Concat(toActual);
    if NothingDropped(actuals, formals) {
      if !KeywordsMapped(actuals, formals) {
        var a :| 0 <= a < |actuals| && actuals[a].Keyword? && KeywordTarget(formals, actuals[a].name).None?;
        MappedCount(actuals, formals, toActual, a);
        SomeExtra(actuals, formals, mapped, a);
      } else {
        AllMatched(actuals, formals, toActual);
      }
    } else {
      var a := DroppedTooMany(actuals, formals, toActual);
      SomeExtra(actuals, formals, mapped, a);
    }
  }

  lemma AllMatched(actuals: seq<Actual>, formals: seq<Formal>, toActual: seq<seq<nat>>)
    requires Mapping(actuals, formals, |actuals|, toActual)
    requires NothingDropped(actuals, formals) && KeywordsMapped(actuals, formals)
    ensures NoExtras(actuals, formals, Concat(toActual))
  {
    forall a | 0 <= a < |actuals|
      ensures !TooMany(actuals, formals, Concat(toActual), a)
    {
      NoneTooMany(actuals, formals, toActual, a);
    }
  }

  lemma SomeExtra(actuals: seq<Actual>, formals: seq<Formal>, mapped: seq<nat>, a: nat)
    requires a < |actuals| && TooMany(actuals, formals, mapped, a)
    ensures !NoExtras(actuals, formals, mapped)
  {
  }

  /** The same conditions in Python's terms. */
  ghost predicate AllFitting(actuals: seq<Actual>, formals: seq<Formal>) {
    forall i {:trigger formals[i]} | 0 <= i < |formals| && !IsStar(formals[i].kind) :: Fitting(actuals, formals, i)
  }

  lemma AcceptsIff(actuals: seq<Actual>, formals: seq<Formal>, toActual: seq<seq<nat>>)
    requires Signature(formals) && KeywordsDistinct(actuals) && Mapping(actuals, formals, |actuals|, toActual)
    ensures Accepts(actuals, formals, toActual)
            <==> NothingDropped(actuals, formals) && KeywordsMapped(actuals, formals) && AllFitting(actuals, formals)
  {
    ExtrasIff(actuals, formals, toActual);
    FormalsIff(actuals, formals, toActual);
  }

  lemma FormalsIff(actuals: seq<Actual>, formals: seq<Formal>, toActual: seq<seq<nat>>)
    requires Signature(formals) && KeywordsDistinct(actuals) && Mapping(actuals, formals, |actuals|, toActual)
    ensures FormalsOk(actuals, formals, toActual) <==> AllFitting(actuals, formals)
  {
    if FormalsOk(actuals, formals, toActual) {
      forall i {:trigger formals[i]} | 0 <= i < |formals| && !IsStar(formals[i].kind)
        ensures Fitting(actuals, formals, i)
      {
        assert FormalOk(actuals, formals[i].kind, toActual[i]);
        FittingIff(actuals, formals, toActual, i);
      }
    }
    if AllFitting(actuals, formals) {
      forall i {:trigger toActual[i]} | 0 <= i < |formals|
        ensures FormalOk(actuals, formals[i].kind, toActual[i])
      {
        if !IsStar(formals[i].kind) {
          FittingIff(actuals, formals, toActual, i);
        }
      }
    }
  }

  lemma SucceedsIff(actuals: seq<Actual>, formals: seq<Formal>)
    requires Signature(formals)
    ensures CallSucceeds(actuals, formals)
            <==> NothingDropped(actuals, formals) && KeywordsMapped(actuals, formals) && AllFitting(actuals, formals)
  {
    StarAfterSlots(formals);
    forall a | 0 <= a < |actuals| && actuals[a].Keyword?
      ensures KeywordTarget(formals, actuals[a].name).None?
              <==> NoParameter(actuals, formals, a) && !Has(formals, ArgStar2)
    {
      TargetNone(actuals, formals, a);
    }
    var values := Values(actuals, |actuals|);
    if NothingDropped(actuals, formals) && AllFitting(actuals, formals) {
      if |values| > Slots(formals) && !Has(formals, ArgStar) {
        assert Reached(values, formals, Slots(formals));
      }
      forall a, i | Names(actuals, formals, a, i)
        ensures !FilledByPosition(values, formals, i)
      {
        assert Fitting(actuals, formals, i);
      }
    }
    if CallSucceeds(actuals, formals) {
      forall i {:trigger formals[i]} | 0 <= i < |formals| && !IsStar(formals[i].kind)
        ensures Fitting(actuals, formals, i)
      {
      }
    }
  }

  /**
   * The check accepts a mapping exactly if the call succeeds in Python, and then every parameter
   * gets what Python gives it.
   */
  lemma CheckIsExact(actuals: seq<Actual>, formals: seq<Formal>, toActual: seq<seq<nat>>)
    requires Signature(formals) && KeywordsDistinct(actuals) && Mapping(actuals, formals, |actuals|, toActual)
    ensures Accepts(actuals, formals, toActual) <==> CallSucceeds(actuals, formals)
    ensures CallSucceeds(actuals, formals) ==> forall i {:trigger toActual[i]} | 0 <= i < |formals| ::
            Gets(actuals, formals, i, toActual[i])
  {
    AcceptsIff(actuals, formals, toActual);
    SucceedsIff(actuals, formals);
    if CallSucceeds(actuals, formals) {
      forall i {:trigger toActual[i]} | 0 <= i < |formals|
        ensures Gets(actuals, formals, i, toActual[i])
      {
        if IsStar(formals[i].kind) {
          StarGets(actuals, formals, toActual, i);
        } else {
          FittingIff(actuals, formals, toActual, i);
        }
      }
    }
  }

  lemma StarGets(actuals: seq<Actual>, formals: seq<Formal>, toActual: seq<seq<nat>>, i: nat)
    requires Signature(formals) && Mapping(actuals, formals, |actuals|, toActual) && i < |formals|
             && IsStar(formals[i].kind)
    ensures Gets(actuals, formals, i, toActual[i])
  {
    var values, keywords := Values(actuals, |actuals|), Keywords(actuals, formals, |actuals|, i);
    assert EntryIs(formals[i].kind, i, Stop(formals), values, keywords, toActual[i]);
    StarAfterSlots(formals);
    SignatureStarFirst(formals);
    KeywordsOf(actuals, formals, |actuals|, i);
    KeywordsAscending(actuals, formals, |actuals|, i);
    if formals[i].kind == ArgStar2 {
      forall a: nat
        ensures a in keywords <==> a < |actuals| && actuals[a].Keyword? && NoParameter(actuals, formals, a)
      {
        if a < |actuals| && actuals[a].Keyword? {
          TargetRest(actuals, formals, a, i);
        }
      }
    }
  }

  // The methods that check.

  /** How often each argument is mapped; arguments that are not mapped have no entry. */
  ghost predicate CountsAre(counts: map<nat, nat>, mapped: seq<nat>) {
    forall a: nat {:trigger Count(mapped, a)} ::
        if a in counts then counts[a] == Count(mapped, a) && counts[a] > 0 else Count(mapped, a) == 0
  }

  lemma CountsNext(counts: map<nat, nat>, mapped: seq<nat>, b: nat)
    requires CountsAre(counts, mapped)
    ensures CountsAre(counts[b := (if b in counts then counts[b] else 0) + 1], mapped + [b])
  {
    forall a: nat
      ensures Count(mapped + [b], a) == Count(mapped, a) + if a == b then 1 else 0
    {
      CountAppend(mapped, [b], a);
      CountOne(b, a);
    }
  }

  lemma {:induction false} ConcatNext(lists: seq<seq<nat>>, n: nat)
    requires n < |lists|
    ensures Concat(lists[..n + 1]) == Concat(lists[..n]) + lists[n]
  {
    if n == 0 {
      assert lists[..1] == [lists[0]] && lists[..1][1..] == [];
    } else {
      ConcatNext(lists[1..], n - 1);
      assert lists[..n + 1][1..] == lists[1..][..n] && lists[..n][1..] == lists[1..][..n - 1];
    }
  }

  ghost predicate AllWithin(lists: seq<seq<nat>>, bound: nat) {
    forall i, x | 0 <= i < |lists| && 0 <= x < |lists[i]| :: lists[i][x] < bound
  }

  method CountActuals(toActual: seq<seq<nat>>) returns (counts: map<nat, nat>)
    ensures CountsAre(counts, Concat(toActual))
  {
    counts := map[];
    for i := 0 to |toActual|
      invariant CountsAre(counts, Concat(toActual[..i]))
    {
      ghost var seen := Concat(toActual[..i]);
      ConcatNext(toActual, i);
      assert seen + toActual[i][..0] == seen;
      for j := 0 to |toActual[i]|
        invariant CountsAre(counts, seen + toActual[i][..j])
      {
        var a := toActual[i][j];
        CountsNext(counts, seen + toActual[i][..j], a);
        assert seen + toActual[i][..j] + [a] == seen + toActual[i][..j + 1];
        counts := counts[a := (if a in counts then counts[a] else 0) + 1];
      }
      assert toActual[i][..|toActual[i]|] == toActual[i];
    }
    assert toActual[..|toActual|] == toActual;
  }

  /** Looks for arguments that no parameter takes. */
  method CheckForExtraActualArguments(actuals: seq<Actual>, formals: seq<Formal>, counts: map<nat, nat>,
      ghost mapped: seq<nat>)
    returns (ok: bool, unexpectedKeyword: bool)
    requires CountsAre(counts, mapped)
    ensures ok <==> NoExtras(actuals, formals, mapped)
    ensures unexpectedKeyword <==> exists a | 0 <= a < |actuals| ::
            actuals[a].Keyword? && TooMany(actuals, formals, mapped, a)
  {
    ok, unexpectedKeyword := true, false;
    var hasStar := IndexOfKind(formals, ArgStar).Some?;
    assert hasStar <==> Has(formals, ArgStar);
    for a := 0 to |actuals|
      invariant ok <==> forall b | 0 <= b < a :: !TooMany(actuals, formals, mapped, b)
      invariant unexpectedKeyword <==> exists b | 0 <= b < a ::
                actuals[b].Keyword? && TooMany(actuals, formals, mapped, b)
    {
      var actual := actuals[a];
      assert Count(mapped, a) == if a in counts then counts[a] else 0;
      assert TooMany(actuals, formals, mapped, a) <==> Extra(actual, formals, Count(mapped, a));
      if a !in counts && (actual.StarTuple? ==> actual.items > 0) {
        ok := false;
        if actual.Keyword? {
          unexpectedKeyword := true;
        }
      } else if actual.StarTuple? && !hasStar {
        if (if a in counts then counts[a] else 0) < actual.items {
          ok := false;
        }
      }
    }
  }

  /** Checks that no argument is left over and every parameter gets what it needs, once. */
  method CheckArgumentCount(actuals: seq<Actual>, formals: seq<Formal>, toActual: seq<seq<nat>>) returns (ok: bool)
    requires |toActual| == |formals| && AllWithin(toActual, |actuals|)
    ensures ok <==> Accepts(actuals, formals, toActual)
  {
    var counts := CountActuals(toActual);
    var unexpectedKeyword;
    ok, unexpectedKeyword := CheckForExtraActualArguments(actuals, formals, counts, Concat(toActual));
    for i := 0 to |formals|
      invariant ok <==> NoExtras(actuals, formals, Concat(toActual))
                        && forall j {:trigger toActual[j]} | 0 <= j < i ::
                           FormalOk(actuals, formals[j].kind, toActual[j])
      invariant unexpectedKeyword ==> !NoExtras(actuals, formals, Concat(toActual))
    {
      var kind, mapped := formals[i].kind, toActual[i];
      if IsRequired(kind) && mapped == [] && !unexpectedKeyword {
        ok := false;
      } else if !IsStar(kind) && |mapped| > 1 {
        ok := false;
      } else if IsNamed(kind) && mapped != [] && !actuals[mapped[0]].Keyword? {
        ok := false;
      }
    }
  }

  /** A call is accepted exactly if it succeeds in Python, and then the mapping is Python's. */
  method CheckCall(actuals: seq<Actual>, formals: seq<Formal>) returns (ok: bool, toActual: seq<seq<nat>>)
    requires Signature(formals) && KeywordsDistinct(actuals)
    ensures ok <==> CallSucceeds(actuals, formals)
    ensures |toActual| == |formals|
    ensures ok ==> forall i {:trigger toActual[i]} | 0 <= i < |formals| :: Gets(actuals, formals, i, toActual[i])
  {
    toActual := MapActualsToFormals(actuals, formals);
    MappedAreActuals(actuals, formals, toActual);
    ok := CheckArgumentCount(actuals, formals, toActual);
    CheckIsExact(actuals, formals, toActual);
  }

  lemma MappedAreActuals(actuals: seq<Actual>, formals: seq<Formal>, toActual: seq<seq<nat>>)
    requires Signature(formals) && Mapping(actuals, formals, |actuals|, toActual)
    ensures AllWithin(toActual, |actuals|)
  {
    forall i, x | 0 <= i < |toActual| && 0 <= x < |toActual[i]|
      ensures toActual[i][x] < |actuals|
    {
      var a := toActual[i][x];
      assert a in toActual[i];
      if IsStar(formals[i].kind) {
        StarredAreActuals(actuals, formals, toActual, i, a);
      } else {
        EntryOfFormal(actuals, formals, toActual, i);
        if Reached(Values(actuals, |actuals|), formals, i) {
          ValuesArePositional(actuals, Values(actuals, |actuals|)[i]);
        }
      }
    }
  }

  lemma StarredAreActuals(actuals: seq<Actual>, formals: seq<Formal>, toActual: seq<seq<nat>>, i: nat, a: nat)
    requires Mapping(actuals, formals, |actuals|, toActual) && i < |formals| && IsStar(formals[i].kind)
             && a in toActual[i]
    ensures a < |actuals|
  {
    var values, keywords := Values(actuals, |actuals|), Keywords(actuals, formals, |actuals|, i);
    assert EntryIs(formals[i].kind, i, Stop(formals), values, keywords, toActual[i]);
    KeywordsOf(actuals, formals, |actuals|, i);
    if a !in keywords {
      assert a in values;
      ValuesArePositional(actuals, a);
    }
  }

  /** The parameters among the first n that argument a is mapped to, once for every item. */
  function Takers(toActual: seq<seq<nat>>, a: nat, n: nat): seq<nat>
    requires n <= |toActual|
  {
    if n == 0 then [] else Takers(toActual, a, n - 1) + Repeat(n - 1, Count(toActual[n - 1], a))
  }

  /** Argument a lists parameter f as often as f lists a. */
  lemma {:induction false} TakersCount(toActual: seq<seq<nat>>, a: nat, n: nat, f: nat)
    requires n <= |toActual|
    ensures Count(Takers(toActual, a, n), f) == if f < n then Count(toActual[f], a) else 0
  {
    if n > 0 {
      TakersCount(toActual, a, n - 1, f);
      CountAppend(Takers(toActual, a, n - 1), Repeat(n - 1, Count(toActual[n - 1], a)), f);
      RepeatCount(n - 1, Count(toActual[n - 1], a), f);
    }
  }

  /** The mapping the other way round. */
  method MapFormalsToActuals(actuals: seq<Actual>, formals: seq<Formal>)
    returns (toFormal: seq<seq<nat>>, ghost toActual: seq<seq<nat>>)
    requires Signature(formals)
    ensures Mapping(actuals, formals, |actuals|, toActual)
    ensures |toFormal| == |actuals| && forall a | 0 <= a < |actuals| :: toFormal[a] == Takers(toActual, a, |formals|)
  {
    var mapping := MapActualsToFormals(actuals, formals);
    toActual := mapping;
    MappedAreActuals(actuals, formals, mapping);
    toFormal := seq(|actuals|, i => []);
    for f := 0 to |formals|
      invariant |toFormal| == |actuals|
      invariant forall a | 0 <= a < |actuals| :: toFormal[a] == Takers(mapping, a, f)
    {
      toFormal := ListFormal(toFormal, f, mapping[f]);
    }
  }

  method ListFormal(before: seq<seq<nat>>, f: nat, actuals: seq<nat>) returns (toFormal: seq<seq<nat>>)
    requires forall x | 0 <= x < |actuals| :: actuals[x] < |before|
    ensures |toFormal| == |before| && forall a | 0 <= a < |before| ::
            toFormal[a] == before[a] + Repeat(f, Count(actuals, a))
  {
    toFormal := before;
    for j := 0 to |actuals|
      invariant |toFormal| == |before| && forall a | 0 <= a < |before| ::
                toFormal[a] == before[a] + Repeat(f, CountTo(actuals, j, a))
    {
      var b := actuals[j];
      RepeatMore(before[b], f, CountTo(actuals, j, b));
      toFormal := toFormal[b := toFormal[b] + [f]];
    }
  }
}
