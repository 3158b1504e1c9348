// Collapsing a union of tuple types that list the first few lengths of a variadic tuple.
module VariadicUnions {
  import opened Text
  import opened TupleTypes

  datatype Ty<+T> = Tuple(items: seq<Item<T>>) | Homogeneous(arg: T) | Other(name: T)

  // What types mean.

  datatype Value<+V> = TupleValue(elems: seq<V>) | OtherValue(v: V)

  /** Which values belong to an element type, to an unpacked type variable, and to a type that is not a tuple. */
  datatype Meaning<!T, !V> = Meaning(
    elem: (T, V) -> bool,
    variable: (nat, seq<V>) -> bool,
    other: (T, Value<V>) -> bool)

  ghost predicate AllFit<T, V>(sem: Meaning<T, V>, t: T, vs: seq<V>) {
    forall j | 0 <= j < |vs| :: sem.elem(t, vs[j])
  }

  /** The values in vs match the items, for some lengths of the unpacked runs. */
  ghost predicate Fits<T, V>(sem: Meaning<T, V>, items: seq<Item<T>>, vs: seq<V>) {
    if items == [] then vs == []
    else match items[0]
      case Plain(t) => vs != [] && sem.elem(t, vs[0]) && Fits(sem, items[1..], vs[1..])
      case Unpack(t) => exists n {:trigger vs[n..]} | 0 <= n <= |vs| ::
          AllFit(sem, t, vs[..n]) && Fits(sem, items[1..], vs[n..])
      case UnpackVar(id, _, _) => exists n {:trigger vs[n..]} | 0 <= n <= |vs| ::
          sem.variable(id, vs[..n]) && Fits(sem, items[1..], vs[n..])
  }

  ghost predicate Denotes<T, V>(sem: Meaning<T, V>, ty: Ty<T>, v: Value<V>) {
    match ty
    case Tuple(items) => v.TupleValue? && Fits(sem, items, v.elems)
    case Homogeneous(arg) => v.TupleValue? && AllFit(sem, arg, v.elems)
    case Other(name) => sem.other(name, v)
  }

  ghost predicate UnionDenotes<T, V>(sem: Meaning<T, V>, union: seq<Ty<T>>, v: Value<V>) {
    exists j | 0 <= j < |union| :: Denotes(sem, union[j], v)
  }

  // Runs of one element type, spelled out or unpacked.

  function Spelled<T>(t: T, n: nat): (r: seq<Item<T>>)
    ensures |r| == n && forall j | 0 <= j < n :: r[j] == Plain(t)
  {
    if n == 0 then [] else [Plain(t)] + Spelled(t, n - 1)
  }

  /** The values that one item takes. */
  ghost predicate Takes<T, V>(sem: Meaning<T, V>, item: Item<T>, vs: seq<V>) {
    match item
    case Plain(t) => |vs| == 1 && sem.elem(t, vs[0])
    case Unpack(t) => AllFit(sem, t, vs)
    case UnpackVar(id, _, _) => sem.variable(id, vs)
  }

  lemma FirstTakes<T, V>(sem: Meaning<T, V>, items: seq<Item<T>>, vs: seq<V>) returns (n: nat)
    requires items != [] && Fits(sem, items, vs)
    ensures n <= |vs| && Takes(sem, items[0], vs[..n]) && Fits(sem, items[1..], vs[n..])
  {
    match items[0]
    case Plain(t) => n := 1;
    case Unpack(t) => n :| 0 <= n <= |vs| && AllFit(sem, t, vs[..n]) && Fits(sem, items[1..], vs[n..]);
    case UnpackVar(id, _, _) => n :| 0 <= n <= |vs| && sem.variable(id, vs[..n]) && Fits(sem, items[1..], vs[n..]);
  }

  lemma TakesThenFits<T, V>(sem: Meaning<T, V>, items: seq<Item<T>>, vs: seq<V>, n: nat)
    requires items != [] && n <= |vs| && Takes(sem, items[0], vs[..n]) && Fits(sem, items[1..], vs[n..])
    ensures Fits(sem, items, vs)
  {
  }

  /** What fits the rest of a tuple type can be put behind a common prefix. */
  lemma {:induction false} UnderPrefix<T, V(!new)>(sem: Meaning<T, V>, prefix: seq<Item<T>>, a: seq<Item<T>>,
      b: seq<Item<T>>, vs: seq<V>)
    requires forall ws: seq<V> | Fits(sem, a, ws) :: Fits(sem, b, ws)
    requires Fits(sem, prefix + a, vs)
    ensures Fits(sem, prefix + b, vs)
    decreases |prefix|
  {
    if prefix == [] {
      assert prefix + a == a && prefix + b == b;
    } else {
      assert (prefix + a)[1..] == prefix[1..] + a && (prefix + b)[1..] == prefix[1..] + b;
      var n := FirstTakes(sem, prefix + a, vs);
      UnderPrefix(sem, prefix[1..], a, b, vs[n..]);
      TakesThenFits(sem, prefix + b, vs, n);
    }
  }

  /** A spelled-out run matches exactly that many elements. */
  lemma {:induction false} SpelledFits<T, V>(sem: Meaning<T, V>, t: T, k: nat, rest: seq<Item<T>>, vs: seq<V>)
    ensures Fits(sem, Spelled(t, k) + rest, vs) <==> k <= |vs| && AllFit(sem, t, vs[..k]) && Fits(sem, rest, vs[k..])
  {
    if k == 0 {
      assert Spelled(t, k) + rest == rest && vs[0..] == vs;
    } else {
      var items := Spelled(t, k) + rest;
      assert items[0] == Plain(t) && items[1..] == Spelled(t, k - 1) + rest;
      if vs != [] {
        SpelledFits(sem, t, k - 1, rest, vs[1..]);
        if k <= |vs| {
          assert vs[1..][k - 1..] == vs[k..];
          assert vs[..k] == [vs[0]] + vs[1..][..k - 1];
          assert AllFit(sem, t, vs[..k]) <==> sem.elem(t, vs[0]) && AllFit(sem, t, vs[1..][..k - 1]);
        }
      }
    }
  }

  lemma UnpackFits<T, V>(sem: Meaning<T, V>, t: T, rest: seq<Item<T>>, vs: seq<V>)
    ensures Fits(sem, [Unpack(t)] + rest, vs) <==> exists n: nat ::
            n <= |vs| && AllFit(sem, t, vs[..n]) && Fits(sem, rest, vs[n..])
  {
    assert ([Unpack(t)] + rest)[1..] == rest;
  }

  lemma SpelledIsUnpack<T, V(!new)>(sem: Meaning<T, V>, prefix: seq<Item<T>>, t: T, k: nat, suffix: seq<Item<T>>,
      vs: seq<V>)
    requires Fits(sem, prefix + (Spelled(t, k) + suffix), vs)
    ensures Fits(sem, prefix + ([Unpack(t)] + suffix), vs)
  {
    forall ws: seq<V> | Fits(sem, Spelled(t, k) + suffix, ws)
      ensures Fits(sem, [Unpack(t)] + suffix, ws)
    {
      SpelledFits(sem, t, k, suffix, ws);
      UnpackFits(sem, t, suffix, ws);
    }
    UnderPrefix(sem, prefix, Spelled(t, k) + suffix, [Unpack(t)] + suffix, vs);
  }

  lemma SpelledThenUnpack<T, V(!new)>(sem: Meaning<T, V>, prefix: seq<Item<T>>, t: T, k: nat, suffix: seq<Item<T>>,
      vs: seq<V>)
    requires Fits(sem, prefix + (Spelled(t, k) + ([Unpack(t)] + suffix)), vs)
    ensures Fits(sem, prefix + ([Unpack(t)] + suffix), vs)
  {
    var more := Spelled(t, k) + ([Unpack(t)] + suffix);
    forall ws: seq<V> | Fits(sem, more, ws)
      ensures Fits(sem, [Unpack(t)] + suffix, ws)
    {
      SpelledFits(sem, t, k, [Unpack(t)] + suffix, ws);
      UnpackFits(sem, t, suffix, ws[k..]);
      var n: nat :| n <= |ws[k..]| && AllFit(sem, t, ws[k..][..n]) && Fits(sem, suffix, ws[k..][n..]);
      assert ws[..k + n] == ws[..k] + ws[k..][..n] && ws[k..][n..] == ws[k + n..];
      UnpackFits(sem, t, suffix, ws);
    }
    UnderPrefix(sem, prefix, more, [Unpack(t)] + suffix, vs);
  }

  /** Whatever matches an unpacked run matches some spelled-out one. */
  lemma {:induction false} UnpackIsSpelled<T, V>(sem: Meaning<T, V>, prefix: seq<Item<T>>, t: T, suffix: seq<Item<T>>,
      vs: seq<V>) returns (k: nat)
    requires Fits(sem, prefix + ([Unpack(t)] + suffix), vs)
    ensures Fits(sem, prefix + (Spelled(t, k) + suffix), vs)
    decreases |prefix|
  {
    var a := [Unpack(t)] + suffix;
    if prefix == [] {
      assert prefix + a == a;
      k := FirstTakes(sem, a, vs);
      assert a[1..] == suffix;
      SpelledFits(sem, t, k, suffix, vs);
      assert prefix + (Spelled(t, k) + suffix) == Spelled(t, k) + suffix;
    } else {
      assert (prefix + a)[1..] == prefix[1..] + a;
      var n := FirstTakes(sem, prefix + a, vs);
      k := UnpackIsSpelled(sem, prefix[1..], t, suffix, vs[n..]);
      var b := Spelled(t, k) + suffix;
      assert (prefix + b)[1..] == prefix[1..] + b;
      TakesThenFits(sem, prefix + b, vs, n);
    }
  }

  lemma SplitRun<T, V>(sem: Meaning<T, V>, t: T, ws: seq<V>, k: nat, n: nat)
    requires k <= n <= |ws| && AllFit(sem, t, ws[..n])
    ensures AllFit(sem, t, ws[..k]) && AllFit(sem, t, ws[k..][..n - k]) && ws[k..][n - k..] == ws[n..]
  {
    var middle := ws[k..][..n - k];
    forall j | 0 <= j < |middle|
      ensures sem.elem(t, middle[j])
    {
      assert middle[j] == ws[..n][k + j];
    }
    forall j | 0 <= j < k
      ensures sem.elem(t, ws[..k][j])
    {
      assert ws[..k][j] == ws[..n][j];
    }
  }

  /** A long enough spelled-out run matches a shorter one followed by an unpacked run. */
  lemma LongSpelled<T, V(!new)>(sem: Meaning<T, V>, prefix: seq<Item<T>>, t: T, n: nat, k: nat, suffix: seq<Item<T>>,
      vs: seq<V>)
    requires k <= n && Fits(sem, prefix + (Spelled(t, n) + suffix), vs)
    ensures Fits(sem, prefix + (Spelled(t, k) + ([Unpack(t)] + suffix)), vs)
  {
    var more := Spelled(t, k) + ([Unpack(t)] + suffix);
    forall ws: seq<V> | Fits(sem, Spelled(t, n) + suffix, ws)
      ensures Fits(sem, more, ws)
    {
      SpelledFits(sem, t, n, suffix, ws);
      SplitRun(sem, t, ws, k, n);
      UnpackFits(sem, t, suffix, ws[k..]);
      SpelledFits(sem, t, k, [Unpack(t)] + suffix, ws);
    }
    UnderPrefix(sem, prefix, Spelled(t, n) + suffix, more, vs);
  }

  // Collapsing.

  /** What is recognised: tuples with a common prefix and suffix and ever longer runs, and other members. */
  datatype Shape<T> = Shape(prefix: seq<Item<T>>, arg: T, suffix: seq<Item<T>>, tuples: seq<seq<Item<T>>>,
      others: seq<Ty<T>>)

  function TupleItems<T>(union: seq<Ty<T>>): seq<seq<Item<T>>> {
    if union == [] then []
    else (if union[0].Tuple? then [union[0].items] else []) + TupleItems(union[1..])
  }

  function OtherItems<T>(union: seq<Ty<T>>): seq<Ty<T>> {
    if union == [] then []
    else (if union[0].Tuple? then [] else [union[0]]) + OtherItems(union[1..])
  }

  /** The tuple members in some order, and the other members. */
  ghost predicate Splits<T>(union: seq<Ty<T>>, tuples: seq<seq<Item<T>>>, others: seq<Ty<T>>) {
    multiset(tuples) == multiset(TupleItems(union)) && others == OtherItems(union)
  }

  lemma {:induction false} SplitMembers<T(!new)>(union: seq<Ty<T>>)
    ensures |TupleItems(union)| + |OtherItems(union)| == |union|
    ensures forall ty :: ty in union <==> (ty.Tuple? && ty.items in TupleItems(union)) || ty in OtherItems(union)
    ensures forall ty | ty in OtherItems(union) :: !ty.Tuple?
  {
    if union != [] {
      SplitMembers(union[1..]);
      assert union == [union[0]] + union[1..];
    }
  }

  lemma SplitsMembers<T(!new)>(union: seq<Ty<T>>, tuples: seq<seq<Item<T>>>, others: seq<Ty<T>>)
    requires Splits(union, tuples, others)
    ensures |tuples| + |others| == |union|
    ensures forall ty :: ty in union <==> (ty.Tuple? && ty.items in tuples) || ty in others
  {
    SplitMembers(union);
    assert |multiset(tuples)| == |tuples| && |multiset(TupleItems(union))| == |TupleItems(union)|;
    forall items
      ensures items in tuples <==> items in TupleItems(union)
    {
      assert items in tuples <==> items in multiset(tuples);
      assert items in TupleItems(union) <==> items in multiset(TupleItems(union));
    }
  }

  function Simplified<T>(shape: Shape<T>): Ty<T> {
    if shape.prefix == [] && shape.suffix == [] then Homogeneous(shape.arg)
    else Tuple(shape.prefix + ([Unpack(shape.arg)] + shape.suffix))
  }

  /**
   * The sorted tuples list runs of every length from none up, and end with an unpacked run that is
   * preceded by one spelled-out item less than the union has members.
   */
  ghost predicate Lists<T>(members: nat, tuples: seq<seq<Item<T>>>, prefix: seq<Item<T>>, arg: T,
      suffix: seq<Item<T>>) {
    var n := |tuples|;
    && 2 <= n <= members
    && (forall i {:trigger tuples[i]} | 0 <= i < n - 1 :: tuples[i] == prefix + (Spelled(arg, i) + suffix))
    && tuples[n - 1] == prefix + (Spelled(arg, members - 1) + ([Unpack(arg)] + suffix))
  }

  /** The union collapses by way of this shape. */
  ghost predicate Collapses<T>(union: seq<Ty<T>>, shape: Shape<T>) {
    Splits(union, shape.tuples, shape.others) && Lists(|union|, shape.tuples, shape.prefix, shape.arg, shape.suffix)
  }

  function Collapsed<T>(shape: Shape<T>): seq<Ty<T>> {
    [Simplified(shape)] + shape.others
  }

  lemma SimplifiedDenotes<T, V>(sem: Meaning<T, V>, shape: Shape<T>, v: Value<V>)
    ensures Denotes(sem, Simplified(shape), v)
            <==> v.TupleValue? && Fits(sem, shape.prefix + ([Unpack(shape.arg)] + shape.suffix), v.elems)
  {
    if shape.prefix == [] && shape.suffix == [] {
      var items := [Unpack(shape.arg)] + [];
      assert shape.prefix + ([Unpack(shape.arg)] + shape.suffix) == items;
      if v.TupleValue? {
        UnpackFits(sem, shape.arg, [], v.elems);
        assert v.elems[..|v.elems|] == v.elems;
        forall n: nat | n <= |v.elems| && Fits(sem, [], v.elems[n..])
          ensures n == |v.elems|
        {
        }
      }
    }
  }

  /** Each tuple of the union is covered by the simplified one. */
  lemma TupleCovered<T(!new), V(!new)>(sem: Meaning<T, V>, union: seq<Ty<T>>, shape: Shape<T>, i: nat, v: Value<V>)
    requires Collapses(union, shape) && i < |shape.tuples| && v.TupleValue? && Fits(sem, shape.tuples[i], v.elems)
    ensures Fits(sem, shape.prefix + ([Unpack(shape.arg)] + shape.suffix), v.elems)
  {
    if i < |shape.tuples| - 1 {
      SpelledIsUnpack(sem, shape.prefix, shape.arg, i, shape.suffix, v.elems);
    } else {
      SpelledThenUnpack(sem, shape.prefix, shape.arg, |union| - 1, shape.suffix, v.elems);
    }
  }

  /** Collapsing never loses a value. */
  lemma CollapseWider<T(!new), V(!new)>(sem: Meaning<T, V>, union: seq<Ty<T>>, shape: Shape<T>, v: Value<V>)
    requires Collapses(union, shape) && UnionDenotes(sem, union, v)
    ensures UnionDenotes(sem, Collapsed(shape), v)
  {
    var j :| 0 <= j < |union| && Denotes(sem, union[j], v);
    SplitsMembers(union, shape.tuples, shape.others);
    assert union[j] in union;
    SimplifiedDenotes(sem, shape, v);
    if union[j] in shape.others {
      var k :| 0 <= k < |shape.others| && shape.others[k] == union[j];
      assert Collapsed(shape)[k + 1] == union[j];
    } else {
      var i :| 0 <= i < |shape.tuples| && shape.tuples[i] == union[j].items;
      TupleCovered(sem, union, shape, i, v);
      assert Denotes(sem, Collapsed(shape)[0], v);
    }
  }

  /** Lengths of the run that no tuple of the union lists: there are as many as other members. */
  ghost predicate InGap<T, V>(sem: Meaning<T, V>, union: seq<Ty<T>>, shape: Shape<T>, v: Value<V>) {
    && v.TupleValue?
    && exists k: nat ::
       |shape.tuples| - 1 <= k < |union| - 1
           && Fits(sem, shape.prefix + (Spelled(shape.arg, k) + shape.suffix), v.elems)
  }

  /** A value gained by collapsing belongs to the gap. */
  lemma GainedInGap<T(!new), V(!new)>(sem: Meaning<T, V>, union: seq<Ty<T>>, shape: Shape<T>, v: Value<V>)
    requires Collapses(union, shape) && UnionDenotes(sem, Collapsed(shape), v) && !UnionDenotes(sem, union, v)
    ensures InGap(sem, union, shape, v)
  {
    SplitsMembers(union, shape.tuples, shape.others);
    var r := Collapsed(shape);
    var j :| 0 <= j < |r| && Denotes(sem, r[j], v);
    if j > 0 {
      OtherMember(sem, union, shape, j - 1, v);
    } else {
      SimplifiedDenotes(sem, shape, v);
      TupleOrGap(sem, union, shape, v);
    }
  }

  /** A value of the simplified tuple is in one of the tuples, or in the gap. */
  lemma TupleOrGap<T(!new), V(!new)>(sem: Meaning<T, V>, union: seq<Ty<T>>, shape: Shape<T>, v: Value<V>)
    requires Collapses(union, shape) && v.TupleValue?
    requires Fits(sem, shape.prefix + ([Unpack(shape.arg)] + shape.suffix), v.elems)
    ensures UnionDenotes(sem, union, v) || InGap(sem, union, shape, v)
  {
    var k := UnpackIsSpelled(sem, shape.prefix, shape.arg, shape.suffix, v.elems);
    if k < |shape.tuples| - 1 {
      TupleMember(sem, union, shape, k, v);
    } else if k >= |union| - 1 {
      LongSpelled(sem, shape.prefix, shape.arg, k, |union| - 1, shape.suffix, v.elems);
      TupleMember(sem, union, shape, |shape.tuples| - 1, v);
    }
  }

  lemma OtherMember<T(!new), V>(sem: Meaning<T, V>, union: seq<Ty<T>>, shape: Shape<T>, k: nat, v: Value<V>)
    requires Splits(union, shape.tuples, shape.others) && k < |shape.others| && Denotes(sem, shape.others[k], v)
    ensures UnionDenotes(sem, union, v)
  {
    SplitsMembers(union, shape.tuples, shape.others);
    assert shape.others[k] in union;
    var i :| 0 <= i < |union| && union[i] == shape.others[k];
    assert Denotes(sem, union[i], v);
  }

  lemma TupleMember<T(!new), V>(sem: Meaning<T, V>, union: seq<Ty<T>>, shape: Shape<T>, k: nat, v: Value<V>)
    requires Splits(union, shape.tuples, shape.others) && k < |shape.tuples|
    requires v.TupleValue? && Fits(sem, shape.tuples[k], v.elems)
    ensures UnionDenotes(sem, union, v)
  {
    SplitsMembers(union, shape.tuples, shape.others);
    assert shape.tuples[k] in shape.tuples;
    assert Tuple(shape.tuples[k]) in union;
    var i :| 0 <= i < |union| && union[i] == Tuple(shape.tuples[k]);
    assert Denotes(sem, union[i], v);
  }

  /** Collapsing keeps the meaning exactly if every value in the gap is in the union anyway. */
  lemma CollapseExactIff<T(!new), V(!new)>(sem: Meaning<T, V>, union: seq<Ty<T>>, shape: Shape<T>)
    requires Collapses(union, shape)
    ensures (forall v: Value<V> :: UnionDenotes(sem, Collapsed(shape), v) <==> UnionDenotes(sem, union, v))
            <==> forall v: Value<V> | InGap(sem, union, shape, v) :: UnionDenotes(sem, union, v)
  {
    forall v: Value<V> | UnionDenotes(sem, union, v)
      ensures UnionDenotes(sem, Collapsed(shape), v)
    {
      CollapseWider(sem, union, shape, v);
    }
    forall v: Value<V> | UnionDenotes(sem, Collapsed(shape), v) && !UnionDenotes(sem, union, v)
      ensures InGap(sem, union, shape, v)
    {
      GainedInGap(sem, union, shape, v);
    }
    forall v: Value<V> | InGap(sem, union, shape, v)
      ensures UnionDenotes(sem, Collapsed(shape), v)
    {
      var k: nat :| |shape.tuples| - 1 <= k < |union| - 1
          && Fits(sem, shape.prefix + (Spelled(shape.arg, k) + shape.suffix), v.elems);
      SpelledIsUnpack(sem, shape.prefix, shape.arg, k, shape.suffix, v.elems);
      SimplifiedDenotes(sem, shape, v);
      assert Denotes(sem, Collapsed(shape)[0], v);
    }
  }

  // Which members can hold a value in the gap.

  predicate AllPlain<T>(items: seq<Item<T>>) {
    forall i | 0 <= i < |items| :: items[i].Plain?
  }

  lemma PlainAround<T(!new)>(union: seq<Ty<T>>, shape: Shape<T>)
    requires Collapses(union, shape) && WellFormed(shape.tuples[|shape.tuples| - 1])
    ensures AllPlain(shape.prefix) && AllPlain(shape.suffix)
  {
    var last := shape.tuples[|shape.tuples| - 1];
    var u := |shape.prefix| + |union| - 1;
    assert last[u] == Unpack(shape.arg);
    forall i | 0 <= i < |shape.prefix|
      ensures shape.prefix[i].Plain?
    {
      assert last[i] == shape.prefix[i];
    }
    forall i | 0 <= i < |shape.suffix|
      ensures shape.suffix[i].Plain?
    {
      assert last[u + 1 + i] == shape.suffix[i];
    }
  }

  lemma {:induction false} PlainFits<T, V>(sem: Meaning<T, V>, plain: seq<Item<T>>, rest: seq<Item<T>>, vs: seq<V>)
    requires AllPlain(plain) && Fits(sem, plain + rest, vs)
    ensures |plain| <= |vs| && Fits(sem, rest, vs[|plain|..])
    decreases |plain|
  {
    if plain == [] {
      assert plain + rest == rest && vs[0..] == vs;
    } else {
      assert (plain + rest)[1..] == plain[1..] + rest;
      PlainFits(sem, plain[1..], rest, vs[1..]);
      assert vs[1..][|plain| - 1..] == vs[|plain|..];
    }
  }

  /** A spelled-out tuple has one length only. */
  lemma SpelledLength<T, V>(sem: Meaning<T, V>, prefix: seq<Item<T>>, t: T, k: nat, suffix: seq<Item<T>>, vs: seq<V>)
    requires AllPlain(prefix) && AllPlain(suffix) && Fits(sem, prefix + (Spelled(t, k) + suffix), vs)
    ensures |vs| == |prefix| + k + |suffix|
  {
    PlainFits(sem, prefix, Spelled(t, k) + suffix, vs);
    PlainFits(sem, Spelled(t, k), suffix, vs[|prefix|..]);
    assert suffix + [] == suffix;
    PlainFits(sem, suffix, [], vs[|prefix|..][k..]);
  }

  lemma UnpackLength<T, V>(sem: Meaning<T, V>, prefix: seq<Item<T>>, t: T, k: nat, suffix: seq<Item<T>>, vs: seq<V>)
    requires AllPlain(prefix) && AllPlain(suffix) && Fits(sem, prefix + (Spelled(t, k) + ([Unpack(t)] + suffix)), vs)
    ensures |vs| >= |prefix| + k + |suffix|
  {
    PlainFits(sem, prefix, Spelled(t, k) + ([Unpack(t)] + suffix), vs);
    PlainFits(sem, Spelled(t, k), [Unpack(t)] + suffix, vs[|prefix|..]);
    UnpackFits(sem, t, suffix, vs[|prefix|..][k..]);
    var n: nat :| n <= |vs| - |prefix| - k && Fits(sem, suffix, vs[|prefix|..][k..][n..]);
    assert suffix + [] == suffix;
    PlainFits(sem, suffix, [], vs[|prefix|..][k..][n..]);
  }

  /** No tuple of the union has a length in the gap. */
  lemma GapNotInTuples<T(!new), V(!new)>(sem: Meaning<T, V>, union: seq<Ty<T>>, shape: Shape<T>, v: Value<V>, i: nat)
    requires Collapses(union, shape) && WellFormed(shape.tuples[|shape.tuples| - 1]) && InGap(sem, union, shape, v)
    requires i < |shape.tuples|
    ensures !Fits(sem, shape.tuples[i], v.elems)
  {
    var n := |shape.tuples|;
    var k: nat :| n - 1 <= k < |union| - 1 && Fits(sem, shape.prefix + (Spelled(shape.arg, k) + shape.suffix), v.elems);
    PlainAround(union, shape);
    SpelledLength(sem, shape.prefix, shape.arg, k, shape.suffix, v.elems);
    if Fits(sem, shape.tuples[i], v.elems) {
      if i < n - 1 {
        SpelledLength(sem, shape.prefix, shape.arg, i, shape.suffix, v.elems);
      } else {
        UnpackLength(sem, shape.prefix, shape.arg, |union| - 1, shape.suffix, v.elems);
      }
    }
  }

  /** Only another member of the union can hold a value in the gap. */
  lemma GapInOthers<T(!new), V(!new)>(sem: Meaning<T, V>, union: seq<Ty<T>>, shape: Shape<T>, v: Value<V>)
    requires Collapses(union, shape) && WellFormed(shape.tuples[|shape.tuples| - 1]) && InGap(sem, union, shape, v)
    ensures UnionDenotes(sem, union, v) <==> UnionDenotes(sem, shape.others, v)
  {
    SplitsMembers(union, shape.tuples, shape.others);
    if j :| 0 <= j < |union| && Denotes(sem, union[j], v) {
      assert union[j] in union;
      if union[j].Tuple? && union[j].items in shape.tuples {
        var i :| 0 <= i < |shape.tuples| && shape.tuples[i] == union[j].items;
        GapNotInTuples(sem, union, shape, v, i);
      } else {
        var k :| 0 <= k < |shape.others| && shape.others[k] == union[j];
        assert Denotes(sem, shape.others[k], v);
      }
    }
    if k :| 0 <= k < |shape.others| && Denotes(sem, shape.others[k], v) {
      OtherMember(sem, union, shape, k, v);
    }
  }

  /**
   * Collapsing keeps the meaning exactly if the members that are not tuples hold every tuple of a
   * length in the gap. The gap has as many lengths as there are such members.
   */
  lemma CollapseExactByOthers<T(!new), V(!new)>(sem: Meaning<T, V>, union: seq<Ty<T>>, shape: Shape<T>)
    requires Collapses(union, shape) && WellFormed(shape.tuples[|shape.tuples| - 1])
    ensures (forall v: Value<V> :: UnionDenotes(sem, Collapsed(shape), v) <==> UnionDenotes(sem, union, v))
            <==> forall v: Value<V> | InGap(sem, union, shape, v) :: UnionDenotes(sem, shape.others, v)
  {
    CollapseExactIff(sem, union, shape);
    forall v: Value<V> | InGap(sem, union, shape, v)
      ensures UnionDenotes(sem, union, v) <==> UnionDenotes(sem, shape.others, v)
    {
      GapInOthers(sem, union, shape, v);
    }
  }

  lemma {:induction false} OnlyTuples<T(!new)>(union: seq<Ty<T>>)
    requires forall ty | ty in union :: ty.Tuple?
    ensures OtherItems(union) == []
  {
    if union != [] {
      assert union[0] in union;
      OnlyTuples(union[1..]);
    }
  }

  /** When all members are tuples there is no gap, and nothing is gained or lost. */
  lemma TuplesCollapseExactly<T(!new), V(!new)>(sem: Meaning<T, V>, union: seq<Ty<T>>, shape: Shape<T>, v: Value<V>)
    requires Collapses(union, shape) && forall ty | ty in union :: ty.Tuple?
    ensures UnionDenotes(sem, Collapsed(shape), v) <==> UnionDenotes(sem, union, v)
  {
    SplitMembers(union);
    SplitsMembers(union, shape.tuples, shape.others);
    OnlyTuples(union);
    if UnionDenotes(sem, union, v) {
      CollapseWider(sem, union, shape, v);
    }
    if UnionDenotes(sem, Collapsed(shape), v) && !UnionDenotes(sem, union, v) {
      GainedInGap(sem, union, shape, v);
    }
  }

  /** tuple[()] | tuple[int, int, *tuple[int, ...]] | None; the element type is written as true. */
  function Gapped(): seq<Ty<bool>> {
    [Tuple([]), Tuple([Plain(true), Plain(true), Unpack(true)]), Other(false)]
  }

  /** The union collapses because None counts as a member, and gains every tuple of one element. */
  lemma CollapseGainsOneTuple(sem: Meaning<bool, int>, x: int)
    requires sem.elem(true, x) && !sem.other(false, TupleValue([x]))
    ensures var shape := Shape([], true, [], [[], [Plain(true), Plain(true), Unpack(true)]], [Other(false)]);
            && Collapses(Gapped(), shape)
            && UnionDenotes(sem, Collapsed(shape), TupleValue([x]))
            && !UnionDenotes(sem, Gapped(), TupleValue([x]))
  {
    GappedSplits();
    GappedLists();
    var shape := Shape([], true, [], [[], [Plain(true), Plain(true), Unpack(true)]], [Other(false)]);
    assert Denotes(sem, Collapsed(shape)[0], TupleValue([x]));
    GappedLacks(sem, x);
  }

  lemma GappedLacks(sem: Meaning<bool, int>, x: int)
    requires !sem.other(false, TupleValue([x]))
    ensures !UnionDenotes(sem, Gapped(), TupleValue([x]))
  {
    var last := [Plain(true), Plain(true), Unpack(true)];
    assert !Fits(sem, last[1..], [x][1..]);
    assert !Denotes(sem, Gapped()[1], TupleValue([x]));
    assert !Denotes(sem, Gapped()[0], TupleValue([x]));
  }

  lemma GappedSplits()
    ensures Splits(Gapped(), [[], [Plain(true), Plain(true), Unpack(true)]], [Other(false)])
  {
    var first, last, other := Tuple([]), Tuple([Plain(true), Plain(true), Unpack(true)]), Other(false);
    assert Gapped() == [first, last, other];
    assert [first, last, other][1..] == [last, other] && [last, other][1..] == [other] && [other][1..] == [];
    assert TupleItems([other]) == [] && OtherItems([other]) == [other];
    assert TupleItems([last, other]) == [last.items] && OtherItems([last, other]) == [other];
  }

  lemma GappedLists()
    ensures Lists(3, [[], [Plain(true), Plain(true), Unpack(true)]], [], true, [])
  {
    assert Spelled(true, 2) == [Plain(true), Plain(true)];
    assert [] + (Spelled(true, 2) + ([Unpack(true)] + [])) == [Plain(true), Plain(true), Unpack(true)];
    assert [] + (Spelled(true, 0) + []) == [];
  }

  // The algorithm.

  ghost predicate ByLength<T>(ts: seq<seq<Item<T>>>) {
    forall i, j | 0 <= i < j < |ts| :: |ts[i]| <= |ts[j]|
  }

  /** Inserts behind everything that is at most as long. */
  function InsertByLength<T>(ts: seq<seq<Item<T>>>, x: seq<Item<T>>): (r: seq<seq<Item<T>>>)
    ensures multiset(r) == multiset(ts) + multiset{x}
  {
    if ts == [] || |x| < |ts[0]| then [x] + ts
    else
      assert ts == [ts[0]] + ts[1..];
      [ts[0]] + InsertByLength(ts[1..], x)
  }

  lemma {:induction false} InsertKeepsOrder<T>(ts: seq<seq<Item<T>>>, x: seq<Item<T>>)
    requires ByLength(ts)
    ensures ByLength(InsertByLength(ts, x))
    ensures forall y | y in InsertByLength(ts, x) :: y == x || y in ts
  {
    if ts != [] && |x| >= |ts[0]| {
      InsertKeepsOrder(ts[1..], x);
      forall y | y in ts[1..]
        ensures |ts[0]| <= |y|
      {
        var j :| 0 <= j < |ts[1..]| && ts[1..][j] == y;
        assert ts[j + 1] == y;
      }
    }
  }

  /** `sorted` by length, which keeps the order of tuples of equal length. */
  method SortByLength<T>(ts: seq<seq<Item<T>>>) returns (r: seq<seq<Item<T>>>)
    ensures ByLength(r) && multiset(r) == multiset(ts)
  {
    r := [];
    for k := 0 to |ts|
      invariant ByLength(r) && multiset(r) == multiset(ts[..k])
    {
      assert ts[..k + 1] == ts[..k] + [ts[k]];
      InsertKeepsOrder(r, ts[k]);
      r := InsertByLength(r, ts[k]);
    }
    assert ts[..|ts|] == ts;
  }

  ghost predicate StrictlyByLength<T>(ts: seq<seq<Item<T>>>) {
    forall i, j | 0 <= i < j < |ts| :: |ts[i]| < |ts[j]|
  }

  lemma ListsByLength<T>(members: nat, tuples: seq<seq<Item<T>>>, prefix: seq<Item<T>>, arg: T, suffix: seq<Item<T>>)
    requires Lists(members, tuples, prefix, arg, suffix)
    ensures StrictlyByLength(tuples)
  {
    forall i, j | 0 <= i < j < |tuples|
      ensures |tuples[i]| < |tuples[j]|
    {
      assert |tuples[i]| == |prefix| + i + |suffix|;
    }
  }

  lemma LastSame<T>(a: seq<seq<Item<T>>>, b: seq<seq<Item<T>>>)
    requires multiset(a) == multiset(b) && ByLength(b) && StrictlyByLength(a) && a != [] && b != []
    ensures a[|a| - 1] == b[|b| - 1]
  {
    var x, y := a[|a| - 1], b[|b| - 1];
    assert x in multiset(a) && y in multiset(b);
    var j :| 0 <= j < |b| && b[j] == x;
    var i :| 0 <= i < |a| && a[i] == y;
  }

  lemma {:induction false} SameOrder<T>(a: seq<seq<Item<T>>>, b: seq<seq<Item<T>>>)
    requires multiset(a) == multiset(b) && ByLength(b) && StrictlyByLength(a)
    ensures a == b
    decreases |a|
  {
    assert |multiset(a)| == |a| && |multiset(b)| == |b|;
    if a != [] {
      LastSame(a, b);
      WithoutLast(a);
      WithoutLast(b);
      SameOrder(a[..|a| - 1], b[..|b| - 1]);
      assert a == a[..|a| - 1] + [a[|a| - 1]];
    }
  }

  lemma WithoutLast<T>(a: seq<T>)
    requires a != []
    ensures multiset(a[..|a| - 1]) == multiset(a) - multiset{a[|a| - 1]}
    ensures a == a[..|a| - 1] + [a[|a| - 1]]
  {
    assert a == a[..|a| - 1] + [a[|a| - 1]];
  }

  /** The pieces of a shape can be read off its first and last tuple. */
  lemma PiecesForced<T(!new)>(members: nat, tuples: seq<seq<Item<T>>>, prefix: seq<Item<T>>, arg: T,
      suffix: seq<Item<T>>)
    requires Lists(members, tuples, prefix, arg, suffix) && WellFormed(tuples[|tuples| - 1])
    ensures tuples[0] == prefix + suffix
    ensures var last := tuples[|tuples| - 1]; var u := |prefix| + members - 1;
            u < |last| && FindUnpack(last) == Some(u) && last[u] == Unpack(arg) && last[u + 1..] == suffix
  {
    assert Spelled(arg, 0) + suffix == suffix;
    UnpackFound(prefix + Spelled(arg, members - 1), arg, suffix, tuples[|tuples| - 1]);
  }

  lemma UnpackFound<T(!new)>(before: seq<Item<T>>, arg: T, suffix: seq<Item<T>>, last: seq<Item<T>>)
    requires last == before + ([Unpack(arg)] + suffix) && WellFormed(last)
    ensures FindUnpack(last) == Some(|before|) && last[|before|] == Unpack(arg) && last[|before| + 1..] == suffix
  {
    var u := |before|;
    assert last[u] == Unpack(arg);
    var found := FindUnpack(last);
    assert found.Some?;
    assert found.value <= u;
  }

  /** What the first and last tuple say about any shape. */
  ghost predicate Pieces<T>(members: nat, first: seq<Item<T>>, last: seq<Item<T>>, p: seq<Item<T>>, t: T,
      s: seq<Item<T>>) {
    var u := |p| + members - 1;
    && first == p + s
    && 0 <= u < |last| && FindUnpack(last) == Some(u) && last[u] == Unpack(t) && last[u + 1..] == s
  }

  lemma AllPiecesForced<T(!new)>(members: nat, tuples: seq<seq<Item<T>>>)
    requires 2 <= |tuples| <= members && WellFormed(tuples[|tuples| - 1])
    ensures forall p, t, s | Lists(members, tuples, p, t, s) ::
            Pieces(members, tuples[0], tuples[|tuples| - 1], p, t, s)
  {
    forall p, t, s | Lists(members, tuples, p, t, s)
      ensures Pieces(members, tuples[0], tuples[|tuples| - 1], p, t, s)
    {
      PiecesForced(members, tuples, p, t, s);
    }
  }

  /** Every tuple but the last spells out one more item of the run than the one before it. */
  method MiddlesMatch<T(==,!new)>(tuples: seq<seq<Item<T>>>, prefix: seq<Item<T>>, arg: T, suffix: seq<Item<T>>)
    returns (ok: bool)
    requires 2 <= |tuples| && tuples[0] == prefix + suffix
    ensures ok <==> forall i {:trigger tuples[i]} | 0 <= i < |tuples| - 1 ::
            tuples[i] == prefix + (Spelled(arg, i) + suffix)
  {
    assert Spelled(arg, 0) + suffix == suffix;
    ok := false;
    for i := 1 to |tuples| - 1
      invariant forall j {:trigger tuples[j]} | 0 <= j < i :: tuples[j] == prefix + (Spelled(arg, j) + suffix)
    {
      if tuples[i] != prefix + (Spelled(arg, i) + suffix) {
        return;
      }
    }
    ok := true;
  }

  /** Looks for a common prefix, suffix and element type in sorted tuples. */
  method FindShape<T(==,!new)>(members: nat, tuples: seq<seq<Item<T>>>)
    returns (found: bool, prefix: seq<Item<T>>, arg: Option<T>, suffix: seq<Item<T>>)
    requires 2 <= |tuples| <= members && WellFormed(tuples[|tuples| - 1])
    ensures found ==> arg.Some? && Lists(members, tuples, prefix, arg.value, suffix)
    ensures !found ==> forall p, t, s :: !Lists(members, tuples, p, t, s)
  {
    found, prefix, arg, suffix := false, [], None, [];
    AllPiecesForced(members, tuples);
    var first, last := tuples[0], tuples[|tuples| - 1];
    var unpackIndex := FindUnpack(last);
    if unpackIndex.None? || !last[unpackIndex.value].Unpack? {
      return;
    }
    arg := Some(last[unpackIndex.value].middle);
    suffix := last[unpackIndex.value + 1..];
    if |first| < |suffix| || first[|first| - |suffix|..] != suffix {
      return;
    }
    prefix := first[..|first| - |suffix|];
    PiecesUnique(members, first, last, prefix, arg.value, suffix);
    var middles := MiddlesMatch(tuples, prefix, arg.value, suffix);
    found := middles && last == prefix + (Spelled(arg.value, members - 1) + ([Unpack(arg.value)] + suffix));
  }

  lemma PiecesUnique<T(!new)>(members: nat, first: seq<Item<T>>, last: seq<Item<T>>, prefix: seq<Item<T>>, arg: T,
      suffix: seq<Item<T>>)
    requires FindUnpack(last).Some? && last[FindUnpack(last).value] == Unpack(arg)
    requires suffix == last[FindUnpack(last).value + 1..] && |suffix| <= |first|
             && prefix == first[..|first| - |suffix|]
    ensures forall p, t, s | Pieces(members, first, last, p, t, s) :: p == prefix && t == arg && s == suffix
  {
  }

  /** Simplifies a union of tuples that differ in how much of a variadic run they spell out. */
  method CollapseVariadicUnion<T(==,!new)>(union: seq<Ty<T>>) returns (r: seq<Ty<T>>, ghost shape: Option<Shape<T>>)
    requires forall ty | ty in union :: ty.Tuple? ==> WellFormed(ty.items)
    ensures shape.Some? ==> Collapses(union, shape.value) && r == Collapsed(shape.value)
    ensures shape.None? ==> r == union && forall sh :: !Collapses(union, sh)
  {
    r, shape := union, None;
    SplitMembers(union);
    forall sh | Collapses(union, sh)
      ensures |sh.tuples| == |TupleItems(union)|
    {
      assert |multiset(sh.tuples)| == |multiset(TupleItems(union))|;
    }
    if |TupleItems(union)| <= 1 {
      return;
    }
    var tuples := SortByLength(TupleItems(union));
    SortedTuples(union, tuples);
    var found, prefix, arg, suffix := FindShape(|union|, tuples);
    if !found {
      return;
    }
    shape := Some(Shape(prefix, arg.value, suffix, tuples, OtherItems(union)));
    r := [if tuples[0] == [] then Homogeneous(arg.value) else Tuple(prefix + ([Unpack(arg.value)] + suffix))]
        + OtherItems(union);
    PiecesForced(|union|, tuples, prefix, arg.value, suffix);
  }

  /** Any shape of the union has its tuples sorted the same way. */
  lemma SortedTuples<T(!new)>(union: seq<Ty<T>>, tuples: seq<seq<Item<T>>>)
    requires multiset(tuples) == multiset(TupleItems(union)) && ByLength(tuples) && |TupleItems(union)| >= 2
    requires forall ty | ty in union :: ty.Tuple? ==> WellFormed(ty.items)
    ensures forall sh | Collapses(union, sh) :: sh.tuples == tuples
    ensures 2 <= |tuples| <= |union| && WellFormed(tuples[|tuples| - 1])
  {
    SplitsMembers(union, tuples, OtherItems(union));
    assert tuples[|tuples| - 1] in tuples;
    assert |multiset(tuples)| == |multiset(TupleItems(union))|;
    assert Tuple(tuples[|tuples| - 1]) in union;
    forall sh | Collapses(union, sh)
      ensures sh.tuples == tuples
    {
      ListsByLength(|union|, sh.tuples, sh.prefix, sh.arg, sh.suffix);
      SameOrder(sh.tuples, tuples);
    }
  }
}
