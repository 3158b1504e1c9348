// Tuple types with at most one variadic item: which element types an index can give, and collapsing
// a union of tuple types into one variadic tuple.
module TupleTypes {
  import opened Text

  /**
   * A fixed item, an unpacked run of any number of items of one type, or an unpacked type variable
   * for at least some number of items below a bound.
   */
  datatype Item<+T> = Plain(typ: T) | Unpack(middle: T) | UnpackVar(id: nat, middle: T, atLeast: nat)

  function MinLen<T>(item: Item<T>): nat {
    if item.UnpackVar? then item.atLeast else 0
  }

  /** The position of the unpacked item. */
  function FindUnpack<T>(items: seq<Item<T>>): (r: Option<nat>)
    ensures r.Some? ==> r.value < |items| && !items[r.value].Plain? && forall j | 0 <= j < r.value :: items[j].Plain?
    ensures r.None? ==> forall j | 0 <= j < |items| :: items[j].Plain?
  {
    if items == [] then None
    else if !items[0].Plain? then Some(0)
    else
      var rest := FindUnpack(items[1..]);
      if rest.Some? then Some(rest.value + 1) else None
  }

  /** Earlier phases make sure that a tuple has at most one unpacked item. */
  ghost predicate WellFormed<T>(items: seq<Item<T>>) {
    forall i, j | 0 <= i < j < |items| :: items[i].Plain? || items[j].Plain?
  }

  function TypesOf<T>(items: seq<Item<T>>): seq<T>
    requires forall j | 0 <= j < |items| :: items[j].Plain?
  {
    seq(|items|, j requires 0 <= j < |items| => items[j].typ)
  }

  function MinTupleLength<T>(items: seq<Item<T>>): nat {
    match FindUnpack(items)
    case None => |items|
    case Some(u) => |items| - 1 + MinLen(items[u])
  }

  function Max(a: int, b: int): int {
    if a < b then b else a
  }

  function Min(a: int, b: int): int {
    if a < b then a else b
  }

  /** The members of the union that indexing gives, or none if the index may be out of range. */
  function IndexTypes<T>(items: seq<Item<T>>, n: int): Option<seq<T>>
    requires WellFormed(items)
  {
    match FindUnpack(items)
    case None =>
      var i := if n < 0 then n + |items| else n;
      if 0 <= i < |items| then Some([items[i].typ]) else None
    case Some(u) =>
      var middle := items[u].middle;
      var extraItems := MinTupleLength(items) - |items| + 1;
      if n >= 0 then
        if n >= MinTupleLength(items) then None
        else if n < u then Some([items[n].typ])
        else Some([middle] + TypesOf(items[u + 1..Max(n - extraItems + 2, u + 1)]))
      else
        var i := n + MinTupleLength(items);
        if i < 0 then None
        else if i >= u + extraItems then Some([items[i - extraItems + 1].typ])
        else Some(TypesOf(items[Min(i, u)..u]) + [middle])
  }

  // What indexing means: every admissible length of the unpacked run is tried.

  ghost function Run<T>(t: T, n: nat): seq<T> {
    seq(n, i => t)
  }

  /** The item types when the run has k items. */
  ghost function Expanded<T>(items: seq<Item<T>>, k: nat): seq<T>
    requires WellFormed(items)
  {
    match FindUnpack(items)
    case None => TypesOf(items)
    case Some(u) => TypesOf(items[..u]) + Run(items[u].middle, k) + TypesOf(items[u + 1..])
  }

  ghost predicate Admissible<T>(items: seq<Item<T>>, k: nat) {
    match FindUnpack(items)
    case None => true
    case Some(u) => k >= MinLen(items[u])
  }

  /** Subscription of a sequence in Python. */
  ghost function Subscript<T>(s: seq<T>, n: int): Option<T> {
    var i := if n < 0 then n + |s| else n;
    if 0 <= i < |s| then Some(s[i]) else None
  }

  /** With k items in the run, which is admissible, subscription gives r. */
  ghost predicate Yields<T>(items: seq<Item<T>>, n: int, k: nat, r: Option<T>)
    requires WellFormed(items)
  {
    Admissible(items, k) && Subscript(Expanded(items, k), n) == r
  }

  /** The types that can occur at an index, over all admissible lengths. */
  ghost predicate CanGive<T>(items: seq<Item<T>>, n: int, t: T)
    requires WellFormed(items)
  {
    exists k: nat :: Yields(items, n, k, Some(t))
  }

  ghost predicate CanFail<T>(items: seq<Item<T>>, n: int)
    requires WellFormed(items)
  {
    exists k: nat :: Yields(items, n, k, None)
  }

  /**
   * Indexing is exact: it gives no type just when some admissible length makes the index out of
   * range, and otherwise the union of exactly the types that can occur there.
   */
  lemma IndexExact<T(!new)>(items: seq<Item<T>>, n: int)
    requires WellFormed(items)
    ensures IndexTypes(items, n).None? <==> CanFail(items, n)
    ensures IndexTypes(items, n).Some? ==> forall t :: t in IndexTypes(items, n).value <==> CanGive(items, n, t)
  {
    match FindUnpack(items)
    case None =>
      FixedIndex(items, n);
    case Some(u) =>
      GivesIff(items, u, n);
      if n >= 0 {
        FromStart(items, u, n);
      } else {
        FromEnd(items, u, n);
      }
  }

  lemma FixedIndex<T(!new)>(items: seq<Item<T>>, n: int)
    requires WellFormed(items) && FindUnpack(items).None?
    ensures IndexTypes(items, n).None? <==> CanFail(items, n)
    ensures IndexTypes(items, n).Some? ==> forall t :: t in IndexTypes(items, n).value <==> CanGive(items, n, t)
  {
    forall k: nat, r
      ensures Yields(items, n, k, r) <==> Subscript(TypesOf(items), n) == r
    {
    }
    forall t
      ensures CanGive(items, n, t) <==> Subscript(TypesOf(items), n) == Some(t)
    {
      assert Yields(items, n, 0, Some(t)) <==> Subscript(TypesOf(items), n) == Some(t);
    }
    assert Yields(items, n, 0, None) <==> Subscript(TypesOf(items), n) == None;
  }

  /** Where an index leads when the run has k items: n items from the start, */
  ghost function StartType<T>(items: seq<Item<T>>, u: nat, n: nat, k: nat): Option<T>
    requires WellFormed(items) && FindUnpack(items) == Some(u)
  {
    if n < u then Some(items[n].typ)
    else if n < u + k then Some(items[u].middle)
    else if n < k + |items| - 1 then Some(items[n - k + 1].typ)
    else None
  }

  /** or q items from the end. */
  ghost function EndType<T>(items: seq<Item<T>>, u: nat, q: nat, k: nat): Option<T>
    requires WellFormed(items) && FindUnpack(items) == Some(u) && q >= 1
  {
    if q < |items| - u then Some(items[|items| - q].typ)
    else if q < |items| - u + k then Some(items[u].middle)
    else if q <= |items| - 1 + k then Some(items[|items| - 1 + k - q].typ)
    else None
  }

  /** The same, read off the types before and after the run: n items from the start, */
  ghost function AtStart<T>(before: seq<T>, m: T, after: seq<T>, n: nat, k: nat): Option<T> {
    if n < |before| then Some(before[n])
    else if n < |before| + k then Some(m)
    else if n < |before| + k + |after| then Some(after[n - |before| - k])
    else None
  }

  /** or q items from the end. */
  ghost function AtEnd<T>(before: seq<T>, m: T, after: seq<T>, q: nat, k: nat): Option<T>
    requires q >= 1
  {
    if q <= |after| then Some(after[|after| - q])
    else if q <= |after| + k then Some(m)
    else if q <= |after| + k + |before| then Some(before[|after| + k + |before| - q])
    else None
  }

  lemma SubscriptRun<T>(before: seq<T>, m: T, after: seq<T>, n: int, k: nat)
    ensures Subscript(before + Run(m, k) + after, n) == if n >= 0 then AtStart(before, m, after, n, k)
            else AtEnd(before, m, after, -n, k)
  {
    var run := Run(m, k);
    var whole := before + run + after;
    assert |run| == k && |whole| == |before| + k + |after|;
    var i := if n < 0 then n + |whole| else n;
    if 0 <= i < |before| {
      assert whole[i] == before[i];
    } else if |before| <= i < |before| + k {
      assert whole[i] == run[i - |before|] == m;
    } else if |before| + k <= i < |whole| {
      assert whole[i] == after[i - |before| - k];
    }
  }

  lemma StartIs<T>(items: seq<Item<T>>, u: nat, n: nat, k: nat)
    requires WellFormed(items) && FindUnpack(items) == Some(u)
    ensures AtStart(TypesOf(items[..u]), items[u].middle, TypesOf(items[u + 1..]), n, k) == StartType(items, u, n, k)
  {
  }

  lemma EndIs<T>(items: seq<Item<T>>, u: nat, q: nat, k: nat)
    requires WellFormed(items) && FindUnpack(items) == Some(u) && q >= 1
    ensures AtEnd(TypesOf(items[..u]), items[u].middle, TypesOf(items[u + 1..]), q, k) == EndType(items, u, q, k)
  {
  }

  /** Index n gives t, or fails, for some admissible length. */
  ghost predicate Gives<T>(items: seq<Item<T>>, u: nat, n: int, k: nat, t: Option<T>)
    requires WellFormed(items) && FindUnpack(items) == Some(u)
  {
    k >= MinLen(items[u]) && t == if n >= 0 then StartType(items, u, n, k) else EndType(items, u, -n, k)
  }

  lemma GivesIff<T(!new)>(items: seq<Item<T>>, u: nat, n: int)
    requires WellFormed(items) && FindUnpack(items) == Some(u)
    ensures forall t :: CanGive(items, n, t) <==> exists k: nat :: Gives(items, u, n, k, Some(t))
    ensures CanFail(items, n) <==> exists k: nat :: Gives(items, u, n, k, None)
  {
    forall t
      ensures CanGive(items, n, t) <==> exists k: nat :: Gives(items, u, n, k, Some(t))
    {
      SomeLength(items, u, n, Some(t));
    }
    SomeLength(items, u, n, None);
  }

  lemma SomeLength<T(!new)>(items: seq<Item<T>>, u: nat, n: int, r: Option<T>)
    requires WellFormed(items) && FindUnpack(items) == Some(u)
    ensures (exists k: nat :: Yields(items, n, k, r)) <==> exists k: nat :: Gives(items, u, n, k, r)
  {
    forall k: nat
      ensures Yields(items, n, k, r) <==> Gives(items, u, n, k, r)
    {
      YieldsIff(items, u, n, k, r);
    }
    if exists k: nat :: Yields(items, n, k, r) {
      var k: nat :| Yields(items, n, k, r);
      assert Gives(items, u, n, k, r);
    }
    if exists k: nat :: Gives(items, u, n, k, r) {
      var k: nat :| Gives(items, u, n, k, r);
      assert Yields(items, n, k, r);
    }
  }

  lemma YieldsIff<T(!new)>(items: seq<Item<T>>, u: nat, n: int, k: nat, r: Option<T>)
    requires WellFormed(items) && FindUnpack(items) == Some(u)
    ensures Yields(items, n, k, r) <==> Gives(items, u, n, k, r)
  {
    SubscriptRun(TypesOf(items[..u]), items[u].middle, TypesOf(items[u + 1..]), n, k);
    if n >= 0 {
      StartIs(items, u, n, k);
    } else {
      EndIs(items, u, -n, k);
    }
  }

  lemma FromStart<T(!new)>(items: seq<Item<T>>, u: nat, n: nat)
    requires WellFormed(items) && FindUnpack(items) == Some(u)
    ensures IndexTypes(items, n).None? <==> exists k: nat :: Gives(items, u, n, k, None)
    ensures IndexTypes(items, n).Some? ==> forall t :: t in IndexTypes(items, n).value <==> exists k: nat ::
            Gives(items, u, n, k, Some(t))
  {
    var least := MinLen(items[u]);
    if n >= MinTupleLength(items) {
      assert Gives(items, u, n, least, None);
    } else if n < u {
      assert Gives(items, u, n, least, Some(items[n].typ));
    } else {
      var later := TypesOf(items[u + 1..Max(n - least + 2, u + 1)]);
      assert Gives(items, u, n, least + n + 1, Some(items[u].middle));
      forall j | 0 <= j < |later|
        ensures Gives(items, u, n, n - u - j, Some(later[j]))
      {
      }
      forall k: nat, t | Gives(items, u, n, k, Some(t))
        ensures t == items[u].middle || t in later
      {
        if n >= u + k {
          assert later[n - k - u] == items[n - k + 1].typ;
        }
      }
    }
  }

  lemma FromEnd<T(!new)>(items: seq<Item<T>>, u: nat, n: int)
    requires WellFormed(items) && FindUnpack(items) == Some(u) && n < 0
    ensures IndexTypes(items, n).None? <==> exists k: nat :: Gives(items, u, n, k, None)
    ensures IndexTypes(items, n).Some? ==> forall t :: t in IndexTypes(items, n).value <==> exists k: nat ::
            Gives(items, u, n, k, Some(t))
  {
    var least, i := MinLen(items[u]), n + MinTupleLength(items);
    if i < 0 {
      assert Gives(items, u, n, least, None);
    } else if i >= u + least {
      assert Gives(items, u, n, least, Some(items[i - least + 1].typ));
    } else {
      var start := Min(i, u);
      var earlier := TypesOf(items[start..u]);
      assert Gives(items, u, n, least - n, Some(items[u].middle));
      forall j | 0 <= j < |earlier|
        ensures Gives(items, u, n, start + j - n - |items| + 1, Some(earlier[j]))
      {
      }
      forall k: nat, t | Gives(items, u, n, k, Some(t))
        ensures t == items[u].middle || t in earlier
      {
        if -n >= |items| - u + k {
          assert earlier[|items| - 1 + k + n - start] == items[|items| - 1 + k + n].typ;
        }
      }
    }
  }
}
