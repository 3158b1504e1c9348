// Compressing cache data: a dictionary that occurs again is replaced by a reference to its first
// occurrence. Decompressing walks through the result in the same order.
module Compression {
  import opened Text

  /** JSON data; dictionaries have their keys in order of insertion. */
  datatype Chunk = Null | Leaf(text: Str) | Number(n: nat) | List(items: seq<Chunk>) | Dict(keys: seq<Str>,
      at: map<Str, Chunk>)

  /** ".id" and ".cache_id". */
  const ID: Str := [46, 105, 100]
  const CACHE_ID: Str := [46, 99, 97, 99, 104, 101, 95, 105, 100]

  /** A dictionary has neither of the two keys that compressing adds. */
  ghost predicate PlainDict(c: Chunk)
    requires c.Dict?
  {
    ToSet(c.keys) == c.at.Keys && ID !in c.at && CACHE_ID !in c.at
  }

  /** Plain all through, with all parts in u. */
  ghost predicate Plain(u: iset<Chunk>, c: Chunk) {
    && c in u
    && match c
       case List(items) => forall i {:trigger Plain(u, items[i])} | 0 <= i < |items| :: Plain(u, items[i])
       case Dict(keys, at) => PlainDict(c) && forall k {:trigger Plain(u, at[k])} | k in at :: Plain(u, at[k])
       case _ => true
  }

  /** The hash of the text of a chunk. */
  type Hash = Chunk -> int

  ghost predicate NoCollisions(hash: Hash, u: iset<Chunk>) {
    forall a, b {:trigger hash(a), hash(b)} | a in u && b in u && hash(a) == hash(b) :: a == b
  }

  function Reference(n: nat): Chunk {
    Dict([ID], map[ID := Number(n)])
  }

  /** The number in a reference. */
  function NumberIn(r: Chunk): nat {
    if r.Dict? && ID in r.at && r.at[ID].Number? then r.at[ID].n else 0
  }

  function WithId(c: Chunk, at: map<Str, Chunk>, n: nat): Chunk
    requires c.Dict?
  {
    Dict(c.keys + [CACHE_ID], at[CACHE_ID := Number(n)])
  }

  // Compressing.

  datatype Memo = Memo(cache: map<int, Chunk>, counter: nat)

  ghost function Compressed(hash: Hash, c: Chunk, s: Memo): (Chunk, Memo)
    decreases c, 1
  {
    if !c.Dict? || |c.keys| <= 2 then (c, s)
    else if hash(c) in s.cache then (s.cache[hash(c)], s)
    else
      var s1 := Memo(s.cache[hash(c) := Reference(s.counter)], s.counter + 1);
      var (at, s2) := CompressedEntries(hash, c, Sorted(c.at.Keys), c.at, s1);
      (WithId(c, at, s.counter), s2)
  }

  ghost function CompressedEntries(hash: Hash, c: Chunk, names: seq<Str>, at: map<Str, Chunk>,
      s: Memo): (map<Str, Chunk>, Memo)
    requires c.Dict? && forall k | k in names :: k in c.at
    decreases c, 0, |names|
  {
    if names == [] then (at, s)
    else
      var (v, s1) := CompressedValue(hash, c.at[names[0]], s);
      CompressedEntries(hash, c, names[1..], at[names[0] := v], s1)
  }

  ghost function CompressedValue(hash: Hash, v: Chunk, s: Memo): (Chunk, Memo)
    decreases v, 2
  {
    if v.List? then
      var (items, s1) := CompressedItems(hash, v, 0, s);
      (List(items), s1)
    else Compressed(hash, v, s)
  }

  ghost function CompressedItems(hash: Hash, l: Chunk, i: nat, s: Memo): (r: (seq<Chunk>, Memo))
    requires l.List? && i <= |l.items|
    ensures |r.0| == |l.items| - i
    decreases l, 1, |l.items| - i
  {
    if i == |l.items| then ([], s)
    else
      var (first, s1) := Compressed(hash, l.items[i], s);
      var (rest, s2) := CompressedItems(hash, l, i + 1, s1);
      ([first] + rest, s2)
  }

  // Decompressing.

  function WithoutKey(keys: seq<Str>, x: Str): seq<Str> {
    if keys == [] then [] else (if keys[0] == x then [] else [keys[0]]) + WithoutKey(keys[1..], x)
  }

  /**
   * Fails where the code does: at a reference to something that is not in the cache, or at a number
   * that cannot be a key.
   */
  ghost function Expanded(c: Chunk, d: map<Chunk, Chunk>): Option<(Chunk, map<Chunk, Chunk>)>
    decreases c, 1
  {
    if !c.Dict? then Some((c, d))
    else if ID in c.at then
      if c.at[ID] in d then Some((d[c.at[ID]], d)) else None
    else
      var at := map k | k in c.at && k != CACHE_ID :: c.at[k];
      match ExpandedEntries(c, Sorted(at.Keys), at, d)
      case None => None
      case Some((at1, d1)) =>
        var r := Dict(WithoutKey(c.keys, CACHE_ID), at1);
        if CACHE_ID !in c.at || c.at[CACHE_ID].Null? then Some((r, d1))
        else if c.at[CACHE_ID].List? || c.at[CACHE_ID].Dict? then None
        else Some((r, d1[c.at[CACHE_ID] := r]))
  }

  ghost function ExpandedEntries(c: Chunk, names: seq<Str>, at: map<Str, Chunk>, d: map<Chunk, Chunk>):
      Option<(map<Str, Chunk>, map<Chunk, Chunk>)>
    requires c.Dict? && forall k | k in names :: k in c.at
    decreases c, 0, |names|
  {
    if names == [] then Some((at, d))
    else
      match ExpandedValue(c.at[names[0]], d)
      case None => None
      case Some((v, d1)) => ExpandedEntries(c, names[1..], at[names[0] := v], d1)
  }

  ghost function ExpandedValue(v: Chunk, d: map<Chunk, Chunk>): Option<(Chunk, map<Chunk, Chunk>)>
    decreases v, 2
  {
    if v.List? then
      match ExpandedItems(v, 0, d)
      case None => None
      case Some((items, d1)) => Some((List(items), d1))
    else Expanded(v, d)
  }

  ghost function ExpandedItems(l: Chunk, i: nat, d: map<Chunk, Chunk>): Option<(seq<Chunk>, map<Chunk, Chunk>)>
    requires l.List? && i <= |l.items|
    decreases l, 1, |l.items| - i
  {
    if i == |l.items| then Some(([], d))
    else
      match Expanded(l.items[i], d)
      case None => None
      case Some((first, d1)) =>
        match ExpandedItems(l, i + 1, d1)
        case None => None
        case Some((rest, d2)) => Some(([first] + rest, d2))
  }

  // The round trip.

  /**
   * Between the two walks: the dictionaries that have been numbered, each once. The decompressing
   * walk has them in its cache, except for those it is still inside of.
   */
  ghost predicate InStep(hash: Hash, u: iset<Chunk>, s: Memo, d: map<Chunk, Chunk>, seen: map<nat, Chunk>,
      open: set<nat>) {
    && (forall n: nat :: n in seen <==> n < s.counter)
    && (forall n {:trigger seen[n]} | n in seen ::
          seen[n] in u && hash(seen[n]) in s.cache && s.cache[hash(seen[n])] == Reference(n))
    && (forall h {:trigger h in s.cache} | h in s.cache ::
       NumberIn(s.cache[h]) in seen && hash(seen[NumberIn(s.cache[h])]) == h)
    && (forall n {:trigger seen[n]} | n in seen && n !in open :: Number(n) in d && d[Number(n)] == seen[n])
  }

  /** Everything that the walk is inside of is larger. */
  ghost predicate Inside(seen: map<nat, Chunk>, open: set<nat>, c: Chunk) {
    forall n {:trigger seen[n]} | n in open && n in seen :: c < seen[n]
  }

  /** Nothing is numbered twice. */
  lemma SeenOnce(hash: Hash, u: iset<Chunk>, s: Memo, d: map<Chunk, Chunk>, seen: map<nat, Chunk>, open: set<nat>)
    requires InStep(hash, u, s, d, seen, open)
    ensures forall i, j | i in seen && j in seen && i != j :: seen[i] != seen[j]
  {
    forall i, j | i in seen && j in seen && i != j
      ensures seen[i] != seen[j]
    {
      assert NumberIn(s.cache[hash(seen[i])]) == i && NumberIn(s.cache[hash(seen[j])]) == j;
    }
  }

  ghost predicate Grows(seen: map<nat, Chunk>, seen1: map<nat, Chunk>) {
    forall n {:trigger seen1[n]} {:trigger n in seen1} | n in seen :: n in seen1 && seen1[n] == seen[n]
  }

  lemma WithoutMissing(keys: seq<Str>, x: Str)
    requires x !in keys
    ensures WithoutKey(keys, x) == keys
  {
  }

  /** Data without references or numbers is left as it is. */
  lemma {:induction false} ExpandPlain(u: iset<Chunk>, c: Chunk, d: map<Chunk, Chunk>)
    requires Plain(u, c)
    ensures Expanded(c, d) == Some((c, d))
    decreases c, 1
  {
    if c.Dict? {
      var at := map k | k in c.at && k != CACHE_ID :: c.at[k];
      assert at == c.at;
      WithoutMissing(c.keys, CACHE_ID);
      ExpandPlainEntries(u, c, Sorted(c.at.Keys), c.at, d);
    }
  }

  lemma {:induction false} ExpandPlainEntries(u: iset<Chunk>, c: Chunk, names: seq<Str>, at: map<Str, Chunk>,
      d: map<Chunk, Chunk>)
    requires c.Dict? && Plain(u, c) && (forall k | k in names :: k in c.at) && at == c.at
    ensures ExpandedEntries(c, names, at, d) == Some((at, d))
    decreases c, 0, |names|
  {
    if names != [] {
      var v := c.at[names[0]];
      if v.List? {
        ExpandPlainItems(u, v, 0, d);
        assert v.items[0..] == v.items;
      } else {
        ExpandPlain(u, v, d);
      }
      assert at[names[0] := v] == at;
      ExpandPlainEntries(u, c, names[1..], at, d);
    }
  }

  lemma {:induction false} ExpandPlainItems(u: iset<Chunk>, l: Chunk, i: nat, d: map<Chunk, Chunk>)
    requires l.List? && Plain(u, l) && i <= |l.items|
    ensures ExpandedItems(l, i, d) == Some((l.items[i..], d))
    decreases l, 1, |l.items| - i
  {
    if i < |l.items| {
      ExpandPlain(u, l.items[i], d);
      ExpandPlainItems(u, l, i + 1, d);
      assert l.items[i..] == [l.items[i]] + l.items[i + 1..];
    } else {
      assert l.items[i..] == [];
    }
  }

  lemma CachedAt(hash: Hash, u: iset<Chunk>, s: Memo, d: map<Chunk, Chunk>, seen: map<nat, Chunk>, open: set<nat>,
      h: int) returns (n: nat)
    requires InStep(hash, u, s, d, seen, open) && h in s.cache
    ensures n in seen && hash(seen[n]) == h && s.cache[h] == Reference(n)
  {
    n := NumberIn(s.cache[h]);
    assert n in seen && hash(seen[n]) == h;
  }

  /** A dictionary that was seen before comes back from the cache. */
  lemma ReferenceExpands(hash: Hash, u: iset<Chunk>, c: Chunk, s: Memo, d: map<Chunk, Chunk>, seen: map<nat, Chunk>,
      open: set<nat>)
    requires NoCollisions(hash, u) && InStep(hash, u, s, d, seen, open) && Inside(seen, open, c)
    requires c in u && hash(c) in s.cache
    ensures Expanded(s.cache[hash(c)], d) == Some((c, d))
  {
    var n := CachedAt(hash, u, s, d, seen, open, hash(c));
    assert seen[n] == c && n !in open;
    assert Reference(n).at[ID] == Number(n);
  }

  /** A new number, for a dictionary that the walk goes into. */
  lemma Enter(hash: Hash, u: iset<Chunk>, c: Chunk, s: Memo, d: map<Chunk, Chunk>, seen: map<nat, Chunk>,
      open: set<nat>)
    requires NoCollisions(hash, u) && InStep(hash, u, s, d, seen, open) && c in u && hash(c) !in s.cache
    ensures InStep(hash, u, Numbered(hash, c, s), d, seen[s.counter := c], open + {s.counter})
  {
    var s1, seen1 := Memo(s.cache[hash(c) := Reference(s.counter)], s.counter + 1), seen[s.counter := c];
    assert seen1[s.counter] == c && NumberIn(Reference(s.counter)) == s.counter;
  }

  lemma Leave(hash: Hash, u: iset<Chunk>, s: Memo, d: map<Chunk, Chunk>, seen: map<nat, Chunk>, open: set<nat>, n: nat)
    requires InStep(hash, u, s, d, seen, open + {n}) && n in seen
    ensures InStep(hash, u, s, d[Number(n) := seen[n]], seen, open)
  {
  }

  /** Decompressing what was compressed gives it back, and the two walks stay in step. */
  lemma {:induction false} RoundTrip(hash: Hash, u: iset<Chunk>, c: Chunk, s: Memo, d: map<Chunk, Chunk>,
      seen: map<nat, Chunk>, open: set<nat>)
    returns (d1: map<Chunk, Chunk>, seen1: map<nat, Chunk>)
    requires NoCollisions(hash, u) && InStep(hash, u, s, d, seen, open) && Inside(seen, open, c) && Plain(u, c)
    requires open <= seen.Keys
    ensures Expanded(Compressed(hash, c, s).0, d) == Some((c, d1)) && Grows(seen, seen1)
    ensures InStep(hash, u, Compressed(hash, c, s).1, d1, seen1, open)
    decreases c, 2
  {
    d1, seen1 := d, seen;
    if !c.Dict? || |c.keys| <= 2 {
      ExpandPlain(u, c, d);
    } else if hash(c) in s.cache {
      ReferenceExpands(hash, u, c, s, d, seen, open);
    } else {
      d1, seen1 := NewRoundTrip(hash, u, c, s, d, seen, open);
    }
  }

  lemma {:induction false} NewRoundTrip(hash: Hash, u: iset<Chunk>, c: Chunk, s: Memo, d: map<Chunk, Chunk>,
      seen: map<nat, Chunk>, open: set<nat>)
    returns (d1: map<Chunk, Chunk>, seen1: map<nat, Chunk>)
    requires NoCollisions(hash, u) && InStep(hash, u, s, d, seen, open) && Inside(seen, open, c) && Plain(u, c)
    requires open <= seen.Keys && c.Dict? && |c.keys| > 2 && hash(c) !in s.cache
    ensures Expanded(Compressed(hash, c, s).0, d) == Some((c, d1)) && Grows(seen, seen1)
    ensures InStep(hash, u, Compressed(hash, c, s).1, d1, seen1, open)
    decreases c, 1
  {
    var n := s.counter;
    Enter(hash, u, c, s, d, seen, open);
    var r := CompressedEntries(hash, c, Sorted(c.at.Keys), c.at, Numbered(hash, c, s));
    var out := WithId(c, r.0, n);
    var at2;
    d1, seen1, at2 := AllEntriesRoundTrip(hash, u, c, n, r.0, r.1, Numbered(hash, c, s), d, seen[s.counter := c],
        open + {n});
    GrowsNew(seen, n, c, seen1);
    Leave(hash, u, r.1, d1, seen1, open, n);
    NewComesBack(hash, c, s, out, r.0, d, d1, at2);
    d1 := d1[Number(n) := c];
  }

  lemma GrowsNew(seen: map<nat, Chunk>, n: nat, c: Chunk, seen1: map<nat, Chunk>)
    requires n !in seen && Grows(seen[n := c], seen1)
    ensures Grows(seen, seen1) && n in seen1 && seen1[n] == c
  {
    assert seen[n := c][n] == c;
  }

  lemma NewComesBack(hash: Hash, c: Chunk, s: Memo, out: Chunk, at: map<Str, Chunk>, d: map<Chunk, Chunk>,
      d1: map<Chunk, Chunk>, at2: map<Str, Chunk>)
    requires c.Dict? && PlainDict(c) && |c.keys| > 2 && hash(c) !in s.cache && out == WithId(c, at, s.counter)
    requires at == CompressedEntries(hash, c, Sorted(c.at.Keys), c.at, Numbered(hash, c, s)).0
    requires ExpandedEntriesOf(out, Sorted(c.at.Keys), at, d) == Some((at2, d1)) && at2 == c.at
    ensures Compressed(hash, c, s) == (out, CompressedEntries(hash, c, Sorted(c.at.Keys), c.at, Numbered(hash, c, s)).1)
    ensures Expanded(out, d) == Some((c, d1[Number(s.counter) := c]))
  {
    CompressedNew(hash, c, s);
    EntriesKeys(hash, c, Sorted(c.at.Keys), c.at, Numbered(hash, c, s));
    assert at.Keys == c.at.Keys;
    NewExpands(c, out, at, s.counter, d, d1, at2);
  }

  ghost function Numbered(hash: Hash, c: Chunk, s: Memo): Memo {
    Memo(s.cache[hash(c) := Reference(s.counter)], s.counter + 1)
  }

  lemma CompressedNew(hash: Hash, c: Chunk, s: Memo)
    requires c.Dict? && |c.keys| > 2 && hash(c) !in s.cache
    ensures var r := CompressedEntries(hash, c, Sorted(c.at.Keys), c.at, Numbered(hash, c, s));
            Compressed(hash, c, s) == (WithId(c, r.0, s.counter), r.1)
  {
  }

  lemma {:induction false} AllEntriesRoundTrip(hash: Hash, u: iset<Chunk>, c: Chunk, n: nat, at: map<Str, Chunk>,
      s1: Memo, s: Memo, d: map<Chunk, Chunk>, seen: map<nat, Chunk>, open: set<nat>)
    returns (d1: map<Chunk, Chunk>, seen1: map<nat, Chunk>, at2: map<Str, Chunk>)
    requires NoCollisions(hash, u) && InStep(hash, u, s, d, seen, open) && c.Dict? && Plain(u, c)
             && Within(seen, open, c)
    requires open <= seen.Keys && (at, s1) == CompressedEntries(hash, c, Sorted(c.at.Keys), c.at, s)
    ensures ExpandedEntriesOf(WithId(c, at, n), Sorted(c.at.Keys), at, d) == Some((at2, d1)) && at2 == c.at
    ensures Grows(seen, seen1) && InStep(hash, u, s1, d1, seen1, open)
    decreases c, 0, |c.at.Keys| + 1
  {
    var names, out := Sorted(c.at.Keys), WithId(c, at, n);
    SortedNoRepeat(c.at.Keys);
    EntriesKeys(hash, c, names, c.at, s);
    WithIdHas(c, at, n, names);
    d1, seen1 := EntriesRoundTrip(hash, u, c, out, names, c.at, at, s, d, seen, open);
    RestoredHas(c, names, at);
    at2 := Restored(c, names, at);
    AllSame(at2, c.at, names);
  }

  lemma WithIdHas(c: Chunk, at: map<Str, Chunk>, n: nat, names: seq<Str>)
    requires c.Dict? && PlainDict(c) && forall k | k in names :: k in c.at && k in at
    ensures forall k | k in names :: k in WithId(c, at, n).at && WithId(c, at, n).at[k] == at[k]
  {
  }

  predicate NoRepeat(names: seq<Str>) {
    names == [] || (names[0] !in names[1..] && NoRepeat(names[1..]))
  }

  lemma {:induction false} SortedNoRepeat(names: set<Str>)
    ensures NoRepeat(Sorted(names))
    decreases names
  {
    if names != {} {
      SortedNoRepeat(names - {Least(names)});
      assert Sorted(names)[1..] == Sorted(names - {Least(names)});
    }
  }

  lemma AllSame(a: map<Str, Chunk>, b: map<Str, Chunk>, names: seq<Str>)
    requires a.Keys == b.Keys && (forall k | k in b :: k in names)
             && forall k | k in names :: k in a && k in b && a[k] == b[k]
    ensures a == b
  {
  }

  /** The expansion, for names that are entries. */
  ghost function ExpandedEntriesOf(c: Chunk, names: seq<Str>, at: map<Str, Chunk>, d: map<Chunk, Chunk>):
      Option<(map<Str, Chunk>, map<Chunk, Chunk>)>
  {
    if c.Dict? && forall k | k in names :: k in c.at then ExpandedEntries(c, names, at, d) else None
  }

  lemma {:induction false} EntriesKeys(hash: Hash, c: Chunk, names: seq<Str>, at: map<Str, Chunk>, s: Memo)
    requires c.Dict? && forall k | k in names :: k in c.at
    ensures CompressedEntries(hash, c, names, at, s).0.Keys == at.Keys + ToSet(names)
    ensures forall k | k in at && k !in names :: CompressedEntries(hash, c, names, at, s).0[k] == at[k]
    decreases |names|
  {
    if names != [] {
      assert names == [names[0]] + names[1..];
      var (v, s1) := CompressedValue(hash, c.at[names[0]], s);
      EntriesKeys(hash, c, names[1..], at[names[0] := v], s1);
    }
  }

  /** What the whole dictionary comes to once its entries have. */
  lemma NewExpands(c: Chunk, out: Chunk, at: map<Str, Chunk>, n: nat, d: map<Chunk, Chunk>, d1: map<Chunk, Chunk>,
      at2: map<Str, Chunk>)
    requires c.Dict? && PlainDict(c) && at.Keys == c.at.Keys && out == WithId(c, at, n)
    requires ExpandedEntriesOf(out, Sorted(c.at.Keys), at, d) == Some((at2, d1)) && at2 == c.at
    ensures Expanded(out, d) == Some((c, d1[Number(n) := c]))
  {
    assert ID !in out.at && out.at[CACHE_ID] == Number(n);
    assert (map k | k in out.at && k != CACHE_ID :: out.at[k]) == at;
    WithoutLast(c.keys, CACHE_ID);
  }

  lemma {:induction false} WithoutLast(keys: seq<Str>, x: Str)
    requires x !in keys
    ensures WithoutKey(keys + [x], x) == keys
  {
    if keys == [] {
      assert keys + [x] == [x] && [x][1..] == [];
    } else {
      assert (keys + [x])[1..] == keys[1..] + [x];
      WithoutLast(keys[1..], x);
    }
  }

  /** The walk is inside of c, or what it is inside of is larger. */
  ghost predicate Within(seen: map<nat, Chunk>, open: set<nat>, c: Chunk) {
    forall n {:trigger seen[n]} | n in open && n in seen :: c < seen[n] || seen[n] == c
  }

  lemma FirstAndRest(names: seq<Str>)
    requires names != [] && NoRepeat(names)
    ensures names == [names[0]] + names[1..] && names[0] !in names[1..] && NoRepeat(names[1..])
    ensures ToSet(names) == {names[0]} + ToSet(names[1..])
    ensures forall k :: k in names <==> k == names[0] || k in names[1..]
  {
  }

  /** The entries as they were, one name after the other. */
  ghost function Restored(c: Chunk, names: seq<Str>, base: map<Str, Chunk>): map<Str, Chunk>
    requires c.Dict? && forall k | k in names :: k in c.at
    decreases |names|
  {
    if names == [] then base else Restored(c, names[1..], base[names[0] := c.at[names[0]]])
  }

  lemma {:induction false} RestoredHas(c: Chunk, names: seq<Str>, base: map<Str, Chunk>)
    requires c.Dict? && NoRepeat(names) && forall k | k in names :: k in c.at
    ensures Restored(c, names, base).Keys == base.Keys + ToSet(names)
    ensures forall k | k in names :: Restored(c, names, base)[k] == c.at[k]
    ensures forall k | k in base && k !in names :: Restored(c, names, base)[k] == base[k]
    decreases |names|
  {
    if names != [] {
      FirstAndRest(names);
      RestoredHas(c, names[1..], base[names[0] := c.at[names[0]]]);
    }
  }

  lemma {:induction false} EntriesRoundTrip(hash: Hash, u: iset<Chunk>, c: Chunk, out: Chunk, names: seq<Str>,
      at: map<Str, Chunk>, base: map<Str, Chunk>, s: Memo, d: map<Chunk, Chunk>, seen: map<nat, Chunk>, open: set<nat>)
    returns (d2: map<Chunk, Chunk>, seen2: map<nat, Chunk>)
    requires NoCollisions(hash, u) && InStep(hash, u, s, d, seen, open) && c.Dict? && Plain(u, c)
             && Within(seen, open, c)
    requires open <= seen.Keys && NoRepeat(names) && (forall k | k in names :: k in c.at)
    requires out.Dict? && (forall k | k in names :: k in out.at)
    requires forall k | k in names :: k in CompressedEntries(hash, c, names, at, s).0
                                     && out.at[k] == CompressedEntries(hash, c, names, at, s).0[k]
    ensures ExpandedEntries(out, names, base, d) == Some((Restored(c, names, base), d2)) && Grows(seen, seen2)
    ensures InStep(hash, u, CompressedEntries(hash, c, names, at, s).1, d2, seen2, open)
    decreases c, 0, |names|
  {
    d2, seen2 := d, seen;
    if names != [] {
      var x, rest := names[0], names[1..];
      FirstAndRest(names);
      var v, s1 := CompressedValue(hash, c.at[x], s).0, CompressedValue(hash, c.at[x], s).1;
      EntriesKeys(hash, c, rest, at[x := v], s1);
      assert out.at[x] == v;
      var d1, seen1 := ValueRoundTrip(hash, u, c.at[x], s, d, seen, open);
      d2, seen2 := EntriesRoundTrip(hash, u, c, out, rest, at[x := v], base[x := c.at[x]], s1, d1, seen1, open);
    }
  }

  lemma {:induction false} ValueRoundTrip(hash: Hash, u: iset<Chunk>, v: Chunk, s: Memo, d: map<Chunk, Chunk>,
      seen: map<nat, Chunk>, open: set<nat>)
    returns (d1: map<Chunk, Chunk>, seen1: map<nat, Chunk>)
    requires NoCollisions(hash, u) && InStep(hash, u, s, d, seen, open) && Inside(seen, open, v) && Plain(u, v)
    requires open <= seen.Keys
    ensures ExpandedValue(CompressedValue(hash, v, s).0, d) == Some((v, d1)) && Grows(seen, seen1)
    ensures InStep(hash, u, CompressedValue(hash, v, s).1, d1, seen1, open)
    decreases v, 3
  {
    if v.List? {
      var items := CompressedItems(hash, v, 0, s).0;
      assert items[0..] == items && v.items[0..] == v.items;
      d1, seen1 := ItemsRoundTrip(hash, u, v, 0, List(items), s, d, seen, open);
    } else {
      d1, seen1 := RoundTrip(hash, u, v, s, d, seen, open);
      if hash(v) in s.cache {
        var n := CachedAt(hash, u, s, d, seen, open, hash(v));
      }
      assert !Compressed(hash, v, s).0.List?;
    }
  }

  lemma {:induction false} ItemsRoundTrip(hash: Hash, u: iset<Chunk>, l: Chunk, i: nat, out: Chunk, s: Memo,
      d: map<Chunk, Chunk>, seen: map<nat, Chunk>, open: set<nat>)
    returns (d2: map<Chunk, Chunk>, seen2: map<nat, Chunk>)
    requires NoCollisions(hash, u) && InStep(hash, u, s, d, seen, open) && l.List? && Plain(u, l)
             && Inside(seen, open, l)
    requires open <= seen.Keys && i <= |l.items|
    requires out.List? && |out.items| == |l.items| && out.items[i..] == CompressedItems(hash, l, i, s).0
    ensures ExpandedItems(out, i, d) == Some((l.items[i..], d2)) && Grows(seen, seen2)
    ensures InStep(hash, u, CompressedItems(hash, l, i, s).1, d2, seen2, open)
    decreases l, 1, |l.items| - i
  {
    d2, seen2 := d, seen;
    if i < |l.items| {
      var first, s1 := Compressed(hash, l.items[i], s).0, Compressed(hash, l.items[i], s).1;
      TailSplit(out.items, i, first, CompressedItems(hash, l, i + 1, s1).0);
      var d1, seen1 := RoundTrip(hash, u, l.items[i], s, d, seen, open);
      d2, seen2 := ItemsRoundTrip(hash, u, l, i + 1, out, s1, d1, seen1, open);
      ItemsNext(l, i, out, d, d1, d2);
      GrowsFurther(seen, seen1, seen2);
    } else {
      assert l.items[i..] == [];
    }
  }

  lemma ItemsNext(l: Chunk, i: nat, out: Chunk, d: map<Chunk, Chunk>, d1: map<Chunk, Chunk>, d2: map<Chunk, Chunk>)
    requires l.List? && out.List? && |out.items| == |l.items| && i < |l.items|
    requires Expanded(out.items[i], d) == Some((l.items[i], d1))
    requires ExpandedItems(out, i + 1, d1) == Some((l.items[i + 1..], d2))
    ensures ExpandedItems(out, i, d) == Some((l.items[i..], d2))
  {
    assert l.items[i..] == [l.items[i]] + l.items[i + 1..];
  }

  lemma GrowsFurther(a: map<nat, Chunk>, b: map<nat, Chunk>, c: map<nat, Chunk>)
    requires Grows(a, b) && Grows(b, c)
    ensures Grows(a, c)
  {
  }

  lemma TailSplit<T>(s: seq<T>, i: nat, first: T, rest: seq<T>)
    requires i < |s| && s[i..] == [first] + rest
    ensures s[i] == first && s[i + 1..] == rest
  {
    assert s[i..][0] == s[i] && s[i..][1..] == s[i + 1..];
  }

  // Whole data.

  ghost function Compress(hash: Hash, c: Chunk): Chunk {
    Compressed(hash, c, Memo(map[], 0)).0
  }

  ghost function Decompress(c: Chunk): Option<Chunk> {
    match Expanded(c, map[])
    case None => None
    case Some((r, d)) => Some(r)
  }

  /**
   * Decompressing what was compressed gives back the data, down to the order of keys, if no two
   * different parts of it have the same hash and no part has a key that compressing adds.
   */
  lemma DecompressCompress(hash: Hash, u: iset<Chunk>, c: Chunk)
    requires Plain(u, c) && NoCollisions(hash, u)
    ensures Decompress(Compress(hash, c)) == Some(c)
  {
    var d, seen := RoundTrip(hash, u, c, Memo(map[], 0), map[], map[], {});
  }

  /** So compressing loses nothing: different data stays different. */
  lemma CompressInjective(hash: Hash, u: iset<Chunk>, a: Chunk, b: Chunk)
    requires Plain(u, a) && Plain(u, b) && NoCollisions(hash, u) && Compress(hash, a) == Compress(hash, b)
    ensures a == b
  {
    DecompressCompress(hash, u, a);
    DecompressCompress(hash, u, b);
  }

  // What repeats is written once.

  ghost predicate Extends(cache: map<int, Chunk>, cache1: map<int, Chunk>) {
    forall h {:trigger h in cache1} {:trigger cache1[h]} | h in cache :: h in cache1 && cache1[h] == cache[h]
  }

  /** Nothing is forgotten. */
  lemma {:induction false} MemoGrows(hash: Hash, c: Chunk, s: Memo)
    ensures Extends(s.cache, Compressed(hash, c, s).1.cache)
    decreases c, 1
  {
    if c.Dict? && |c.keys| > 2 && hash(c) !in s.cache {
      EntriesGrow(hash, c, Sorted(c.at.Keys), c.at, Numbered(hash, c, s));
      CompressedNew(hash, c, s);
    }
  }

  lemma {:induction false} EntriesGrow(hash: Hash, c: Chunk, names: seq<Str>, at: map<Str, Chunk>, s: Memo)
    requires c.Dict? && forall k | k in names :: k in c.at
    ensures Extends(s.cache, CompressedEntries(hash, c, names, at, s).1.cache)
    decreases c, 0, |names|
  {
    if names != [] {
      var v := c.at[names[0]];
      if v.List? { ItemsGrow(hash, v, 0, s); } else { MemoGrows(hash, v, s); }
      EntriesGrow(hash, c, names[1..], at[names[0] := CompressedValue(hash, v, s).0], CompressedValue(hash, v, s).1);
    }
  }

  lemma {:induction false} ItemsGrow(hash: Hash, l: Chunk, i: nat, s: Memo)
    requires l.List? && i <= |l.items|
    ensures Extends(s.cache, CompressedItems(hash, l, i, s).1.cache)
    decreases l, 1, |l.items| - i
  {
    if i < |l.items| {
      MemoGrows(hash, l.items[i], s);
      ItemsGrow(hash, l, i + 1, Compressed(hash, l.items[i], s).1);
    }
  }

  /**
   * Once a dictionary of more than two entries has been compressed, it becomes a reference wherever
   * it comes up again.
   */
  lemma WrittenOnce(hash: Hash, c: Chunk, s: Memo, later: Memo)
    requires c.Dict? && |c.keys| > 2 && hash(c) !in s.cache && Extends(Compressed(hash, c, s).1.cache, later.cache)
    ensures Compressed(hash, c, later) == (Reference(s.counter), later)
  {
    CompressedNew(hash, c, s);
    EntriesGrow(hash, c, Sorted(c.at.Keys), c.at, Numbered(hash, c, s));
    ExtendsTwice(Numbered(hash, c, s).cache, Compressed(hash, c, s).1.cache, later.cache, hash(c));
  }

  /** A reference has just the key ".id"; a dictionary with a number gets the key ".cache_id". */
  lemma AddedKeys(c: Chunk, at: map<Str, Chunk>, n: nat)
    requires c.Dict?
    ensures Reference(n) == Dict([[46, 105, 100]], map[[46, 105, 100] := Number(n)])
    ensures WithId(c, at, n) == Dict(c.keys + [[46, 99, 97, 99, 104, 101, 95, 105, 100]],
                                     at[[46, 99, 97, 99, 104, 101, 95, 105, 100] := Number(n)])
  {
  }

  /**
   * Compressing a dictionary that has not come up before numbers it, with the key for that after the
   * keys it has, and what stands for it later is a reference to this number.
   */
  lemma AddsKeys(hash: Hash, c: Chunk, s: Memo, r: Chunk, s1: Memo)
    requires c.Dict? && |c.keys| > 2 && hash(c) !in s.cache && (r, s1) == Compressed(hash, c, s)
    ensures r.Dict? && r.keys == c.keys + [CACHE_ID] && CACHE_ID in r.at && r.at[CACHE_ID] == Number(s.counter)
    ensures hash(c) in s1.cache && s1.cache[hash(c)] == Reference(s.counter)
  {
    CompressedNew(hash, c, s);
    EntriesGrow(hash, c, Sorted(c.at.Keys), c.at, Numbered(hash, c, s));
    ExtendsTwice(Numbered(hash, c, s).cache, s1.cache, s1.cache, hash(c));
  }

  lemma ExtendsTwice(a: map<int, Chunk>, b: map<int, Chunk>, c: map<int, Chunk>, h: int)
    requires Extends(a, b) && Extends(b, c) && h in a
    ensures h in c && c[h] == a[h]
  {
    assert h in b && b[h] == a[h];
  }

  // The two programs.

  class Compressor {
    const hash: Hash
    var cache: map<int, Chunk>
    var counter: nat

    ghost function State(): Memo
      reads this
    {
      Memo(cache, counter)
    }

    constructor (hash: Hash)
      ensures this.hash == hash && State() == Memo(map[], 0)
    {
      this.hash, cache, counter := hash, map[], 0;
    }

    method Helper(chunk: Chunk) returns (r: Chunk)
      modifies this
      ensures (r, State()) == Compressed(hash, chunk, old(State()))
      decreases chunk, 1
    {
      if !chunk.Dict? || |chunk.keys| <= 2 {
        return chunk;
      }
      var id := hash(chunk);
      if id in cache {
        return cache[id];
      }
      var n := counter;
      cache, counter := cache[id := Reference(n)], counter + 1;
      var names := SortSet(chunk.at.Keys);
      var at := chunk.at;
      ghost var start := State();
      for k := 0 to |names|
        invariant CompressedEntries(hash, chunk, names, chunk.at, start)
                  == CompressedEntries(hash, chunk, names[k..], at, State())
      {
        var name := names[k];
        var value := Value(chunk.at[name]);
        at := at[name := value];
        assert names[k..][0] == name && names[k..][1..] == names[k + 1..];
      }
      r := WithId(chunk, at, n);
      CompressedNew(hash, chunk, old(State()));
    }

    /** The children of a list, one by one, or a dictionary. */
    method Value(value: Chunk) returns (r: Chunk)
      modifies this
      ensures (r, State()) == CompressedValue(hash, value, old(State()))
      decreases value, 2
    {
      if !value.List? {
        r := Helper(value);
        return;
      }
      var items := [];
      ghost var all := CompressedItems(hash, value, 0, State());
      assert items + all.0 == all.0;
      for i := 0 to |value.items|
        invariant var rest := CompressedItems(hash, value, i, State()); all == (items + rest.0, rest.1)
      {
        ghost var before := State();
        var item := Helper(value.items[i]);
        ghost var rest := CompressedItems(hash, value, i + 1, State()).0;
        assert CompressedItems(hash, value, i, before).0 == [item] + rest;
        assert items + ([item] + rest) == (items + [item]) + rest;
        items := items + [item];
      }
      assert items + [] == items;
      r := List(items);
    }
  }

  class Decompressor {
    var cache: map<Chunk, Chunk>

    constructor ()
      ensures cache == map[]
    {
      cache := map[];
    }

    method Helper(chunk: Chunk) returns (r: Option<Chunk>)
      modifies this
      ensures Agrees(Expanded(chunk, old(cache)), r, cache)
      decreases chunk, 1
    {
      if !chunk.Dict? {
        return Some(chunk);
      }
      if ID in chunk.at {
        return if chunk.at[ID] in cache then Some(cache[chunk.at[ID]]) else None;
      }
      var counter := if CACHE_ID in chunk.at then chunk.at[CACHE_ID] else Null;
      var at := map k | k in chunk.at && k != CACHE_ID :: chunk.at[k];
      var names := SortSet(at.Keys);
      var expanded := Entries(chunk, names, at);
      if expanded.None? {
        return None;
      }
      var done := Dict(WithoutKey(chunk.keys, CACHE_ID), expanded.value);
      if counter.List? || counter.Dict? {
        return None;
      }
      if !counter.Null? {
        cache := cache[counter := done];
      }
      r := Some(done);
    }

    method Entries(chunk: Chunk, names: seq<Str>, start: map<Str, Chunk>) returns (r: Option<map<Str, Chunk>>)
      requires chunk.Dict? && forall k | k in names :: k in chunk.at
      modifies this
      ensures Agrees(ExpandedEntries(chunk, names, start, old(cache)), r, cache)
      decreases chunk, 0, |names|
    {
      var at := start;
      ghost var before := cache;
      for k := 0 to |names|
        invariant ExpandedEntries(chunk, names, start, before) == ExpandedEntries(chunk, names[k..], at, cache)
      {
        var name := names[k];
        assert names[k..][0] == name && names[k..][1..] == names[k + 1..];
        var value := Value(chunk.at[name]);
        if value.None? {
          return None;
        }
        at := at[name := value.value];
      }
      r := Some(at);
    }

    method Value(value: Chunk) returns (r: Option<Chunk>)
      modifies this
      ensures Agrees(ExpandedValue(value, old(cache)), r, cache)
      decreases value, 2
    {
      if !value.List? {
        r := Helper(value);
        return;
      }
      var items := [];
      ghost var all := ExpandedItems(value, 0, cache);
      ItemsStart(all);
      for i := 0 to |value.items|
        invariant ItemsSoFar(all, items, ExpandedItems(value, i, cache))
      {
        var item := Helper(value.items[i]);
        if item.None? {
          return None;
        }
        items := items + [item.value];
      }
      assert items + [] == items;
      r := Some(List(items));
    }
  }

  /** The result and the cache are as specified; after a failure the cache does not matter. */
  ghost predicate Agrees<T>(spec: Option<(T, map<Chunk, Chunk>)>, r: Option<T>, cache: map<Chunk, Chunk>) {
    if spec.None? then r.None? else r == Some(spec.value.0) && cache == spec.value.1
  }

  ghost predicate ItemsSoFar(all: Option<(seq<Chunk>, map<Chunk, Chunk>)>, items: seq<Chunk>,
      rest: Option<(seq<Chunk>, map<Chunk, Chunk>)>)
  {
    if rest.None? then all.None?
    else all.Some? && all.value.0 == items + rest.value.0 && all.value.1 == rest.value.1
  }

  lemma ItemsStart(all: Option<(seq<Chunk>, map<Chunk, Chunk>)>)
    ensures ItemsSoFar(all, [], all)
  {
    if all.Some? {
      assert [] + all.value.0 == all.value.0;
    }
  }

  /** Compresses data and decompresses it again. */
  method CompressAndBack(hash: Hash, chunk: Chunk, ghost u: iset<Chunk>)
    returns (compressed: Chunk, back: Option<Chunk>)
    requires Plain(u, chunk) && NoCollisions(hash, u)
    ensures compressed == Compress(hash, chunk) && back == Some(chunk)
  {
    var compressor := new Compressor(hash);
    compressed := compressor.Helper(chunk);
    var decompressor := new Decompressor();
    back := decompressor.Helper(compressed);
    DecompressCompress(hash, u, chunk);
  }
}
