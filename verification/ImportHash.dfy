// The import-structure hash: a digest of the sorted direct dependencies of an import cycle, each
// one outside the cycle followed by its own hash.
module ImportHash {
  import opened Text
  import opened Reach
  import opened Wire

  type ModId = Str
  type Imports = Graph<ModId>
  type Digest = Bytes -> Bytes

  /** Digests are short enough to be stored as byte strings (SHA-1: 20 bytes). */
  ghost predicate Storable(h: Digest) {
    forall x :: FitsStr(h(x))
  }

  /** Direct imports of a loaded build: closed, no module lists itself, names can be stored. */
  ghost predicate ImportGraph(g: Imports) {
    Closed(g) && forall m | m in g :: m !in g[m] && FitsStr(m)
  }

  /** The modules some member of s imports directly. */
  ghost function DirectDeps(g: Imports, s: set<ModId>): set<ModId> {
    set m, d | m in s && m in g && d in g[m] :: d
  }

  /** Nothing for a member of the cycle being hashed, its stored hash for any other dependency. */
  function HashPart(d: ModId, members: set<ModId>, hashes: map<ModId, Bytes>): Bytes
    requires d !in members ==> d in hashes && FitsStr(hashes[d])
  {
    if d in members then [] else StrBytes(hashes[d])
  }

  function EncodeDeps(deps: seq<ModId>, members: set<ModId>, hashes: map<ModId, Bytes>): Bytes
    requires forall d | d in deps :: FitsStr(d)
    requires forall d | d in deps && d !in members :: d in hashes && FitsStr(hashes[d])
  {
    if deps == [] then []
    else StrBytes(deps[0]) + (HashPart(deps[0], members, hashes) + EncodeDeps(deps[1..], members, hashes))
  }

  ghost function Below(g: Imports, m: ModId): set<ModId> {
    Closure(g, m) + {m}
  }

  lemma MemberDepInClosure(g: Imports, m: ModId, d: ModId)
    requires ImportGraph(g) && m in g && d in DirectDeps(g, Component(g, m))
    ensures d in Closure(g, m)
  {
    var x :| x in Component(g, m) && x in g && d in g[x];
    EdgeReaches(g, x, d);
    if x != m {
      ReachesTransitive(g, m, x, d);
    }
  }

  lemma DepIsBelow(g: Imports, m: ModId, d: ModId)
    requires ImportGraph(g) && m in g
    requires d in DirectDeps(g, Component(g, m)) && d !in Component(g, m)
    ensures d in g && Below(g, d) < Below(g, m)
  {
    MemberDepInClosure(g, m, d);
    ClosureTransitive(g, m, d);
    assert m !in Below(g, d);
  }

  /** The recorded hash of module m's import structure. */
  ghost function TransHash(h: Digest, g: Imports, m: ModId): (r: Bytes)
    requires Storable(h) && ImportGraph(g) && m in g
    ensures FitsStr(r)
    decreases Below(g, m)
  {
    var members := Component(g, m);
    var deps := DirectDeps(g, members);
    var hashes := map d | d in deps && d !in members :: (DepIsBelow(g, m, d); TransHash(h, g, d));
    h(EncodeDeps(Sorted(deps), members, hashes))
  }

  ghost function DepHashes(h: Digest, g: Imports, m: ModId): (r: map<ModId, Bytes>)
    requires Storable(h) && ImportGraph(g) && m in g
    ensures r.Keys == DirectDeps(g, Component(g, m)) - Component(g, m)
    ensures forall d | d in r :: d in g && r[d] == TransHash(h, g, d)
  {
    var members := Component(g, m);
    map d | d in DirectDeps(g, members) && d !in members :: (DepIsBelow(g, m, d); TransHash(h, g, d))
  }

  /** The bytes hashed for module m: one buffer for the whole import cycle. */
  ghost function Buffer(h: Digest, g: Imports, m: ModId): Bytes
    requires Storable(h) && ImportGraph(g) && m in g
  {
    EncodeDeps(Sorted(DirectDeps(g, Component(g, m))), Component(g, m), DepHashes(h, g, m))
  }

  lemma TransHashIsDigest(h: Digest, g: Imports, m: ModId)
    requires Storable(h) && ImportGraph(g) && m in g
    ensures TransHash(h, g, m) == h(Buffer(h, g, m))
  {
    var members := Component(g, m);
    assert DepHashes(h, g, m)
        == map d | d in DirectDeps(g, members) && d !in members :: (DepIsBelow(g, m, d); TransHash(h, g, d));
  }

  // What the digest must not do: collide on the buffers hashed, or give a module a hash that is the
  // name of a module further on in the alphabet. (Names and hashes are stored alike, and sorted by name.)

  ghost predicate InjectiveOn(h: Digest, inputs: iset<Bytes>) {
    forall x, y | x in inputs && y in inputs && h(x) == h(y) :: x == y
  }

  /** These bytes are one of the names, and a dependency of that name would be listed after a. */
  ghost predicate NameAfter(names: iset<ModId>, a: ModId, bytes: Bytes) {
    bytes in names && bytes != a && StrLe(a, bytes)
  }

  ghost predicate HashedWithin(h: Digest, g: Imports, inputs: iset<Bytes>, names: iset<ModId>)
    requires Storable(h) && ImportGraph(g)
  {
    forall m {:trigger Buffer(h, g, m)} {:trigger TransHash(h, g, m)} | m in g ::
      Buffer(h, g, m) in inputs && m in names && !NameAfter(names, m, TransHash(h, g, m))
  }

  /** An ascending list of dependencies none of whose hashes can be taken for the name of a later one. */
  ghost predicate Encodable(names: iset<ModId>, deps: seq<ModId>, members: set<ModId>, hashes: map<ModId, Bytes>) {
    && Ascending(deps)
    && forall d | d in deps ::
      && FitsStr(d) && d in names
      && (d !in members ==> d in hashes && FitsStr(hashes[d]) && !NameAfter(names, d, hashes[d]))
  }

  lemma EncodableTail(names: iset<ModId>, deps: seq<ModId>, members: set<ModId>, hashes: map<ModId, Bytes>)
    requires Encodable(names, deps, members, hashes) && deps != []
    ensures Encodable(names, deps[1..], members, hashes)
    ensures forall d | d in deps[1..] :: d != deps[0] && StrLe(deps[0], d)
  {
  }

  /** The hashed buffer can be decoded: it fixes the names, which of them are members, and the hashes. */
  lemma {:induction false} EncodeDepsInjective(names: iset<ModId>, deps1: seq<ModId>, members1: set<ModId>,
      hashes1: map<ModId, Bytes>, deps2: seq<ModId>, members2: set<ModId>, hashes2: map<ModId, Bytes>)
    requires Encodable(names, deps1, members1, hashes1) && Encodable(names, deps2, members2, hashes2)
    requires EncodeDeps(deps1, members1, hashes1) == EncodeDeps(deps2, members2, hashes2)
    ensures deps1 == deps2
    ensures forall d | d in deps1 :: d in members1 <==> d in members2
    ensures forall d | d in deps1 && d !in members1 :: hashes1[d] == hashes2[d]
  {
    if deps1 != [] && deps2 != [] {
      FirstDepsAgree(names, deps1, members1, hashes1, deps2, members2, hashes2);
      EncodableTail(names, deps1, members1, hashes1);
      EncodableTail(names, deps2, members2, hashes2);
      EncodeDepsInjective(names, deps1[1..], members1, hashes1, deps2[1..], members2, hashes2);
      assert deps1 == [deps1[0]] + deps1[1..] && deps2 == [deps2[0]] + deps2[1..];
    }
  }

  lemma FirstDepsAgree(names: iset<ModId>, deps1: seq<ModId>, members1: set<ModId>, hashes1: map<ModId, Bytes>,
      deps2: seq<ModId>, members2: set<ModId>, hashes2: map<ModId, Bytes>)
    requires deps1 != [] && deps2 != []
    requires Encodable(names, deps1, members1, hashes1) && Encodable(names, deps2, members2, hashes2)
    requires EncodeDeps(deps1, members1, hashes1) == EncodeDeps(deps2, members2, hashes2)
    ensures deps1[0] == deps2[0]
    ensures deps1[0] in members1 <==> deps2[0] in members2
    ensures deps1[0] !in members1 ==> hashes1[deps1[0]] == hashes2[deps1[0]]
    ensures EncodeDeps(deps1[1..], members1, hashes1) == EncodeDeps(deps2[1..], members2, hashes2)
  {
    var d1, d2 := deps1[0], deps2[0];
    var tail1 := EncodeDeps(deps1[1..], members1, hashes1);
    var tail2 := EncodeDeps(deps2[1..], members2, hashes2);
    StrBytesInjective(d1, HashPart(d1, members1, hashes1) + tail1, d2, HashPart(d2, members2, hashes2) + tail2);
    EncodableTail(names, deps1, members1, hashes1);
    EncodableTail(names, deps2, members2, hashes2);
    assert d1 in members1 ==> [] + tail1 == tail1;
    assert d2 in members2 ==> [] + tail2 == tail2;
    if d1 in members1 && d2 !in members2 {
      NameThenHash(names, d1, deps1[1..], members1, hashes1, hashes2[d2], tail2);
    } else if d1 !in members1 && d2 in members2 {
      NameThenHash(names, d2, deps2[1..], members2, hashes2, hashes1[d1], tail1);
    } else if d1 !in members1 {
      StrBytesInjective(hashes1[d1], tail1, hashes2[d2], tail2);
    }
  }

  /** Where one buffer ends after a or continues with a later name, the other cannot continue with a's hash. */
  lemma NameThenHash(names: iset<ModId>, a: ModId, deps: seq<ModId>, members: set<ModId>, hashes: map<ModId, Bytes>,
      hash: Bytes, tail: Bytes)
    requires Encodable(names, deps, members, hashes) && forall d | d in deps :: d != a && StrLe(a, d)
    requires FitsStr(hash) && !NameAfter(names, a, hash)
    ensures EncodeDeps(deps, members, hashes) != StrBytes(hash) + tail
  {
    assert |StrBytes(hash)| > 0;
    if deps != [] {
      var after := HashPart(deps[0], members, hashes) + EncodeDeps(deps[1..], members, hashes);
      if StrBytes(deps[0]) + after == StrBytes(hash) + tail {
        StrBytesInjective(deps[0], after, hash, tail);
      }
    }
  }

  /** The closure of a module from the direct dependencies of its import cycle. */
  lemma ClosureOfComponent(g: Imports, m: ModId)
    requires ImportGraph(g) && m in g
    ensures var members := Component(g, m); var deps := DirectDeps(g, members);
            Closure(g, m) == deps + (set d, c | d in deps && d !in members && c in Closure(g, d) :: c)
  {
    var members := Component(g, m);
    var deps := DirectDeps(g, members);
    var s := deps + (set d, c | d in deps && d !in members && c in Closure(g, d) :: c);
    assert g[m] <= deps;
    forall v | v in s && v in g
      ensures g[v] <= s
    {
      ClosureUnfold(g, v);
      if v in deps {
        if v in members {
          assert g[v] <= deps;
        } else {
          assert Closure(g, v) <= s;
        }
      } else {
        var d :| d in deps && d !in members && v in Closure(g, d);
        ClosureTransitive(g, d, v);
      }
    }
    ClosureLeast(g, m, s);
    forall v | v in s
      ensures v in Closure(g, m)
    {
      if v in deps {
        MemberDepInClosure(g, m, v);
      } else {
        var d :| d in deps && d !in members && v in Closure(g, d);
        MemberDepInClosure(g, m, d);
        ClosureTransitive(g, m, d);
      }
    }
  }

  /** Equal hashes, from one import graph or from two, mean equal transitive dependencies. */
  lemma {:induction false} EqualHashesEqualClosures(h: Digest, inputs: iset<Bytes>, names: iset<ModId>,
      g1: Imports, m1: ModId, g2: Imports, m2: ModId)
    requires Storable(h) && InjectiveOn(h, inputs)
    requires ImportGraph(g1) && m1 in g1 && HashedWithin(h, g1, inputs, names)
    requires ImportGraph(g2) && m2 in g2 && HashedWithin(h, g2, inputs, names)
    requires TransHash(h, g1, m1) == TransHash(h, g2, m2)
    ensures Closure(g1, m1) == Closure(g2, m2)
    decreases Below(g1, m1)
  {
    EqualHashesEqualDeps(h, inputs, names, g1, m1, g2, m2);
    forall d | d in DirectDeps(g1, Component(g1, m1)) && d !in Component(g1, m1)
      ensures Closure(g1, d) == Closure(g2, d)
    {
      DepIsBelow(g1, m1, d);
      EqualHashesEqualClosures(h, inputs, names, g1, d, g2, d);
    }
    EqualDepsEqualClosures(g1, m1, g2, m2);
  }

  lemma EqualDepsEqualClosures(g1: Imports, m1: ModId, g2: Imports, m2: ModId)
    requires ImportGraph(g1) && m1 in g1 && ImportGraph(g2) && m2 in g2
    requires DirectDeps(g1, Component(g1, m1)) == DirectDeps(g2, Component(g2, m2))
    requires forall d | d in DirectDeps(g1, Component(g1, m1)) ::
               && (d in Component(g1, m1) <==> d in Component(g2, m2))
               && (d !in Component(g1, m1) ==> Closure(g1, d) == Closure(g2, d))
    ensures Closure(g1, m1) == Closure(g2, m2)
  {
    ClosureOfComponent(g1, m1);
    ClosureOfComponent(g2, m2);
  }

  lemma EqualHashesEqualDeps(h: Digest, inputs: iset<Bytes>, names: iset<ModId>,
      g1: Imports, m1: ModId, g2: Imports, m2: ModId)
    requires Storable(h) && InjectiveOn(h, inputs)
    requires ImportGraph(g1) && m1 in g1 && HashedWithin(h, g1, inputs, names)
    requires ImportGraph(g2) && m2 in g2 && HashedWithin(h, g2, inputs, names)
    requires TransHash(h, g1, m1) == TransHash(h, g2, m2)
    ensures DirectDeps(g1, Component(g1, m1)) == DirectDeps(g2, Component(g2, m2))
    ensures forall d | d in DirectDeps(g1, Component(g1, m1)) ::
              && (d in Component(g1, m1) <==> d in Component(g2, m2))
              && (d !in Component(g1, m1) ==> d in g1 && d in g2 && TransHash(h, g1, d) == TransHash(h, g2, d))
  {
    EqualHashesEqualBuffers(h, inputs, names, g1, m1, g2, m2);
    DepsEncodable(h, inputs, names, g1, m1);
    DepsEncodable(h, inputs, names, g2, m2);
    EqualBuffersEqualDeps(names, DirectDeps(g1, Component(g1, m1)), Component(g1, m1), DepHashes(h, g1, m1),
                          DirectDeps(g2, Component(g2, m2)), Component(g2, m2), DepHashes(h, g2, m2));
  }

  lemma EqualHashesEqualBuffers(h: Digest, inputs: iset<Bytes>, names: iset<ModId>,
      g1: Imports, m1: ModId, g2: Imports, m2: ModId)
    requires Storable(h) && InjectiveOn(h, inputs)
    requires ImportGraph(g1) && m1 in g1 && HashedWithin(h, g1, inputs, names)
    requires ImportGraph(g2) && m2 in g2 && HashedWithin(h, g2, inputs, names)
    requires TransHash(h, g1, m1) == TransHash(h, g2, m2)
    ensures Buffer(h, g1, m1) == Buffer(h, g2, m2)
  {
    TransHashIsDigest(h, g1, m1);
    TransHashIsDigest(h, g2, m2);
  }

  lemma EqualBuffersEqualDeps(names: iset<ModId>, deps1: set<ModId>, members1: set<ModId>, hashes1: map<ModId, Bytes>,
      deps2: set<ModId>, members2: set<ModId>, hashes2: map<ModId, Bytes>)
    requires Encodable(names, Sorted(deps1), members1, hashes1) && Encodable(names, Sorted(deps2), members2, hashes2)
    requires EncodeDeps(Sorted(deps1), members1, hashes1) == EncodeDeps(Sorted(deps2), members2, hashes2)
    ensures deps1 == deps2
    ensures forall d | d in deps1 ::
              (d in members1 <==> d in members2)
              && (d !in members1 ==> d in hashes1 && d in hashes2 && hashes1[d] == hashes2[d])
  {
    EncodeDepsInjective(names, Sorted(deps1), members1, hashes1, Sorted(deps2), members2, hashes2);
    assert forall d :: d in deps1 <==> d in Sorted(deps1);
    assert deps1 == deps2;
  }

  lemma DepsEncodable(h: Digest, inputs: iset<Bytes>, names: iset<ModId>, g: Imports, m: ModId)
    requires Storable(h) && ImportGraph(g) && m in g && HashedWithin(h, g, inputs, names)
    ensures Encodable(names, Sorted(DirectDeps(g, Component(g, m))), Component(g, m), DepHashes(h, g, m))
  {
    SortedAscending(DirectDeps(g, Component(g, m)));
    var hashes := DepHashes(h, g, m);
    forall d | d in DirectDeps(g, Component(g, m))
      ensures d in g && d in names && (d !in Component(g, m) ==> !NameAfter(names, d, hashes[d]))
    {
      assert Buffer(h, g, d) in inputs;
    }
  }

  lemma CycleOfTwo(g: Imports, a: ModId, b: ModId)
    requires FitsStr(a) && FitsStr(b) && a != b && g == map[a := {b}, b := {a}]
    ensures ImportGraph(g) && Component(g, a) == {a, b} && DirectDeps(g, {a, b}) == {a, b}
    ensures b in Closure(g, a)
  {
    EdgeReaches(g, a, b);
    EdgeReaches(g, b, a);
  }

  lemma EncodeMember(deps: seq<ModId>, members: set<ModId>, hashes: map<ModId, Bytes>)
    requires deps != [] && forall d | d in deps :: d in members && FitsStr(d)
    ensures EncodeDeps(deps, members, hashes) == StrBytes(deps[0]) + EncodeDeps(deps[1..], members, hashes)
  {
    var rest := EncodeDeps(deps[1..], members, hashes);
    assert deps[0] in deps && [] + rest == rest;
  }

  lemma EncodeTwoMembers(a: ModId, b: ModId, hashes: map<ModId, Bytes>)
    requires FitsStr(a) && FitsStr(b)
    ensures EncodeDeps([a, b], {a, b}, hashes) == StrBytes(a) + StrBytes(b)
  {
    assert [a, b][1..] == [b] && [b][1..] == [];
    EncodeMember([a, b], {a, b}, hashes);
    EncodeMember([b], {a, b}, hashes);
    assert EncodeDeps([], {a, b}, hashes) == [];
    NothingAfter(StrBytes(b));
  }

  lemma NothingAfter(x: Bytes)
    ensures x + [] == x
  {
  }

  lemma SortedPair(a: Str, b: Str)
    requires a != b && StrLe(a, b)
    ensures Sorted({a, b}) == [a, b]
  {
    SortedUnique([a, b], {a, b});
  }

  lemma CycleBuffer(h: Digest, g: Imports, a: ModId, b: ModId)
    requires Storable(h) && FitsStr(a) && FitsStr(b)
    requires StrLe(a, b) && ImportGraph(g) && a in g
    requires a != b && Component(g, a) == {a, b} && DirectDeps(g, {a, b}) == {a, b}
    ensures Buffer(h, g, a) == StrBytes(a) + StrBytes(b)
  {
    SortedPair(a, b);
    var hashes := DepHashes(h, g, a);
    assert Buffer(h, g, a) == EncodeDeps(Sorted({a, b}), {a, b}, hashes);
    EncodeTwoMembers(a, b, hashes);
  }

  lemma LeafBuffer(h: Digest, g: Imports, a: ModId)
    requires Storable(h) && ImportGraph(g) && a in g && g[a] == {}
    ensures Buffer(h, g, a) == [] && Closure(g, a) == {}
  {
    ClosureLeast(g, a, {});
    assert Component(g, a) == {a} by {
      forall x | x in Component(g, a)
        ensures x == a
      {
        assert x != a ==> x in Closure(g, a);
      }
    }
    assert DirectDeps(g, {a}) == {};
    SortedUnique([], {});
  }

  /** What another graph says of a and of what a reaches. */
  ghost predicate AgreeBelow(g1: Imports, g2: Imports, a: ModId) {
    forall x | x in Below(g1, a) :: x in g1 && x in g2 && g2[x] == g1[x]
  }

  lemma WalkCopied(g1: Imports, g2: Imports, a: ModId, p: seq<ModId>, b: ModId)
    requires ImportGraph(g1) && a in g1 && AgreeBelow(g1, g2, a) && WalkFromTo(g1, p, a, b)
    ensures Reaches(g2, a, b)
  {
    forall i | 1 <= i < |p|
      ensures p[i] in Closure(g1, a)
    {
      assert WalkFromTo(g1, p[..i + 1], a, p[i]);
    }
    assert WalkFromTo(g2, p, a, b);
  }

  /** Reachability depends only on the imports of the modules that are reached. */
  lemma ClosureLocal(g1: Imports, g2: Imports, a: ModId)
    requires ImportGraph(g1) && ImportGraph(g2) && a in g1 && AgreeBelow(g1, g2, a)
    ensures Closure(g1, a) == Closure(g2, a)
  {
    forall b | b in Closure(g1, a)
      ensures b in Closure(g2, a)
    {
      var p :| WalkFromTo(g1, p, a, b);
      WalkCopied(g1, g2, a, p, b);
    }
    ClosureUnfold(g1, a);
    forall v | v in Closure(g1, a)
      ensures g2[v] <= Closure(g1, a)
    {
      ClosureUnfold(g1, v);
      ClosureTransitive(g1, a, v);
    }
    ClosureLeast(g2, a, Closure(g1, a));
  }

  lemma AgreeBelowToo(g1: Imports, g2: Imports, a: ModId, d: ModId)
    requires ImportGraph(g1) && ImportGraph(g2) && a in g1 && AgreeBelow(g1, g2, a) && d in Closure(g1, a)
    ensures AgreeBelow(g1, g2, d) && Closure(g1, d) == Closure(g2, d)
  {
    ClosureTransitive(g1, a, d);
    ClosureLocal(g1, g2, d);
  }

  lemma ComponentLocal(g1: Imports, g2: Imports, a: ModId)
    requires ImportGraph(g1) && ImportGraph(g2) && a in g1 && AgreeBelow(g1, g2, a)
    ensures Component(g1, a) == Component(g2, a)
    ensures DirectDeps(g1, Component(g1, a)) == DirectDeps(g2, Component(g2, a))
  {
    ClosureLocal(g1, g2, a);
    forall x | x in Closure(g1, a)
      ensures a in Closure(g1, x) <==> a in Closure(g2, x)
    {
      AgreeBelowToo(g1, g2, a, x);
    }
    forall x
      ensures x in Component(g1, a) <==> x in Component(g2, a)
    {
      assert x != a ==> (x in Component(g1, a) <==> x in Closure(g1, a) && a in Closure(g1, x));
      assert x != a ==> (x in Component(g2, a) <==> x in Closure(g2, a) && a in Closure(g2, x));
    }
    assert Component(g1, a) <= Below(g1, a);
  }

  /** So does the hash. */
  lemma {:induction false} HashLocal(h: Digest, g1: Imports, g2: Imports, a: ModId)
    requires Storable(h) && ImportGraph(g1) && ImportGraph(g2) && a in g1 && AgreeBelow(g1, g2, a)
    ensures Buffer(h, g1, a) == Buffer(h, g2, a) && TransHash(h, g1, a) == TransHash(h, g2, a)
    decreases Below(g1, a)
  {
    ComponentLocal(g1, g2, a);
    forall d | d in DirectDeps(g1, Component(g1, a)) && d !in Component(g1, a)
      ensures d in g1 && d in g2 && TransHash(h, g1, d) == TransHash(h, g2, d)
    {
      DepIsBelow(g1, a, d);
      MemberDepInClosure(g1, a, d);
      AgreeBelowToo(g1, g2, a, d);
      HashLocal(h, g1, g2, d);
    }
    SameDepHashes(h, g1, g2, a);
  }

  lemma SameDepHashes(h: Digest, g1: Imports, g2: Imports, a: ModId)
    requires Storable(h) && ImportGraph(g1) && ImportGraph(g2) && a in g1 && a in g2
    requires Component(g1, a) == Component(g2, a)
    requires DirectDeps(g1, Component(g1, a)) == DirectDeps(g2, Component(g2, a))
    requires forall d | d in DirectDeps(g1, Component(g1, a)) && d !in Component(g1, a) ::
               d in g1 && d in g2 && TransHash(h, g1, d) == TransHash(h, g2, d)
    ensures Buffer(h, g1, a) == Buffer(h, g2, a) && TransHash(h, g1, a) == TransHash(h, g2, a)
  {
    SameMaps(DepHashes(h, g1, a), DepHashes(h, g2, a));
    TransHashIsDigest(h, g1, a);
    TransHashIsDigest(h, g2, a);
  }

  lemma SameMaps(a: map<ModId, Bytes>, b: map<ModId, Bytes>)
    requires a.Keys == b.Keys && forall d | d in a :: a[d] == b[d]
    ensures a == b
  {
  }

  /** The graph of a, what it reaches, and m, which imports a. */
  ghost function WithImporter(g: Imports, a: ModId, m: ModId): Imports {
    (map x | x in Below(g, a) && x in g :: g[x])[m := {a}]
  }

  lemma BelowClosed(g: Imports, a: ModId, x: ModId)
    requires ImportGraph(g) && a in g && x in Below(g, a)
    ensures x in g && g[x] <= Below(g, a)
  {
    ClosureUnfold(g, x);
    if x != a { ClosureTransitive(g, a, x); }
  }

  lemma WithImporterGraph(g: Imports, a: ModId, m: ModId)
    requires ImportGraph(g) && a in g && m !in Below(g, a) && FitsStr(m)
    ensures ImportGraph(WithImporter(g, a, m)) && AgreeBelow(g, WithImporter(g, a, m), a)
  {
    forall x | x in Below(g, a)
      ensures x in g && g[x] <= Below(g, a)
    {
      BelowClosed(g, a, x);
    }
  }

  /** m imports a, and nothing that a reaches imports m. */
  lemma OnlyImporter(g: Imports, a: ModId, m: ModId)
    requires ImportGraph(g) && m in g && a in g && g[m] == {a} && m !in Below(g, a)
    ensures Closure(g, m) == Below(g, a) && Component(g, m) == {m}
  {
    ClosureUnfold(g, m);
    assert forall b :: b in Closure(g, m) <==> b in Below(g, a);
    OwnComponent(g, a, m);
  }

  lemma OwnComponent(g: Imports, a: ModId, m: ModId)
    requires ImportGraph(g) && m in g && a in g && m !in Below(g, a) && Closure(g, m) == Below(g, a)
    ensures Component(g, m) == {m}
  {
    forall x | x in g && x != m && Reaches(g, m, x)
      ensures !Reaches(g, x, m)
    {
      assert x in Closure(g, m);
      NotBack(g, a, m, x);
    }
  }

  lemma NotBack(g: Imports, a: ModId, m: ModId, x: ModId)
    requires ImportGraph(g) && m in g && a in g && m !in Below(g, a) && x in Below(g, a)
    ensures !Reaches(g, x, m)
  {
    if Reaches(g, x, m) && x != a {
      ReachesTransitive(g, a, x, m);
    }
    assert m !in Closure(g, a);
  }

  lemma ImporterBuffer(h: Digest, g: Imports, m: ModId, a: ModId)
    requires Storable(h) && ImportGraph(g) && m in g && a in g && g[m] == {a} && Component(g, m) == {m}
    ensures FitsStr(a) && Buffer(h, g, m) == StrBytes(a) + StrBytes(TransHash(h, g, a))
  {
    assert DirectDeps(g, {m}) == {a} && m != a;
    var hashes := DepHashes(h, g, m);
    EncodeOneDep(a, {m}, hashes);
  }

  lemma EncodeOneDep(a: ModId, members: set<ModId>, hashes: map<ModId, Bytes>)
    requires FitsStr(a) && a !in members && a in hashes && FitsStr(hashes[a])
    ensures Sorted({a}) == [a] && EncodeDeps([a], members, hashes) == StrBytes(a) + StrBytes(hashes[a])
  {
    SortedUnique([a], {a});
    NothingAfter(StrBytes(hashes[a]));
    assert EncodeDeps([], members, hashes) == [];
  }

  /** One buffer for the whole cycle. */
  lemma SameCycleSameBuffer(h: Digest, g: Imports, a: ModId, b: ModId)
    requires Storable(h) && ImportGraph(g) && a in g && b in g && Component(g, a) == Component(g, b)
    ensures Buffer(h, g, a) == Buffer(h, g, b)
  {
    assert DepHashes(h, g, a) == DepHashes(h, g, b);
  }

  /** The buffer of a module that imports one module from outside its cycle. */
  lemma OneImportShort(h: Digest, g: Imports, m: ModId, d: ModId)
    requires Storable(h) && ImportGraph(g) && m in g && g[m] == {d} && Component(g, m) == {m}
    ensures d in g && |Buffer(h, g, m)| <= |d| + |h(Buffer(h, g, d))| + 8
  {
    assert d in g[m] && d in g;
    ImporterBuffer(h, g, m, d);
    TransHashIsDigest(h, g, d);
    PairShort(d, TransHash(h, g, d));
  }

  lemma PairShort(a: Str, b: Str)
    requires FitsStr(a) && FitsStr(b)
    ensures |StrBytes(a) + StrBytes(b)| <= |a| + |b| + 8
  {
  }

  // When equal hashes mean equal transitive imports, for graphs over a given set of names.

  ghost predicate Over(g: Imports, names: iset<ModId>) {
    ImportGraph(g) && forall m | m in g :: m in names
  }

  /** Everything that may be hashed. */
  ghost function Buffers(h: Digest, names: iset<ModId>): iset<Bytes>
    requires Storable(h)
  {
    iset g: Imports, m: ModId | Over(g, names) && m in g :: Buffer(h, g, m)
  }

  /** No module has a hash that is the name of a module further on in the alphabet. */
  ghost predicate NamesApart(h: Digest, names: iset<ModId>)
    requires Storable(h)
  {
    forall g, a {:trigger TransHash(h, g, a)} | Over(g, names) && a in g :: !NameAfter(names, a, TransHash(h, g, a))
  }

  /** No module has a hash that is the name of one of its own transitive imports. */
  ghost predicate NoOwnImport(h: Digest, names: iset<ModId>)
    requires Storable(h)
  {
    forall g, a {:trigger TransHash(h, g, a)} | Over(g, names) && a in g :: TransHash(h, g, a) !in Closure(g, a)
  }

  /** A module whose hash is unchanged has the transitive imports that it had. */
  ghost predicate HashFixesClosure(h: Digest, names: iset<ModId>)
    requires Storable(h)
  {
    forall g1, g2, m {:trigger TransHash(h, g1, m), TransHash(h, g2, m)} |
      Over(g1, names) && Over(g2, names) && m in g1 && m in g2 && TransHash(h, g1, m) == TransHash(h, g2, m) ::
      Closure(g1, m) == Closure(g2, m)
  }

  /**
   * The exact condition, for a digest that does not collide: an unchanged hash means unchanged
   * transitive imports if and only if no hash is the name of a module further on in the alphabet.
   */
  lemma HashFixesClosureIff(h: Digest, names: iset<ModId>)
    requires Storable(h) && InjectiveOn(h, Buffers(h, names)) && NoOwnImport(h, names)
    ensures HashFixesClosure(h, names) <==> NamesApart(h, names)
  {
    if NamesApart(h, names) {
      forall g1, g2, m | Over(g1, names) && Over(g2, names) && m in g1 && m in g2
                         && TransHash(h, g1, m) == TransHash(h, g2, m)
        ensures Closure(g1, m) == Closure(g2, m)
      {
        ApartFixes(h, names, g1, g2, m);
      }
    } else {
      var g, a :| Over(g, names) && a in g && NameAfter(names, a, TransHash(h, g, a));
      NotApartNotFixed(h, names, g, a, TransHash(h, g, a));
    }
  }

  lemma NotApartNotFixed(h: Digest, names: iset<ModId>, g: Imports, a: ModId, b: ModId)
    requires Storable(h) && Over(g, names) && a in g && a in names
    requires b == TransHash(h, g, a) && NameAfter(names, a, b) && b !in Closure(g, a)
    ensures !HashFixesClosure(h, names)
  {
    var g1, g2 := NameAfterConfuses(h, g, a, b);
    OverFewer(g1, names, g.Keys + {b});
    OverFewer(g2, names, g.Keys + {b});
    NotFixed(h, names, g1, g2, b);
  }

  lemma OverFewer(g: Imports, names: iset<ModId>, all: set<ModId>)
    requires ImportGraph(g) && g.Keys <= all && forall m | m in all :: m in names
    ensures Over(g, names)
  {
  }

  lemma NotFixed(h: Digest, names: iset<ModId>, g1: Imports, g2: Imports, m: ModId)
    requires Storable(h) && Over(g1, names) && Over(g2, names) && m in g1 && m in g2
    requires TransHash(h, g1, m) == TransHash(h, g2, m) && Closure(g1, m) != Closure(g2, m)
    ensures !HashFixesClosure(h, names)
  {
  }

  lemma ApartFixes(h: Digest, names: iset<ModId>, g1: Imports, g2: Imports, m: ModId)
    requires Storable(h) && InjectiveOn(h, Buffers(h, names)) && NamesApart(h, names)
    requires Over(g1, names) && Over(g2, names) && m in g1 && m in g2 && TransHash(h, g1, m) == TransHash(h, g2, m)
    ensures Closure(g1, m) == Closure(g2, m)
  {
    AllWithin(h, names, g1);
    AllWithin(h, names, g2);
    EqualHashesEqualClosures(h, Buffers(h, names), names, g1, m, g2, m);
  }

  lemma AllWithin(h: Digest, names: iset<ModId>, g: Imports)
    requires Storable(h) && NamesApart(h, names) && Over(g, names)
    ensures HashedWithin(h, g, Buffers(h, names), names)
  {
  }

  /**
   * If the hash of a is the name b of a later module, not one of those a reaches, then b has the same
   * hash in an import cycle with a as it has if it just imports a, but not the same transitive imports.
   */
  lemma NameAfterConfuses(h: Digest, g: Imports, a: ModId, b: ModId) returns (g1: Imports, g2: Imports)
    requires Storable(h) && ImportGraph(g) && a in g
    requires b == TransHash(h, g, a) && b != a && StrLe(a, b) && b !in Closure(g, a)
    ensures ImportGraph(g1) && ImportGraph(g2) && g1.Keys == {a, b} && b in g2 && g2.Keys <= g.Keys + {b}
    ensures TransHash(h, g1, b) == TransHash(h, g2, b) && Closure(g1, b) != Closure(g2, b)
    ensures FitsStr(a) && FitsStr(b) && Buffer(h, g1, b) == Buffer(h, g2, b) == StrBytes(a) + StrBytes(b)
  {
    g1 := CycleWith(h, a, b);
    g2 := ImporterOf(h, g, a, b);
    TransHashIsDigest(h, g1, b);
    TransHashIsDigest(h, g2, b);
  }

  lemma CycleWith(h: Digest, a: ModId, b: ModId) returns (g: Imports)
    requires Storable(h) && FitsStr(a) && FitsStr(b) && a != b && StrLe(a, b)
    ensures ImportGraph(g) && g.Keys == {a, b}
    ensures b in Closure(g, b) && Buffer(h, g, b) == StrBytes(a) + StrBytes(b)
  {
    g := map[a := {b}, b := {a}];
    CycleOfTwo(g, a, b);
    CycleBuffer(h, g, a, b);
    ComponentsEqual(g, a, b);
    SameCycleSameBuffer(h, g, a, b);
    EdgeReaches(g, b, a);
    ClosureTransitive(g, b, a);
  }

  lemma ImporterOf(h: Digest, g: Imports, a: ModId, b: ModId) returns (g1: Imports)
    requires Storable(h) && ImportGraph(g) && a in g && FitsStr(b) && b !in Below(g, a)
    ensures ImportGraph(g1) && b in g1 && g1.Keys <= g.Keys + {b}
    ensures b !in Closure(g1, b)
    ensures FitsStr(a) && Buffer(h, g1, b) == StrBytes(a) + StrBytes(TransHash(h, g, a))
  {
    g1 := WithImporter(g, a, b);
    WithImporterGraph(g, a, b);
    ClosureLocal(g, g1, a);
    OnlyImporter(g1, a, b);
    HashLocal(h, g, g1, a);
    ImporterBuffer(h, g1, b, a);
  }

  // A digest without collisions on everything that can be stored.

  /** The input itself behind a mark, as long as that fits. */
  function MarkedDigest(mark: byte): Digest {
    x => if |x| < MAX_FOUR_BYTES_INT then [mark] + x else []
  }

  ghost function ShortInputs(): iset<Bytes> {
    iset x: Bytes | |x| < MAX_FOUR_BYTES_INT
  }

  lemma MarkedInjective(mark: byte)
    ensures Storable(MarkedDigest(mark)) && InjectiveOn(MarkedDigest(mark), ShortInputs())
  {
    var h := MarkedDigest(mark);
    forall x, y | x in ShortInputs() && y in ShortInputs() && h(x) == h(y)
      ensures x == y
    {
      assert ([mark] + x)[1..] == x && ([mark] + y)[1..] == y;
    }
  }

  /** Names that do not begin with the mark are not hashes of anything. */
  lemma MarkedApart(mark: byte, names: iset<ModId>)
    requires Storable(MarkedDigest(mark)) && forall m | m in names :: m != [] && m[0] != mark
    ensures NamesApart(MarkedDigest(mark), names)
  {
    forall g, a | Over(g, names) && a in g
      ensures TransHash(MarkedDigest(mark), g, a) !in names
    {
      TransHashIsDigest(MarkedDigest(mark), g, a);
    }
  }

  /** The case in which a imports nothing. */
  lemma LeafConfuses(h: Digest, a: ModId, b: ModId) returns (g1: Imports, g2: Imports)
    requires Storable(h) && FitsStr(a) && b == h([]) && b != a && StrLe(a, b)
    ensures ImportGraph(g1) && ImportGraph(g2) && b in g1 && b in g2
    ensures TransHash(h, g1, b) == TransHash(h, g2, b) && Closure(g1, b) != Closure(g2, b)
    ensures |Buffer(h, g1, b)| <= |a| + |b| + 8 && |Buffer(h, g2, b)| <= |a| + |b| + 8
  {
    var g := map[a := {}];
    LeafBuffer(h, g, a);
    TransHashIsDigest(h, g, a);
    g1, g2 := NameAfterConfuses(h, g, a, b);
    PairShort(a, b);
  }

  /**
   * The condition on names is needed even for one module: with a digest that does not collide on
   * anything that can be stored and maps the empty buffer to the name "b", module b has the same hash
   * in an import cycle with a as it has if it imports the leaf a.
   */
  lemma NameThatIsADigest() returns (h: Digest, g1: Imports, g2: Imports, m: ModId)
    ensures Storable(h) && InjectiveOn(h, ShortInputs())
    ensures ImportGraph(g1) && ImportGraph(g2) && m in g1 && m in g2
    ensures Buffer(h, g1, m) in ShortInputs() && Buffer(h, g2, m) in ShortInputs()
    ensures TransHash(h, g1, m) == TransHash(h, g2, m) && Closure(g1, m) != Closure(g2, m)
  {
    var a: ModId := [97];
    h, m := MarkedDigest(98), [98];
    MarkedInjective(98);
    assert StrLe(a[1..], m[1..]);
    g1, g2 := LeafConfuses(h, a, m);
  }
}
