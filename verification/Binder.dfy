// Flow-sensitive types: a stack of frames with jumps between them that are flattened when recorded
// and joined when the frame they lead to is on top again.
module Binder {
  import opened Text

  /** The hash of an expression that can be narrowed: its kind, the hashes of its parts, and an atom. */
  datatype Key = Key(tag: nat, subs: seq<Key>, atom: nat)

  const VAR_TAG := 0

  predicate IsVar(k: Key) {
    k.tag == VAR_TAG
  }

  /** s is a proper part of k. */
  ghost predicate Within(s: Key, k: Key)
    decreases k
  {
    exists x | x in k.subs :: s == x || Within(s, x)
  }

  datatype CurrentType<+T> = CurrentType(typ: T, fromAssignment: bool)

  type Types<+T> = map<Key, CurrentType<T>>

  datatype Frame<+T> = Frame(types: Types<T>, unreachable: bool, conditional: bool)

  /** Subtyping, sameness and simplified unions. */
  datatype Lattice<!T> = Lattice(sub: (T, T) -> bool, same: (T, T) -> bool, union: seq<T> -> T)

  ghost predicate IsLattice<T(!new)>(l: Lattice<T>) {
    && (forall a :: l.sub(a, a))
    && (forall a, b :: l.same(a, b) <==> l.sub(a, b) && l.sub(b, a))
    && (forall a, b, c :: l.sub(a, b) && l.sub(b, c) ==> l.sub(a, c))
    && forall ts: seq<T>, t | t in ts :: l.sub(t, l.union(ts))
  }

  // Looking things up in a stack of frames.

  /** What is known in a stack of frames: later frames override earlier ones. */
  ghost function Flat<T>(frames: seq<Frame<T>>): Types<T> {
    if frames == [] then map[] else Flat(frames[..|frames| - 1]) + frames[|frames| - 1].types
  }

  ghost function Lookup<T>(types: Types<T>, k: Key): Option<CurrentType<T>> {
    if k in types then Some(types[k]) else None
  }

  lemma {:induction false} FlatAppend<T>(a: seq<Frame<T>>, b: seq<Frame<T>>)
    ensures Flat(a + b) == Flat(a) + Flat(b)
    decreases |b|
  {
    if b == [] {
      assert a + b == a;
    } else {
      var init := b[..|b| - 1];
      assert (a + b)[..|a + b| - 1] == a + init;
      FlatAppend(a, init);
    }
  }

  lemma FlatTop<T>(frames: seq<Frame<T>>, f: Frame<T>)
    ensures Flat(frames + [f]) == Flat(frames) + f.types
  {
    assert (frames + [f])[..|frames|] == frames;
  }

  lemma SliceNext<T>(frames: seq<Frame<T>>, i: nat, j: nat)
    requires i <= j < |frames|
    ensures frames[i..j + 1] == frames[i..j] + [frames[j]]
  {
  }

  /** A jump that carries along the frames above its target loses nothing. */
  lemma FlatSplit<T>(frames: seq<Frame<T>>, index: nat)
    requires index < |frames|
    ensures Flat(frames) == Flat(frames[..index + 1]) + Flat(frames[index + 1..])
  {
    assert frames == frames[..index + 1] + frames[index + 1..];
    FlatAppend(frames[..index + 1], frames[index + 1..]);
  }

  function Cleansed<T>(frames: seq<Frame<T>>, keys: set<Key>): seq<Frame<T>> {
    seq(|frames|, i requires 0 <= i < |frames| => frames[i].(types := frames[i].types - keys))
  }

  lemma CleansedNothing<T>(frames: seq<Frame<T>>)
    ensures Cleansed(frames, {}) == frames
  {
    forall i | 0 <= i < |frames|
      ensures frames[i].(types := frames[i].types - {}) == frames[i]
    {
      assert frames[i].types - {} == frames[i].types;
    }
  }

  lemma CleansedTwice<T>(frames: seq<Frame<T>>, a: set<Key>, b: set<Key>)
    ensures Cleansed(Cleansed(frames, a), b) == Cleansed(frames, a + b)
  {
    forall i | 0 <= i < |frames|
      ensures Cleansed(Cleansed(frames, a), b)[i] == Cleansed(frames, a + b)[i]
    {
      assert (frames[i].types - a) - b == frames[i].types - (a + b);
    }
  }

  lemma {:induction false} FlatCleansed<T>(frames: seq<Frame<T>>, keys: set<Key>)
    ensures Flat(Cleansed(frames, keys)) == Flat(frames) - keys
  {
    if frames != [] {
      var init := frames[..|frames| - 1];
      assert Cleansed(frames, keys)[..|frames| - 1] == Cleansed(init, keys);
      FlatCleansed(init, keys);
    }
  }

  /** The effect of the frames above index as one frame, unreachable if one of them is. */
  ghost function Flattened<T>(frames: seq<Frame<T>>, index: nat): Frame<T>
    requires index < |frames|
  {
    Frame(Flat(frames[index + 1..]), exists f | f in frames[index + 1..] :: f.unreachable, false)
  }

  // Jumps.

  /**
   * A recorded jump agrees with what was known when it was made: what it carries was known then, and
   * what it does not carry is either as it was in the frames it leads to, or forgotten there.
   */
  ghost predicate JumpOk<T>(below: Types<T>, option: Frame<T>, known: Types<T>) {
    && (forall k | k in option.types :: k in known && known[k] == option.types[k])
    && forall k | k in below && k !in option.types :: k in known && known[k] == below[k]
  }

  ghost predicate JumpsOk<T>(below: Types<T>, options: seq<Frame<T>>, known: seq<Types<T>>) {
    |known| == |options| && forall j {:trigger options[j]} | 0 <= j < |options| :: JumpOk(below, options[j], known[j])
  }

  lemma ForgetJumps<T>(below: Types<T>, options: seq<Frame<T>>, known: seq<Types<T>>, keys: set<Key>)
    requires JumpsOk(below, options, known)
    ensures JumpsOk(below - keys, options, known)
  {
    forall j | 0 <= j < |options|
      ensures JumpOk(below - keys, options[j], known[j])
    {
      assert JumpOk(below, options[j], known[j]);
    }
  }

  // Joining what is known at several jumps.

  /** The values of a key at the jumps; a jump that does not carry the key leaves it as it is. */
  function ValuesAt<T>(fs: seq<Frame<T>>, current: Option<CurrentType<T>>, k: Key): seq<Option<CurrentType<T>>> {
    seq(|fs|, j requires 0 <= j < |fs| => if k in fs[j].types then Some(fs[j].types[k]) else current)
  }

  function Reachable<T(!new)>(fs: seq<Frame<T>>): (r: seq<Frame<T>>)
    ensures |r| <= |fs| && (|r| == |fs| <==> forall f | f in fs :: !f.unreachable)
    ensures forall f :: f in r <==> f in fs && !f.unreachable
  {
    if fs == [] then [] else if fs[0].unreachable then Reachable(fs[1..]) else [fs[0]] + Reachable(fs[1..])
  }

  function Dedupe<T(==,!new)>(ts: seq<T>, seen: seq<T>): (r: seq<T>)
    ensures forall t :: t in r <==> t in ts && t !in seen
  {
    if ts == [] then []
    else if ts[0] in seen then Dedupe(ts[1..], seen)
    else [ts[0]] + Dedupe(ts[1..], seen + [ts[0]])
  }

  /** The single type, or the union of the different ones. */
  function Join<T(==,!new)>(l: Lattice<T>, ts: seq<T>): T
    requires ts != []
  {
    var different := Dedupe(ts, []);
    assert ts[0] in different;
    if |different| == 1 then different[0] else l.union(different)
  }

  lemma JoinAbove<T(!new)>(l: Lattice<T>, ts: seq<T>, t: T)
    requires IsLattice(l) && t in ts
    ensures l.sub(t, Join(l, ts))
  {
    assert t in Dedupe(ts, []);
  }

  /** No assignment on any path: values were only narrowed, by conditions. */
  ghost predicate NarrowingOnly<T>(fs: seq<Frame<T>>, before: Types<T>, k: Key) {
    forall j | 0 <= j < |fs| ::
      && !fs[j].unreachable
      && (k in fs[j].types ==> !fs[j].types[k].fromAssignment)
      && (k !in fs[j].types ==> k in before && !before[k].fromAssignment)
  }

  /** Unless the key has become unknown, every reachable jump knew it, with a subtype of what is known now. */
  ghost predicate KnownBelow<T(!new)>(l: Lattice<T>, fs: seq<Frame<T>>, known: seq<Types<T>>, after: Types<T>, k: Key)
    requires |known| == |fs|
  {
    k in after ==>
      forall j | 0 <= j < |fs| && !fs[j].unreachable :: k in known[j] && l.sub(known[j][k].typ, after[k].typ)
  }

  /** What the jumps carry along is a subtype of what is known in the frame they lead to. */
  ghost predicate JumpsFit<T(!new)>(l: Lattice<T>, fs: seq<Frame<T>>, before: Types<T>, k: Key) {
    forall j | 0 <= j < |fs| && k in fs[j].types && k in before :: l.sub(fs[j].types[k].typ, before[k].typ)
  }

  /**
   * What a join achieves for a key. A type that was only narrowed keeps its value from before, so that
   * this is no supertype if some jump does not fit; in all other cases every reachable jump knew a
   * subtype of what is known now.
   */
  ghost predicate KeyJoined<T(!new)>(l: Lattice<T>, fs: seq<Frame<T>>, known: seq<Types<T>>, before: Types<T>,
      after: Types<T>, k: Key)
    requires |known| == |fs|
  {
    && (KnownBelow(l, fs, known, after, k) <==> (NarrowingOnly(fs, before, k) ==> JumpsFit(l, fs, before, k)))
    && (KnownBelow(l, fs, known, after, k) || Lookup(after, k) == Lookup(before, k))
  }

  /** The effect of a join on one key, in terms of the values at the reachable jumps. */
  ghost predicate KeyResult<T(!new)>(l: Lattice<T>, fs: seq<Frame<T>>, allReachable: bool,
      before: Option<CurrentType<T>>,
      after: Option<CurrentType<T>>, k: Key)
  {
    var values := ValuesAt(fs, before, k);
    if None in values || (allReachable && AllNarrowed(values)) then after == before
    else
      && after.Some? && (forall v | v in values :: v.Some? && l.sub(v.value.typ, after.value.typ))
      && (after == before || NewlyKnown(l, values, before, after.value))
  }

  /** A type that a join stores: it is new, the join of the values, and marked as coming from an assignment. */
  ghost predicate NewlyKnown<T(!new)>(l: Lattice<T>, values: seq<Option<CurrentType<T>>>,
      before: Option<CurrentType<T>>, after: CurrentType<T>)
  {
    && after.fromAssignment && values != [] && (forall j | 0 <= j < |values| :: values[j].Some?)
    && after.typ == Join(l, TypesOf(values)) && (before.None? || !l.same(after.typ, before.value.typ))
  }

  /** Types are only added or replaced, and each one that is new is marked as coming from an assignment. */
  ghost predicate MarkedNew<T>(before: Types<T>, after: Types<T>) {
    && before.Keys <= after.Keys
    && forall k | k in after :: Lookup(after, k) == Lookup(before, k) || after[k].fromAssignment
  }

  /**
   * A change that counts: of a key that was known or is no variable, or to a type that is not the
   * declared one.
   */
  ghost predicate Noticed<T(!new)>(l: Lattice<T>, declared: map<Key, Option<T>>, before: Option<CurrentType<T>>,
      after: Option<CurrentType<T>>, k: Key)
  {
    && after != before && after.Some?
    && (before.Some? || !IsVar(k)
        || (k in declared && declared[k].Some? && !l.same(after.value.typ, declared[k].value)))
  }

  ghost predicate SomeNoticed<T(!new)>(l: Lattice<T>, declared: map<Key, Option<T>>, before: Types<T>,
      after: Types<T>)
  {
    exists k :: Noticed(l, declared, Lookup(before, k), Lookup(after, k), k)
  }

  /** Whatever a join changes is in the top frame, with this mark. */
  ghost predicate ChangesMarked<T>(before: Types<T>, after: Types<T>, top: Types<T>) {
    forall k | Lookup(after, k) != Lookup(before, k) :: k in top && top[k].fromAssignment
  }

  predicate AllNarrowed<T>(values: seq<Option<CurrentType<T>>>) {
    forall j | 0 <= j < |values| :: values[j].Some? && !values[j].value.fromAssignment
  }

  function TypesOf<T>(values: seq<Option<CurrentType<T>>>): seq<T>
    requires forall j | 0 <= j < |values| :: values[j].Some?
  {
    seq(|values|, j requires 0 <= j < |values| => values[j].value.typ)
  }

  lemma ValuesBelow<T(!new)>(l: Lattice<T>, values: seq<Option<CurrentType<T>>>)
    requires IsLattice(l) && values != [] && forall j | 0 <= j < |values| :: values[j].Some?
    ensures forall v | v in values :: v.Some? && l.sub(v.value.typ, Join(l, TypesOf(values)))
  {
    forall v | v in values
      ensures v.Some? && l.sub(v.value.typ, Join(l, TypesOf(values)))
    {
      var j :| 0 <= j < |values| && values[j] == v;
      assert TypesOf(values)[j] == v.value.typ;
      JoinAbove(l, TypesOf(values), v.value.typ);
    }
  }

  lemma SameStillAbove<T(!new)>(l: Lattice<T>, values: seq<Option<CurrentType<T>>>, typ: T, other: T)
    requires IsLattice(l) && l.same(typ, other)
    requires forall v | v in values :: v.Some? && l.sub(v.value.typ, typ)
    ensures forall v | v in values :: v.Some? && l.sub(v.value.typ, other)
  {
  }

  ghost predicate Mentioned<T>(fs: seq<Frame<T>>, k: Key) {
    exists f | f in fs :: k in f.types
  }

  /** The effect of a join on any key. */
  ghost predicate Updated<T(!new)>(l: Lattice<T>, options: seq<Frame<T>>, before: Option<CurrentType<T>>,
      after: Option<CurrentType<T>>, k: Key) {
    var fs := Reachable(options);
    if Mentioned(fs, k) then KeyResult(l, fs, |fs| == |options|, before, after, k) else after == before
  }

  /** A join has its intended effect, and meets its purpose, for every key. */
  ghost predicate AllJoined<T(!new)>(l: Lattice<T>, options: seq<Frame<T>>, known: seq<Types<T>>, before: Types<T>,
      after: Types<T>)
    requires |known| == |options|
  {
    forall k :: KeyJoined(l, options, known, before, after, k)
        && Updated(l, options, Lookup(before, k), Lookup(after, k), k)
  }

  method AllKeys<T>(fs: seq<Frame<T>>) returns (keys: set<Key>)
    ensures forall k :: k in keys <==> Mentioned(fs, k)
  {
    keys := {};
    for j := 0 to |fs|
      invariant forall k :: k in keys <==> Mentioned(fs[..j], k)
    {
      assert fs[..j + 1] == fs[..j] + [fs[j]];
      keys := keys + fs[j].types.Keys;
    }
    assert fs[..|fs|] == fs;
  }

  /** These keys have been joined, except for those left. */
  ghost predicate JoinedBut<T(!new)>(l: Lattice<T>, fs: seq<Frame<T>>, allReachable: bool, before: Types<T>,
      now: Types<T>, keys: set<Key>, left: set<Key>) {
    && (forall k | k !in keys || k in left :: Lookup(now, k) == Lookup(before, k))
    && forall k | k in keys && k !in left :: KeyResult(l, fs, allReachable, Lookup(before, k), Lookup(now, k), k)
  }

  lemma OneMoreJoined<T(!new)>(l: Lattice<T>, fs: seq<Frame<T>>, allReachable: bool, before: Types<T>,
      now: Types<T>, now1: Types<T>, keys: set<Key>, left: set<Key>, key: Key)
    requires JoinedBut(l, fs, allReachable, before, now, keys, left) && key in keys && key in left
    requires forall k | k != key :: Lookup(now1, k) == Lookup(now, k)
    requires KeyResult(l, fs, allReachable, Lookup(now, key), Lookup(now1, key), key)
    ensures JoinedBut(l, fs, allReachable, before, now1, keys, left - {key})
  {
  }

  lemma OneMoreNoticed<T(!new)>(l: Lattice<T>, declared: map<Key, Option<T>>, before: Types<T>, now: Types<T>,
      now1: Types<T>, key: Key)
    requires Lookup(now, key) == Lookup(before, key) && forall k | k != key :: Lookup(now1, k) == Lookup(now, k)
    ensures SomeNoticed(l, declared, before, now1)
            <==> SomeNoticed(l, declared, before, now)
                 || Noticed(l, declared, Lookup(now, key), Lookup(now1, key), key)
  {
    if SomeNoticed(l, declared, before, now) {
      var k :| Noticed(l, declared, Lookup(before, k), Lookup(now, k), k);
      assert k != key && Noticed(l, declared, Lookup(before, k), Lookup(now1, k), k);
    }
    if SomeNoticed(l, declared, before, now1) {
      var k :| Noticed(l, declared, Lookup(before, k), Lookup(now1, k), k);
      assert k == key || Noticed(l, declared, Lookup(before, k), Lookup(now, k), k);
    }
    if Noticed(l, declared, Lookup(now, key), Lookup(now1, key), key) {
      assert Noticed(l, declared, Lookup(before, key), Lookup(now1, key), key);
    }
  }

  // The binder.

  /** What a frame context was entered with, and how many frames there were. */
  datatype Context = Context(canSkip: bool, fallThrough: nat, breakFrame: nat, continueFrame: nat,
    conditionalFrame: bool, tryFrame: bool, discard: bool, level: nat)

  /** A list of jump targets, with that of a context entered at this many frames. */
  function Pushed(targets: seq<int>, offset: nat, frames: nat): seq<int> {
    if offset > 0 then targets + [frames - offset] else targets
  }

  /** Where break statements lead, for the contexts that are entered. */
  function BreakTargets(contexts: seq<Context>): seq<int> {
    if contexts == [] then []
    else
      var c := contexts[|contexts| - 1];
      Pushed(BreakTargets(contexts[..|contexts| - 1]), c.breakFrame, c.level)
  }

  function ContinueTargets(contexts: seq<Context>): seq<int> {
    if contexts == [] then []
    else
      var c := contexts[|contexts| - 1];
      Pushed(ContinueTargets(contexts[..|contexts| - 1]), c.continueFrame, c.level)
  }

  ghost function TryTargets(contexts: seq<Context>): set<int> {
    set c | c in contexts && c.tryFrame :: c.level - 1
  }

  lemma TryAppend(contexts: seq<Context>, c: Context)
    ensures TryTargets(contexts + [c])
            == if c.tryFrame then TryTargets(contexts) + {c.level - 1} else TryTargets(contexts)
  {
    assert c in contexts + [c];
    assert forall x | x in contexts :: x in contexts + [c];
  }

  /** Contexts are nested, and lead to frames that exist. */
  ghost predicate Nested(contexts: seq<Context>, frames: nat) {
    contexts == [] ||
    var c := contexts[|contexts| - 1];
    && 1 < c.level < frames && c.fallThrough <= c.level && c.breakFrame <= c.level && c.continueFrame <= c.level
    && Nested(contexts[..|contexts| - 1], c.level)
  }

  lemma {:induction false} TargetsInRange(contexts: seq<Context>, frames: nat)
    requires Nested(contexts, frames)
    ensures forall x | x in BreakTargets(contexts) :: 0 <= x < frames - 1
    ensures forall x | x in ContinueTargets(contexts) :: 0 <= x < frames - 1
    ensures forall x | x in TryTargets(contexts) :: 0 <= x < frames - 1
  {
    if contexts != [] {
      var init, c := contexts[..|contexts| - 1], contexts[|contexts| - 1];
      TargetsInRange(init, c.level);
      TryAppend(init, c);
      assert contexts == init + [c];
    }
  }

  /** The jump targets in force are those of the contexts, with that many frames. */
  ghost predicate Targets(contexts: seq<Context>, frames: nat, breaks: seq<int>, continues: seq<int>, tries: set<int>) {
    && Nested(contexts, frames)
    && breaks == BreakTargets(contexts) && continues == ContinueTargets(contexts) && tries == TryTargets(contexts)
  }

  function Popped(targets: seq<int>, offset: nat): seq<int>
    requires offset > 0 ==> targets != []
  {
    if offset > 0 then targets[..|targets| - 1] else targets
  }

  lemma TargetsAppend(contexts: seq<Context>, c: Context)
    ensures BreakTargets(contexts + [c]) == Pushed(BreakTargets(contexts), c.breakFrame, c.level)
    ensures ContinueTargets(contexts + [c]) == Pushed(ContinueTargets(contexts), c.continueFrame, c.level)
    ensures TryTargets(contexts + [c])
            == if c.tryFrame then TryTargets(contexts) + {c.level - 1} else TryTargets(contexts)
  {
    assert (contexts + [c])[..|contexts|] == contexts;
    TryAppend(contexts, c);
  }

  lemma NestedInit(contexts: seq<Context>, frames: nat, c: Context)
    requires Nested(contexts + [c], frames + 1) && c.level == frames
    ensures Nested(contexts, frames) && frames > 1 && frames - 1 !in TryTargets(contexts)
  {
    assert (contexts + [c])[..|contexts|] == contexts;
    TargetsInRange(contexts, frames);
  }

  lemma NestedAppend(contexts: seq<Context>, frames: nat, c: Context)
    requires Nested(contexts, frames) && c.level == frames > 1
    requires c.fallThrough <= frames && c.breakFrame <= frames && c.continueFrame <= frames
    ensures Nested(contexts + [c], frames + 1)
  {
    assert (contexts + [c])[..|contexts|] == contexts;
  }

  lemma ContextEntered(contexts: seq<Context>, frames: nat, breaks: seq<int>, continues: seq<int>, tries: set<int>,
      c: Context)
    requires Targets(contexts, frames, breaks, continues, tries) && c.level == frames > 1
    requires c.fallThrough <= frames && c.breakFrame <= frames && c.continueFrame <= frames
    ensures Targets(contexts + [c], frames + 1, Pushed(breaks, c.breakFrame, frames),
                    Pushed(continues, c.continueFrame, frames), if c.tryFrame then tries + {frames - 1} else tries)
  {
    TargetsAppend(contexts, c);
    NestedAppend(contexts, frames, c);
  }

  lemma PoppedPushed(targets: seq<int>, offset: nat, frames: nat)
    ensures offset > 0 ==> Pushed(targets, offset, frames) != []
    ensures Popped(Pushed(targets, offset, frames), offset) == targets
  {
  }

  lemma ContextExited(contexts: seq<Context>, frames: nat, breaks: seq<int>, continues: seq<int>, tries: set<int>,
      c: Context)
    requires Targets(contexts + [c], frames + 1, breaks, continues, tries) && c.level == frames
    ensures (c.breakFrame > 0 ==> breaks != []) && (c.continueFrame > 0 ==> continues != [])
    ensures Targets(contexts, frames, Popped(breaks, c.breakFrame), Popped(continues, c.continueFrame),
                    if c.tryFrame then tries - {frames - 1} else tries)
  {
    TargetsAppend(contexts, c);
    NestedInit(contexts, frames, c);
    PoppedPushed(BreakTargets(contexts), c.breakFrame, frames);
    PoppedPushed(ContinueTargets(contexts), c.continueFrame, frames);
  }

  class ConditionalTypeBinder<T(==,!new)> {
    const lattice: Lattice<T>
    var frames: seq<Frame<T>>
    var optionsOnReturn: seq<seq<Frame<T>>>
    var declarations: map<Key, Option<T>>
    var dependencies: map<Key, set<Key>>
    var lastPopChanged: bool
    var tryFrames: set<int>
    var breakFrames: seq<int>
    var continueFrames: seq<int>
    /** For each recorded jump, everything that was known when it was made. */
    ghost var known: seq<seq<Types<T>>>
    ghost var contexts: seq<Context>

    ghost predicate Valid()
      reads this`frames, this`optionsOnReturn, this`known, this`declarations, this`dependencies
    {
      && IsLattice(lattice)
      && |frames| == |optionsOnReturn| + 1 == |known| + 1
      && AllJumpsOk(frames, optionsOnReturn, known)
      && Declared(frames, optionsOnReturn, declarations.Keys)
      && DependenciesOk(dependencies, declarations.Keys)
    }

    /** The contexts entered are the reason for the jump targets in force. */
    ghost predicate ContextsOk()
      reads this`frames, this`contexts, this`breakFrames, this`continueFrames, this`tryFrames
    {
      Targets(contexts, |frames|, breakFrames, continueFrames, tryFrames)
    }

    constructor (lattice: Lattice<T>)
      requires IsLattice(lattice)
      ensures Valid() && ContextsOk() && this.lattice == lattice && Flat(frames) == map[]
      ensures frames == [Frame(map[], false, false)] && optionsOnReturn == [] && known == [] && contexts == []
    {
      this.lattice := lattice;
      frames, optionsOnReturn, declarations, dependencies := [Frame(map[], false, false)], [], map[], map[];
      lastPopChanged, tryFrames, breakFrames, continueFrames := false, {}, [], [];
      known, contexts := [], [];
    }

    /** The current type of a key, from the innermost frame that has one. */
    method Get(key: Key, index: nat) returns (r: Option<CurrentType<T>>)
      requires index < |frames|
      ensures r == Lookup(Flat(frames[..index + 1]), key)
    {
      var i: int := index;
      while i >= 0
        invariant -1 <= i <= index
        invariant Lookup(Flat(frames[..index + 1]), key) == Lookup(Flat(frames[..i + 1]), key)
      {
        assert frames[..i + 1][..i] == frames[..i];
        if key in frames[i].types {
          return Some(frames[i].types[key]);
        }
        i := i - 1;
      }
      r := None;
    }

    /** Lists value, or key itself, under every part of key; and under key too if a value is given. */
    method AddDependencies(key: Key, value: Option<Key>)
      modifies this`dependencies
      ensures forall s, k {:trigger DependsOn(dependencies, s, k)} ::
                DependsOn(dependencies, s, k) <==>
                  (DependsOn(old(dependencies), s, k)
                   || (k == (if value.Some? then value.value else key)
                     && (Within(s, key) || (value.Some? && s == key))))
      decreases key
    {
      var v := if value.Some? then value.value else key;
      if value.Some? {
        dependencies := dependencies[key := (if key in dependencies then dependencies[key] else {}) + {v}];
      }
      ghost var start := dependencies;
      for j := 0 to |key.subs|
        invariant forall s, k {:trigger DependsOn(dependencies, s, k)} ::
                    DependsOn(dependencies, s, k) <==> DependsOn(start, s, k) || (k == v && WithinFirst(s, key, j))
      {
        WithinNext(key, j);
        AddDependencies(key.subs[j], Some(v));
      }
      WithinAll(key);
    }

    /** Remembers a key the first time it is used. */
    method Declare(key: Key, declaredType: Option<T>)
      requires Valid()
      modifies this`declarations, this`dependencies
      ensures Valid() && key in declarations
      ensures declarations
              == if key in old(declarations) then old(declarations) else old(declarations)[key := declaredType]
    {
      if key !in declarations {
        declarations := declarations[key := declaredType];
        AddDependencies(key, None);
      }
    }

    /** Changes only the top frame. */
    method SetTop(f: Frame<T>)
      requires Valid() && f.types.Keys <= declarations.Keys
      modifies this`frames
      ensures Valid() && frames == old(frames)[..|old(frames)| - 1] + [f]
    {
      TopChanged(frames, optionsOnReturn, known, f);
      frames := frames[..|frames| - 1] + [f];
    }

    /** Records the type of a declared key in the top frame. */
    method PutKey(key: Key, typ: T, fromAssignment: bool)
      requires Valid() && key in declarations
      modifies this`frames
      ensures Valid() && |frames| == |old(frames)|
      ensures frames[..|frames| - 1] == old(frames[..|frames| - 1])
      ensures Flat(frames) == old(Flat(frames))[key := CurrentType(typ, fromAssignment)]
      ensures var top := old(frames[|frames| - 1]);
              frames[|frames| - 1] == top.(types := top.types[key := CurrentType(typ, fromAssignment)])
    {
      var top := frames[|frames| - 1];
      var f := top.(types := top.types[key := CurrentType(typ, fromAssignment)]);
      ghost var lower := frames[..|frames| - 1];
      assert frames == lower + [top];
      FlatTop(lower, top);
      FlatTop(lower, f);
      SetTop(f);
    }

    /** Narrows the type of an expression. */
    method Put(key: Key, declaredType: Option<T>, typ: T, fromAssignment: bool)
      requires Valid()
      modifies this`frames, this`declarations, this`dependencies
      ensures declarations
              == if key in old(declarations) then old(declarations) else old(declarations)[key := declaredType]
      ensures Valid() && frames == WithTop(old(frames), key, CurrentType(typ, fromAssignment))
      ensures |frames| == |old(frames)| && frames[..|frames| - 1] == old(frames[..|frames| - 1])
      ensures Flat(frames) == old(Flat(frames))[key := CurrentType(typ, fromAssignment)]
    {
      Declare(key, declaredType);
      PutKey(key, typ, fromAssignment);
    }

    method Unreachable()
      requires Valid()
      modifies this`frames
      ensures Valid() && frames == Cut(old(frames))
      ensures Flat(frames) == old(Flat(frames))
    {
      var top := frames[|frames| - 1];
      ghost var lower := frames[..|frames| - 1];
      assert frames == lower + [top];
      FlatTop(lower, top);
      FlatTop(lower, top.(unreachable := true));
      SetTop(top.(unreachable := true));
    }

    /** Forgets everything about a key. */
    method CleanseKey(key: Key)
      requires Valid()
      modifies this`frames
      ensures Valid() && frames == Cleansed(old(frames), {key})
    {
      var start := frames;
      var i := 0;
      while i < |start|
        invariant 0 <= i <= |start| == |frames|
        invariant forall j | 0 <= j < |start| ::
                    frames[j] == if j < i then start[j].(types := start[j].types - {key}) else start[j]
      {
        frames := frames[i := frames[i].(types := frames[i].types - {key})];
        i := i + 1;
      }
      assert frames == Cleansed(start, {key});
      CleansedOk(start, optionsOnReturn, known, declarations.Keys, {key});
    }

    /** Forgets what is known about expressions that the changed one is a part of. */
    method InvalidateDependencies(key: Key)
      requires Valid()
      modifies this`frames
      ensures Valid() && frames == Cleansed(old(frames), Dependents(dependencies, key))
      ensures forall k :: Lookup(Flat(frames), k) == if Within(key, k) then None else Lookup(old(Flat(frames)), k)
    {
      var left := if key in dependencies then dependencies[key] else {};
      ghost var all, gone := left, {};
      CleansedNothing(frames);
      while left != {}
        invariant Valid() && left + gone == all
        invariant frames == Cleansed(old(frames), gone)
        decreases left
      {
        var dep :| dep in left;
        CleanseKey(dep);
        CleansedTwice(old(frames), gone, {dep});
        left, gone := left - {dep}, gone + {dep};
      }
      FlatCleansed(old(frames), all);
      DeclaredFlat(old(frames), optionsOnReturn, declarations.Keys);
      forall k | k in declarations
        ensures k in all <==> Within(key, k)
      {
        assert k in all <==> DependsOn(dependencies, key, k);
      }
    }

    method PushFrame(conditionalFrame: bool)
      requires Valid()
      modifies this`frames, this`optionsOnReturn, this`known
      ensures Valid() && |frames| == |old(frames)| + 1
      ensures frames == old(frames) + [Frame(map[], false, conditionalFrame)]
      ensures optionsOnReturn == old(optionsOnReturn) + [[]] && known == old(known) + [[]]
      ensures Flat(frames) == old(Flat(frames))
    {
      FlatTop(frames, Frame(map[], false, conditionalFrame));
      FramePushed(frames, optionsOnReturn, known, Frame(map[], false, conditionalFrame));
      frames := frames + [Frame(map[], false, conditionalFrame)];
      optionsOnReturn, known := optionsOnReturn + [[]], known + [[]];
    }

    /** One frame with the effect of all frames above index, unreachable if one of them is. */
    method Flatten(index: nat) returns (frame: Frame<T>)
      requires index < |frames|
      ensures frame == Flattened(frames, index)
    {
      frame := Frame(map[], false, false);
      for j := index + 1 to |frames|
        invariant frame.types == Flat(frames[index + 1..j]) && !frame.conditional
        invariant frame.unreachable <==> exists f | f in frames[index + 1..j] :: f.unreachable
      {
        SliceNext(frames, index + 1, j);
        FlatTop(frames[index + 1..j], frames[j]);
        frame := frame.(types := frame.types + frames[j].types, unreachable := frame.unreachable
            || frames[j].unreachable);
      }
      assert frames[index + 1..|frames|] == frames[index + 1..];
    }

    function Level(index: int): int
      reads this`optionsOnReturn
    {
      if index < 0 then index + |optionsOnReturn| else index
    }

    /** Records a jump to the frame at index, which counts from the end if negative. */
    method AllowJump(index: int)
      requires Valid() && -|optionsOnReturn| <= index < |optionsOnReturn|
      modifies this`optionsOnReturn, this`known
      ensures Valid() && |optionsOnReturn| == |old(optionsOnReturn)|
      ensures known == old(known)[old(Level(index)) := old(known[Level(index)]) + [Flat(frames)]]
      ensures optionsOnReturn
              == old(optionsOnReturn)[old(Level(index)) := old(optionsOnReturn[Level(index)])
                  + [Flattened(frames, old(Level(index)))]]
    {
      var i := if index < 0 then index + |optionsOnReturn| else index;
      var frame := Flatten(i);
      FlatSplit(frames, i);
      JumpRecorded(frames, optionsOnReturn, known, declarations.Keys, i, frame);
      optionsOnReturn, known := optionsOnReturn[i := optionsOnReturn[i] + [frame]],
          known[i := known[i] + [Flat(frames)]];
    }

    /** Joins what the reachable jumps say about one key. */
    method JoinKey(fs: seq<Frame<T>>, allReachable: bool, key: Key, changed: bool) returns (changed1: bool)
      requires Valid() && key in declarations && fs != []
      modifies this`frames
      ensures Valid() && |frames| == |old(frames)| && frames[..|frames| - 1] == old(frames[..|frames| - 1])
      ensures forall k | k != key :: Lookup(Flat(frames), k) == Lookup(old(Flat(frames)), k)
      ensures KeyResult(lattice, fs, allReachable, Lookup(old(Flat(frames)), key), Lookup(Flat(frames), key), key)
      ensures MarkedNew(old(frames[|frames| - 1]).types, frames[|frames| - 1].types)
      ensures changed1 <==> changed || Noticed(lattice, declarations, Lookup(old(Flat(frames)), key),
                                               Lookup(Flat(frames), key), key)
    {
      changed1 := changed;
      assert frames[..|frames|] == frames;
      var currentValue := Get(key, |frames| - 1);
      var resultingValues := ValuesAt(fs, currentValue, key);
      if None in resultingValues {
        return;
      }
      if allReachable && AllNarrowed(resultingValues) {
        return;
      }
      var typ := Join(lattice, TypesOf(resultingValues));
      ValuesBelow(lattice, resultingValues);
      if currentValue.None? || !lattice.same(typ, currentValue.value.typ) {
        PutKey(key, typ, true);
        if currentValue.Some? || !IsVar(key) {
          changed1 := true;
        } else if !changed {
          var declarationType := declarations[key];
          changed1 := declarationType.Some? && !lattice.same(typ, declarationType.value);
        }
      } else {
        SameStillAbove(lattice, resultingValues, typ, currentValue.value.typ);
      }
    }

    /** Updates the top frame so that it holds after each of the jumps. */
    method UpdateFromOptions(options: seq<Frame<T>>) returns (changed: bool)
      requires Valid() && forall f | f in options :: f.types.Keys <= declarations.Keys
      modifies this`frames
      ensures Valid() && |frames| == |old(frames)| && frames[..|frames| - 1] == old(frames[..|frames| - 1])
      ensures forall k :: Updated(lattice, options, Lookup(old(Flat(frames)), k), Lookup(Flat(frames), k), k)
      ensures MarkedNew(old(frames[|frames| - 1]).types, frames[|frames| - 1].types)
      ensures forall k | Lookup(Flat(frames), k) != Lookup(old(Flat(frames)), k) ::
                k in frames[|frames| - 1].types && frames[|frames| - 1].types[k].fromAssignment
      ensures frames[|frames| - 1].unreachable <==> Reachable(options) == []
      ensures changed <==> SomeNoticed(lattice, declarations, old(Flat(frames)), Flat(frames))
    {
      var fs := Reachable(options);
      changed := JoinKeys(options, fs);
      var top := frames[|frames| - 1];
      ghost var lower := frames[..|frames| - 1];
      assert frames == lower + [top];
      FlatTop(lower, top);
      FlatTop(lower, top.(unreachable := fs == []));
      assert top.types.Keys <= declarations.Keys;
      SetTop(top.(unreachable := fs == []));
      ChangesAtTop(old(frames), frames);
    }

    /** Joins, key by key, what the reachable ones among the jumps say. */
    method JoinKeys(options: seq<Frame<T>>, fs: seq<Frame<T>>) returns (changed: bool)
      requires Valid() && fs == Reachable(options) && forall f | f in options :: f.types.Keys <= declarations.Keys
      modifies this`frames
      ensures Valid() && |frames| == |old(frames)| && frames[..|frames| - 1] == old(frames[..|frames| - 1])
      ensures forall k :: Updated(lattice, options, Lookup(old(Flat(frames)), k), Lookup(Flat(frames), k), k)
      ensures MarkedNew(old(frames[|frames| - 1]).types, frames[|frames| - 1].types)
      ensures changed <==> SomeNoticed(lattice, declarations, old(Flat(frames)), Flat(frames))
    {
      var allReachable := |fs| == |options|;
      ghost var before, top := Flat(frames), frames[|frames| - 1].types;
      changed := false;
      var keys := AllKeys(fs);
      var left := keys;
      while left != {}
        invariant Valid() && |frames| == |old(frames)| && left <= keys
        invariant frames[..|frames| - 1] == old(frames[..|frames| - 1])
        invariant JoinedBut(lattice, fs, allReachable, before, Flat(frames), keys, left)
        invariant MarkedNew(top, frames[|frames| - 1].types)
        invariant changed <==> SomeNoticed(lattice, declarations, before, Flat(frames))
        decreases left
      {
        var key :| key in left;
        assert key in declarations && fs != [] by {
          var f :| f in fs && key in f.types;
          assert f in options;
        }
        changed := JoinNext(fs, allReachable, key, changed, before, top, keys, left);
        left := left - {key};
      }
    }

    /** Joins one more key. */
    method JoinNext(fs: seq<Frame<T>>, allReachable: bool, key: Key, changed: bool, ghost before: Types<T>,
        ghost top: Types<T>, ghost keys: set<Key>, ghost left: set<Key>)
      returns (changed1: bool)
      requires Valid() && key in declarations && fs != [] && key in left && left <= keys
      requires JoinedBut(lattice, fs, allReachable, before, Flat(frames), keys, left)
      requires MarkedNew(top, frames[|frames| - 1].types)
      requires changed <==> SomeNoticed(lattice, declarations, before, Flat(frames))
      modifies this`frames
      ensures Valid() && |frames| == |old(frames)| && frames[..|frames| - 1] == old(frames[..|frames| - 1])
      ensures JoinedBut(lattice, fs, allReachable, before, Flat(frames), keys, left - {key})
      ensures MarkedNew(top, frames[|frames| - 1].types)
      ensures changed1 <==> SomeNoticed(lattice, declarations, before, Flat(frames))
    {
      ghost var now, top1 := Flat(frames), frames[|frames| - 1].types;
      changed1 := JoinKey(fs, allReachable, key, changed);
      OneMoreJoined(lattice, fs, allReachable, before, now, Flat(frames), keys, left, key);
      OneMoreNoticed(lattice, declarations, before, now, Flat(frames), key);
      MarkedTwice(top, top1, frames[|frames| - 1].types);
    }

    /** Removes the top frame, keeping the jumps recorded to the frame below it out of the way. */
    method TakeTop() returns (result: Frame<T>, options: seq<Frame<T>>, ghost knownAt: seq<Types<T>>)
      requires Valid() && |frames| > 1
      modifies this`frames, this`optionsOnReturn, this`known
      ensures Valid() && frames == old(frames[..|frames| - 1]) && result == old(frames[|frames| - 1])
      ensures optionsOnReturn == old(optionsOnReturn[..|optionsOnReturn| - 1])
              && options == old(optionsOnReturn[|optionsOnReturn| - 1])
      ensures known == old(known[..|known| - 1]) && knownAt == old(known[|known| - 1])
      ensures JumpsOk(Flat(frames), options, knownAt)
      ensures forall f | f in options :: f.types.Keys <= declarations.Keys
    {
      var n := |frames| - 1;
      result, options, knownAt := frames[n], optionsOnReturn[n - 1], known[n - 1];
      TopRemoved(frames, optionsOnReturn, known, declarations.Keys);
      assert JumpsOk(Flat(frames[..n]), options, knownAt);
      forall f | f in options
        ensures f.types.Keys <= declarations.Keys
      {
        var j :| 0 <= j < |options| && options[j] == f;
        assert optionsOnReturn[n - 1][j].types.Keys <= declarations.Keys;
      }
      frames, optionsOnReturn, known := frames[..n], optionsOnReturn[..n - 1], known[..n - 1];
    }

    /**
     * Leaves the top frame. Unless its effect is discarded, the jumps that led to the frame below are
     * joined: those in joined, made when knownAt was known. What is known afterwards is a supertype of
     * what was known at each reachable jump, except for a key that was only narrowed, to a type that
     * does not fit the one known below.
     */
    method PopFrame(canSkip: bool, fallThrough: nat, discard: bool)
      returns (result: Frame<T>, joined: seq<Frame<T>>, ghost lower: seq<Frame<T>>, ghost knownAt: seq<Types<T>>)
      requires Valid() && |frames| > 1 && fallThrough <= |optionsOnReturn|
      modifies this`frames, this`optionsOnReturn, this`known, this`lastPopChanged
      ensures Valid() && |frames| == |old(frames)| - 1 && result == old(frames[|frames| - 1])
      ensures joined == Skipping(old(frames), canSkip)
              + (old(optionsOnReturn[|optionsOnReturn| - 1]) + FallingOff(old(frames), fallThrough))
      ensures knownAt == SkippingKnown(old(frames), canSkip)
              + (old(known[|known| - 1]) + FallingOffKnown(old(frames), fallThrough))
      ensures optionsOnReturn
              == WithoutLast(Landed(old(optionsOnReturn), fallThrough, Falling(old(frames), fallThrough)))
      ensures known == WithoutLast(Landed(old(known), fallThrough, Flat(old(frames))))
      ensures lower == old(frames[..|frames| - 1]) && JumpsOk(Flat(lower), joined, knownAt)
      ensures frames[..|lower| - 1] == lower[..|lower| - 1]
      ensures discard ==> frames == lower && !lastPopChanged
      ensures !discard ==> AllJoined(lattice, joined, knownAt, Flat(lower), Flat(frames))
      ensures !discard ==> MarkedNew(lower[|lower| - 1].types, frames[|lower| - 1].types)
      ensures forall k | !discard && Lookup(Flat(frames), k) != Lookup(Flat(lower), k) ::
                k in frames[|lower| - 1].types && frames[|lower| - 1].types[k].fromAssignment
      ensures !discard ==> (frames[|lower| - 1].unreachable <==> forall f | f in joined :: f.unreachable)
      ensures !discard ==> (lastPopChanged <==> SomeNoticed(lattice, declarations, Flat(lower), Flat(frames)))
    {
      lower := frames[..|frames| - 1];
      result, joined, knownAt := GatherJumps(canSkip, fallThrough);
      if discard {
        lastPopChanged := false;
      } else {
        JoinJumps(joined, lower, knownAt);
      }
    }

    /** Falls off the end of the top frame, removes it, and lists the jumps to the one below. */
    method GatherJumps(canSkip: bool, fallThrough: nat)
      returns (result: Frame<T>, joined: seq<Frame<T>>, ghost knownAt: seq<Types<T>>)
      requires Valid() && |frames| > 1 && fallThrough <= |optionsOnReturn|
      modifies this`frames, this`optionsOnReturn, this`known
      ensures Valid() && frames == old(frames[..|frames| - 1]) && result == old(frames[|frames| - 1])
      ensures joined == Skipping(old(frames), canSkip)
              + (old(optionsOnReturn[|optionsOnReturn| - 1]) + FallingOff(old(frames), fallThrough))
      ensures knownAt == SkippingKnown(old(frames), canSkip)
              + (old(known[|known| - 1]) + FallingOffKnown(old(frames), fallThrough))
      ensures JumpsOk(Flat(frames), joined, knownAt)
      ensures forall f | f in joined :: f.types.Keys <= declarations.Keys
      ensures optionsOnReturn
              == WithoutLast(Landed(old(optionsOnReturn), fallThrough, Falling(old(frames), fallThrough)))
      ensures known == WithoutLast(Landed(old(known), fallThrough, Flat(old(frames))))
    {
      if fallThrough > 0 {
        AllowJump(0 - fallThrough);
        FellOff(frames, old(optionsOnReturn), old(known), fallThrough);
      }
      result, joined, knownAt := CollectJumps(canSkip);
    }

    /** Removes the top frame, and lists the jumps to the one below it, including skipping the frame. */
    method CollectJumps(canSkip: bool) returns (result: Frame<T>, options: seq<Frame<T>>, ghost knownAt: seq<Types<T>>)
      requires Valid() && |frames| > 1
      modifies this`frames, this`optionsOnReturn, this`known
      ensures Valid() && frames == old(frames[..|frames| - 1]) && result == old(frames[|frames| - 1])
      ensures options == Skipping(old(frames), canSkip) + old(optionsOnReturn[|optionsOnReturn| - 1])
      ensures knownAt == SkippingKnown(old(frames), canSkip) + old(known[|known| - 1])
      ensures JumpsOk(Flat(frames), options, knownAt)
      ensures forall f | f in options :: f.types.Keys <= declarations.Keys
      ensures optionsOnReturn == old(optionsOnReturn[..|optionsOnReturn| - 1]) && known == old(known[..|known| - 1])
    {
      result, options, knownAt := TakeTop();
      if canSkip {
        SkipIsJump(frames, options, knownAt);
        assert frames[|frames| - 1].types.Keys <= declarations.Keys;
        options, knownAt := [frames[|frames| - 1]] + options, [Flat(frames)] + knownAt;
      }
    }

    /** Joins the jumps that lead to the top frame. */
    method JoinJumps(options: seq<Frame<T>>, ghost lower: seq<Frame<T>>, ghost knownAt: seq<Types<T>>)
      requires Valid() && frames == lower && JumpsOk(Flat(lower), options, knownAt)
               && forall f | f in options :: f.types.Keys <= declarations.Keys
      modifies this`frames, this`lastPopChanged
      ensures Valid() && |frames| == |lower| && frames[..|lower| - 1] == lower[..|lower| - 1]
      ensures AllJoined(lattice, options, knownAt, Flat(lower), Flat(frames))
      ensures MarkedNew(lower[|lower| - 1].types, frames[|lower| - 1].types)
      ensures forall k | Lookup(Flat(frames), k) != Lookup(Flat(lower), k) ::
                k in frames[|lower| - 1].types && frames[|lower| - 1].types[k].fromAssignment
      ensures frames[|lower| - 1].unreachable <==> forall f | f in options :: f.unreachable
      ensures lastPopChanged <==> SomeNoticed(lattice, declarations, Flat(lower), Flat(frames))
    {
      lastPopChanged := UpdateFromOptions(options);
      forall k
        ensures KeyJoined(lattice, options, knownAt, Flat(lower), Flat(frames), k)
      {
        UpdatedJoined(lattice, options, knownAt, Flat(lower), Flat(frames), k);
      }
      NoneReachable(options);
    }

    // Contexts and control flow.

    /** Enters a frame context. In a try frame an exception may occur immediately. */
    method Enter(c: Context)
      requires Valid() && ContextsOk() && |frames| > 1
      requires c.level == |frames| && c.fallThrough <= c.level && c.breakFrame <= c.level && c.continueFrame <= c.level
      modifies this`frames, this`optionsOnReturn, this`known
      modifies this`contexts, this`breakFrames, this`continueFrames, this`tryFrames
      ensures Valid() && ContextsOk() && frames == old(frames) + [Frame(map[], false, c.conditionalFrame)]
      ensures Flat(frames) == old(Flat(frames)) && contexts == old(contexts) + [c]
      ensures known == old(known) + [if c.tryFrame then [Flat(frames)] else []]
      ensures optionsOnReturn == old(optionsOnReturn) + [if c.tryFrame then [Falling(frames, 1)] else []]
    {
      AddTargets(c);
      PushForContext(c.conditionalFrame, c.tryFrame);
    }

    /** Pushes the frame of a context. */
    method PushForContext(conditionalFrame: bool, tryFrame: bool)
      requires Valid()
      modifies this`frames, this`optionsOnReturn, this`known
      ensures Valid() && frames == old(frames) + [Frame(map[], false, conditionalFrame)]
      ensures Flat(frames) == old(Flat(frames))
      ensures known == old(known) + [if tryFrame then [Flat(frames)] else []]
      ensures optionsOnReturn == old(optionsOnReturn) + [if tryFrame then [Falling(frames, 1)] else []]
    {
      PushFrame(conditionalFrame);
      ghost var pushed, lists := known, optionsOnReturn;
      if tryFrame {
        AllowJump(-1);
        LastList(old(known), pushed, known, Flat(frames));
        LastList(old(optionsOnReturn), lists, optionsOnReturn, Falling(frames, 1));
      }
    }

    method AddTargets(c: Context)
      requires ContextsOk() && c.level == |frames| > 1
      requires c.fallThrough <= c.level && c.breakFrame <= c.level && c.continueFrame <= c.level
      modifies this`contexts, this`breakFrames, this`continueFrames, this`tryFrames
      ensures Targets(contexts, |frames| + 1, breakFrames, continueFrames, tryFrames) && contexts == old(contexts) + [c]
    {
      var breaks := Pushed(breakFrames, c.breakFrame, |frames|);
      var continues := Pushed(continueFrames, c.continueFrame, |frames|);
      var tries := if c.tryFrame then tryFrames + {|frames| - 1} else tryFrames;
      ContextEntered(contexts, |frames|, breakFrames, continueFrames, tryFrames, c);
      ghost var entered := contexts + [c];
      assert Targets(entered, |frames| + 1, breaks, continues, tries);
      breakFrames, continueFrames, tryFrames, contexts := breaks, continues, tries, entered;
    }

    method DropTargets(c: Context, ghost outer: seq<Context>)
      requires Targets(contexts, c.level + 1, breakFrames, continueFrames, tryFrames)
      requires contexts == outer + [c] && c.level == |frames|
      modifies this`contexts, this`breakFrames, this`continueFrames, this`tryFrames
      ensures ContextsOk() && contexts == outer
    {
      ContextExited(outer, |frames|, breakFrames, continueFrames, tryFrames, c);
      var breaks, continues := Popped(breakFrames, c.breakFrame), Popped(continueFrames, c.continueFrame);
      var tries := if c.tryFrame then tryFrames - {|frames| - 1} else tryFrames;
      assert Targets(outer, |frames|, breaks, continues, tries);
      breakFrames, continueFrames, tryFrames, contexts := breaks, continues, tries, outer;
    }

    /** Leaves the innermost frame context. */
    method Exit(c: Context)
      returns (result: Frame<T>, joined: seq<Frame<T>>, ghost lower: seq<Frame<T>>, ghost knownAt: seq<Types<T>>)
      requires Valid() && ContextsOk()
      requires contexts != [] && c == contexts[|contexts| - 1] && |frames| == c.level + 1
      modifies this`frames, this`optionsOnReturn, this`known, this`lastPopChanged
      modifies this`contexts, this`breakFrames, this`continueFrames, this`tryFrames
      ensures Valid() && ContextsOk() && |frames| == c.level
      ensures contexts == old(contexts[..|contexts| - 1]) && |knownAt| == |joined|
      ensures joined == Skipping(old(frames), c.canSkip)
              + (old(optionsOnReturn[|optionsOnReturn| - 1]) + FallingOff(old(frames), c.fallThrough))
      ensures knownAt == SkippingKnown(old(frames), c.canSkip)
              + (old(known[|known| - 1]) + FallingOffKnown(old(frames), c.fallThrough))
      ensures optionsOnReturn
              == WithoutLast(Landed(old(optionsOnReturn), c.fallThrough, Falling(old(frames), c.fallThrough)))
      ensures known == WithoutLast(Landed(old(known), c.fallThrough, Flat(old(frames))))
      ensures lower == old(frames[..|frames| - 1]) && JumpsOk(Flat(lower), joined, knownAt)
      ensures frames[..|lower| - 1] == lower[..|lower| - 1]
      ensures c.discard ==> frames == lower
      ensures !c.discard ==> AllJoined(lattice, joined, knownAt, Flat(lower), Flat(frames))
      ensures !c.discard ==> MarkedNew(lower[|lower| - 1].types, frames[|lower| - 1].types)
      ensures !c.discard ==> (frames[|lower| - 1].unreachable <==> forall f | f in joined :: f.unreachable)
    {
      ghost var outer := contexts[..|contexts| - 1];
      assert contexts == outer + [c] && 1 < c.level && c.fallThrough <= c.level;
      assert Targets(contexts, c.level + 1, breakFrames, continueFrames, tryFrames);
      result, joined, lower, knownAt := PopFrame(c.canSkip, c.fallThrough, c.discard);
      assert |frames| == c.level;
      DropTargets(c, outer);
    }

    /** A break statement: what is known travels to the frame after the loop, and nothing falls through. */
    method HandleBreak()
      requires Valid() && ContextsOk() && breakFrames != []
      modifies this`frames, this`optionsOnReturn, this`known
      ensures Valid() && ContextsOk() && frames == Cut(old(frames)) && Flat(frames) == old(Flat(frames))
      ensures var i := breakFrames[|breakFrames| - 1];
              && 0 <= i < |old(known)| == |old(optionsOnReturn)|
              && known == old(known)[i := old(known)[i] + [Flat(frames)]]
              && optionsOnReturn == old(optionsOnReturn)[i := old(optionsOnReturn)[i] + [Flattened(old(frames), i)]]
    {
      TargetsInRange(contexts, |frames|);
      assert breakFrames[|breakFrames| - 1] in BreakTargets(contexts);
      AllowJump(breakFrames[|breakFrames| - 1]);
      Unreachable();
    }

    /** A continue statement: what is known travels to the next iteration. */
    method HandleContinue()
      requires Valid() && ContextsOk() && continueFrames != []
      modifies this`frames, this`optionsOnReturn, this`known
      ensures Valid() && ContextsOk() && frames == Cut(old(frames)) && Flat(frames) == old(Flat(frames))
      ensures var i := continueFrames[|continueFrames| - 1];
              && 0 <= i < |old(known)| == |old(optionsOnReturn)|
              && known == old(known)[i := old(known)[i] + [Flat(frames)]]
              && optionsOnReturn == old(optionsOnReturn)[i := old(optionsOnReturn)[i] + [Flattened(old(frames), i)]]
    {
      TargetsInRange(contexts, |frames|);
      assert continueFrames[|continueFrames| - 1] in ContinueTargets(contexts);
      AllowJump(continueFrames[|continueFrames| - 1]);
      Unreachable();
    }

    /**
     * An assignment: forgets what depended on the old value, records the new type if it fits the
     * declaration, and lets every enclosing try statement see the result.
     */
    method AssignType(key: Key, typ: T, declaredType: Option<T>)
      requires Valid() && ContextsOk()
      modifies this`frames, this`declarations, this`dependencies, this`optionsOnReturn, this`known
      ensures Valid() && ContextsOk() && |frames| == |old(frames)| && |known| == |old(known)|
      ensures var fits, left := declaredType.Some? && lattice.sub(typ, declaredType.value),
                Cleansed(old(frames), Dependents(old(dependencies), key));
              && frames == (if fits then WithTop(left, key, CurrentType(typ, true)) else left)
              && optionsOnReturn == if fits then WithTries(old(optionsOnReturn), frames, tryFrames)
                                    else old(optionsOnReturn)
      ensures var fits := declaredType.Some? && lattice.sub(typ, declaredType.value);
              && (forall k :: Lookup(Flat(frames), k) ==
                    if fits && k == key then Some(CurrentType(typ, true))
                    else if Within(key, k) then None else Lookup(old(Flat(frames)), k))
              && known == if fits then WithKnown(old(known), Flat(frames), tryFrames) else old(known)
    {
      InvalidateDependencies(key);
      ghost var left := frames;
      assert left == Cleansed(old(frames), Dependents(old(dependencies), key)) && |left| == |old(frames)|;
      if declaredType.Some? && lattice.sub(typ, declaredType.value) {
        Put(key, declaredType, typ, true);
        ghost var put := frames;
        JumpToTryFrames();
        assert frames == put && |optionsOnReturn| == |old(optionsOnReturn)|;
      }
    }

    /** Records a jump to every enclosing try statement. */
    method JumpToTryFrames()
      requires Valid() && ContextsOk()
      modifies this`optionsOnReturn, this`known
      ensures Valid() && |known| == |old(known)|
      ensures known == WithKnown(old(known), Flat(frames), tryFrames)
      ensures optionsOnReturn == WithTries(old(optionsOnReturn), frames, tryFrames)
    {
      TargetsInRange(contexts, |frames|);
      var left := tryFrames;
      NoTries(optionsOnReturn, known, frames, Flat(frames), tryFrames - left);
      while left != {}
        invariant left <= tryFrames && Valid() && |known| == |old(known)|
        invariant known == WithKnown(old(known), Flat(frames), tryFrames - left)
        invariant optionsOnReturn == WithTries(old(optionsOnReturn), frames, tryFrames - left)
        decreases left
      {
        var i :| i in left;
        AllowJump(i);
        OneMoreTry(old(optionsOnReturn), old(known), frames, Flat(frames), tryFrames, left, i);
        left := left - {i};
      }
      assert tryFrames - left == tryFrames;
    }
  }

  lemma NoTries<T>(options: seq<seq<Frame<T>>>, known: seq<seq<Types<T>>>, frames: seq<Frame<T>>, types: Types<T>,
      tries: set<int>)
    requires |options| < |frames| && tries == {}
    ensures WithTries(options, frames, tries) == options && WithKnown(known, types, tries) == known
  {
  }

  lemma OneMoreTry<T>(options: seq<seq<Frame<T>>>, known: seq<seq<Types<T>>>, frames: seq<Frame<T>>, types: Types<T>,
      tries: set<int>, left: set<int>, i: nat)
    requires |options| == |known| < |frames| && i in left && left <= tries && i < |options|
    ensures var now, now1 := WithTries(options, frames, tries - left), WithTries(options, frames, tries - (left - {i}));
            i < |now| && now1 == now[i := now[i] + [Flattened(frames, i)]]
    ensures var now, now1 := WithKnown(known, types, tries - left), WithKnown(known, types, tries - (left - {i}));
            i < |now| && now1 == now[i := now[i] + [types]]
  {
  }

  /** The lists, with one more item in the one that many from the end, if any. */
  ghost function Landed<A>(lists: seq<seq<A>>, fallThrough: nat, x: A): (r: seq<seq<A>>)
    requires fallThrough <= |lists|
    ensures |r| == |lists|
  {
    if fallThrough == 0 then lists
    else lists[|lists| - fallThrough := lists[|lists| - fallThrough] + [x]]
  }

  ghost function WithoutLast<A>(s: seq<A>): seq<A>
    requires s != []
  {
    s[..|s| - 1]
  }

  /** What falls off the end, to the frame that many levels below the top one. */
  ghost function Falling<T>(frames: seq<Frame<T>>, fallThrough: nat): Frame<T>
    requires fallThrough < |frames|
  {
    Flattened(frames, |frames| - 1 - fallThrough)
  }

  /** The frames, with the top one unreachable. */
  function Cut<T>(frames: seq<Frame<T>>): seq<Frame<T>>
    requires frames != []
  {
    frames[|frames| - 1 := frames[|frames| - 1].(unreachable := true)]
  }

  /** The frames, with a type for a key in the top one. */
  function WithTop<T>(frames: seq<Frame<T>>, key: Key, c: CurrentType<T>): seq<Frame<T>>
    requires frames != []
  {
    var top := frames[|frames| - 1];
    frames[|frames| - 1 := top.(types := top.types[key := c])]
  }

  /** The recorded jumps, with one more to each of these frames. */
  ghost function WithTries<T>(options: seq<seq<Frame<T>>>, frames: seq<Frame<T>>, tries: set<int>): seq<seq<Frame<T>>>
    requires |options| < |frames|
  {
    seq(|options|, i requires 0 <= i < |options| =>
          if i in tries then options[i] + [Flattened(frames, i)] else options[i])
  }

  /** What is known at the recorded jumps, with one more to each of these frames. */
  ghost function WithKnown<T>(known: seq<seq<Types<T>>>, types: Types<T>, tries: set<int>): seq<seq<Types<T>>> {
    seq(|known|, i requires 0 <= i < |known| => if i in tries then known[i] + [types] else known[i])
  }

  lemma LastList<A>(lists: seq<seq<A>>, pushed: seq<seq<A>>, after: seq<seq<A>>, x: A)
    requires pushed == lists + [[]] && after == pushed[|lists| := pushed[|lists|] + [x]]
    ensures after == lists + [[x]]
  {
    assert [] + [x] == [x];
  }

  /** What is listed as depending on a key. */
  function Dependents(dependencies: map<Key, set<Key>>, key: Key): set<Key> {
    if key in dependencies then dependencies[key] else {}
  }

  lemma MarkedTwice<T>(a: Types<T>, b: Types<T>, c: Types<T>)
    requires MarkedNew(a, b) && MarkedNew(b, c)
    ensures MarkedNew(a, c)
  {
  }

  /** What is known changes only where the top frame does. */
  lemma ChangesAtTop<T>(frames: seq<Frame<T>>, frames1: seq<Frame<T>>)
    requires |frames| == |frames1| > 0 && frames[..|frames| - 1] == frames1[..|frames| - 1]
    requires MarkedNew(frames[|frames| - 1].types, frames1[|frames| - 1].types)
    ensures ChangesMarked(Flat(frames), Flat(frames1), frames1[|frames| - 1].types)
  {
  }

  ghost predicate AllJumpsOk<T>(frames: seq<Frame<T>>, options: seq<seq<Frame<T>>>, known: seq<seq<Types<T>>>) {
    && |frames| == |options| + 1 == |known| + 1
    && forall i {:trigger options[i]} | 0 <= i < |options| :: JumpsOk(Flat(frames[..i + 1]), options[i], known[i])
  }

  /** Only declared keys are used. */
  ghost predicate Declared<T>(frames: seq<Frame<T>>, options: seq<seq<Frame<T>>>, declared: set<Key>) {
    && (forall i {:trigger frames[i]} | 0 <= i < |frames| :: frames[i].types.Keys <= declared)
    && forall i, j {:trigger options[i][j]} | 0 <= i < |options|
       && 0 <= j < |options[i]| :: options[i][j].types.Keys <= declared
  }

  ghost predicate DependsOn(dependencies: map<Key, set<Key>>, s: Key, k: Key) {
    s in dependencies && k in dependencies[s]
  }

  /** Every part of a declared key lists the key as depending on it, and nothing else is listed. */
  ghost predicate DependenciesOk(dependencies: map<Key, set<Key>>, declared: set<Key>) {
    forall s, k {:trigger DependsOn(dependencies, s, k)} ::
        DependsOn(dependencies, s, k) <==> k in declared && Within(s, k)
  }

  ghost predicate IsOrWithin(s: Key, x: Key) {
    s == x || Within(s, x)
  }

  /** Part of one of the first n parts of a key. */
  ghost predicate WithinFirst(s: Key, key: Key, n: nat)
    requires n <= |key.subs|
  {
    exists j {:trigger IsOrWithin(s, key.subs[j])} | 0 <= j < n :: IsOrWithin(s, key.subs[j])
  }

  lemma WithinNext(key: Key, n: nat)
    requires n < |key.subs|
    ensures forall s :: WithinFirst(s, key, n + 1) <==> WithinFirst(s, key, n) || IsOrWithin(s, key.subs[n])
  {
    forall s
      ensures WithinFirst(s, key, n + 1) <==> WithinFirst(s, key, n) || IsOrWithin(s, key.subs[n])
    {
      if WithinFirst(s, key, n) {
        var j :| 0 <= j < n && IsOrWithin(s, key.subs[j]);
        assert 0 <= j < n + 1;
      }
    }
  }

  lemma WithinAll(key: Key)
    ensures forall s :: WithinFirst(s, key, |key.subs|) <==> Within(s, key)
  {
    forall s
      ensures WithinFirst(s, key, |key.subs|) <==> Within(s, key)
    {
      if Within(s, key) {
        var x :| x in key.subs && (s == x || Within(s, x));
        var j :| 0 <= j < |key.subs| && key.subs[j] == x;
        assert IsOrWithin(s, key.subs[j]);
      }
      if WithinFirst(s, key, |key.subs|) {
        var j :| 0 <= j < |key.subs| && IsOrWithin(s, key.subs[j]);
        assert key.subs[j] in key.subs;
      }
    }
  }

  // What the operations do to the recorded jumps.

  lemma TopChanged<T>(frames: seq<Frame<T>>, options: seq<seq<Frame<T>>>, known: seq<seq<Types<T>>>, f: Frame<T>)
    requires AllJumpsOk(frames, options, known)
    ensures AllJumpsOk(frames[..|frames| - 1] + [f], options, known)
  {
    var after := frames[..|frames| - 1] + [f];
    forall i | 0 <= i < |options|
      ensures JumpsOk(Flat(after[..i + 1]), options[i], known[i])
    {
      assert after[..i + 1] == frames[..i + 1];
    }
  }

  lemma FramePushed<T>(frames: seq<Frame<T>>, options: seq<seq<Frame<T>>>, known: seq<seq<Types<T>>>, f: Frame<T>)
    requires AllJumpsOk(frames, options, known)
    ensures AllJumpsOk(frames + [f], options + [[]], known + [[]])
  {
    var options1 := options + [[]];
    forall i | 0 <= i < |options1|
      ensures JumpsOk(Flat((frames + [f])[..i + 1]), options1[i], (known + [[]])[i])
    {
      assert (frames + [f])[..i + 1] == frames[..i + 1];
      if i < |options| {
        assert options1[i] == options[i];
      }
    }
  }

  lemma CleansedOk<T>(frames: seq<Frame<T>>, options: seq<seq<Frame<T>>>, known: seq<seq<Types<T>>>,
      declared: set<Key>, keys: set<Key>)
    requires AllJumpsOk(frames, options, known) && Declared(frames, options, declared)
    ensures AllJumpsOk(Cleansed(frames, keys), options, known) && Declared(Cleansed(frames, keys), options, declared)
  {
    var after := Cleansed(frames, keys);
    forall i | 0 <= i < |options|
      ensures JumpsOk(Flat(after[..i + 1]), options[i], known[i])
    {
      assert after[..i + 1] == Cleansed(frames[..i + 1], keys);
      FlatCleansed(frames[..i + 1], keys);
      ForgetJumps(Flat(frames[..i + 1]), options[i], known[i], keys);
    }
    forall i | 0 <= i < |after|
      ensures after[i].types.Keys <= declared
    {
      assert frames[i].types.Keys <= declared;
    }
  }

  lemma {:induction false} DeclaredFlat<T>(frames: seq<Frame<T>>, options: seq<seq<Frame<T>>>, declared: set<Key>)
    requires Declared(frames, options, declared)
    ensures Flat(frames).Keys <= declared
    decreases |frames|
  {
    if frames != [] {
      var init := frames[..|frames| - 1];
      assert Declared(init, options, declared) by {
        forall i | 0 <= i < |init|
          ensures init[i].types.Keys <= declared
        {
          assert init[i] == frames[i];
        }
      }
      DeclaredFlat(init, options, declared);
      assert frames[|frames| - 1].types.Keys <= declared;
    }
  }

  /** What a new jump carries, with the frames it leads to, is everything that is known. */
  lemma JumpRecorded<T>(frames: seq<Frame<T>>, options: seq<seq<Frame<T>>>, known: seq<seq<Types<T>>>,
      declared: set<Key>, i: nat, frame: Frame<T>)
    requires AllJumpsOk(frames, options, known) && Declared(frames, options, declared) && i < |options|
    requires Flat(frames) == Flat(frames[..i + 1]) + frame.types && frame.types == Flat(frames[i + 1..])
    ensures var options1, known1 := options[i := options[i] + [frame]], known[i := known[i] + [Flat(frames)]];
            AllJumpsOk(frames, options1, known1) && Declared(frames, options1, declared)
  {
    var options1, known1 := options[i := options[i] + [frame]], known[i := known[i] + [Flat(frames)]];
    forall k | 0 <= k < |options1|
      ensures JumpsOk(Flat(frames[..k + 1]), options1[k], known1[k])
    {
      assert JumpsOk(Flat(frames[..k + 1]), options[k], known[k]);
      forall j | 0 <= j < |options1[k]|
        ensures JumpOk(Flat(frames[..k + 1]), options1[k][j], known1[k][j])
      {
        if j < |options[k]| {
          assert options1[k][j] == options[k][j] && known1[k][j] == known[k][j];
        }
      }
    }
    DeclaredFlat(frames, options, declared);
    forall k, j | 0 <= k < |options1| && 0 <= j < |options1[k]|
      ensures options1[k][j].types.Keys <= declared
    {
      if j < |options[k]| {
        assert options1[k][j] == options[k][j];
      } else {
        assert frame.types.Keys <= Flat(frames).Keys;
      }
    }
  }

  // The jumps that come together when a frame is left.

  ghost function Skipping<T>(frames: seq<Frame<T>>, canSkip: bool): seq<Frame<T>>
    requires |frames| > 1
  {
    if canSkip then [frames[|frames| - 2]] else []
  }

  ghost function SkippingKnown<T>(frames: seq<Frame<T>>, canSkip: bool): seq<Types<T>>
    requires |frames| > 1
  {
    if canSkip then [Flat(frames[..|frames| - 1])] else []
  }

  ghost function FallingOff<T>(frames: seq<Frame<T>>, fallThrough: nat): seq<Frame<T>>
    requires |frames| > 1
  {
    if fallThrough == 1 then [frames[|frames| - 1].(conditional := false)] else []
  }

  ghost function FallingOffKnown<T>(frames: seq<Frame<T>>, fallThrough: nat): seq<Types<T>> {
    if fallThrough == 1 then [Flat(frames)] else []
  }

  lemma TopRemoved<T>(frames: seq<Frame<T>>, options: seq<seq<Frame<T>>>, known: seq<seq<Types<T>>>, declared: set<Key>)
    requires AllJumpsOk(frames, options, known) && Declared(frames, options, declared) && |frames| > 1
    ensures var n := |frames| - 1;
            AllJumpsOk(frames[..n], options[..n - 1], known[..n - 1])
                && Declared(frames[..n], options[..n - 1], declared)
    ensures JumpsOk(Flat(frames[..|frames| - 1]), options[|options| - 1], known[|known| - 1])
  {
    var n := |frames| - 1;
    var lower, options0, known0 := frames[..n], options[..n - 1], known[..n - 1];
    forall i | 0 <= i < |options0|
      ensures JumpsOk(Flat(lower[..i + 1]), options0[i], known0[i])
    {
      assert lower[..i + 1] == frames[..i + 1];
      assert JumpsOk(Flat(frames[..i + 1]), options[i], known[i]);
    }
    forall i, j | 0 <= i < |options0| && 0 <= j < |options0[i]|
      ensures options0[i][j].types.Keys <= declared
    {
      assert options[i][j].types.Keys <= declared;
    }
    assert options[n - 1] == options[|options| - 1];
  }

  /** Skipping the frame is a jump from the frame below to itself. */
  lemma SkipIsJump<T>(frames: seq<Frame<T>>, options: seq<Frame<T>>, knownAt: seq<Types<T>>)
    requires frames != [] && JumpsOk(Flat(frames), options, knownAt)
    ensures JumpsOk(Flat(frames), [frames[|frames| - 1]] + options, [Flat(frames)] + knownAt)
  {
    var init, top := frames[..|frames| - 1], frames[|frames| - 1];
    assert Flat(frames) == Flat(init) + top.types;
    assert JumpOk(Flat(init) + top.types, top, Flat(init) + top.types);
    OneMoreJump(Flat(frames), top, Flat(frames), options, knownAt);
  }

  lemma OneMoreJump<T>(below: Types<T>, option: Frame<T>, known: Types<T>, options: seq<Frame<T>>,
      knownAt: seq<Types<T>>)
    requires JumpOk(below, option, known) && JumpsOk(below, options, knownAt)
    ensures JumpsOk(below, [option] + options, [known] + knownAt)
  {
    var options1, known1 := [option] + options, [known] + knownAt;
    forall j | 0 <= j < |options1|
      ensures JumpOk(below, options1[j], known1[j])
    {
      if j > 0 {
        assert options1[j] == options[j - 1] && known1[j] == knownAt[j - 1];
      }
    }
  }

  /** Falling off the end by one level is a jump carrying just the top frame; by more, it concerns lower levels. */
  lemma FellOff<T>(frames: seq<Frame<T>>, options: seq<seq<Frame<T>>>, known: seq<seq<Types<T>>>, fallThrough: nat)
    requires |frames| == |options| + 1 == |known| + 1 && 1 <= fallThrough <= |options|
    ensures var i, n := |options| - fallThrough, |options|;
            && options[i := options[i] + [Flattened(frames, i)]][n - 1] == options[n - 1]
               + FallingOff(frames, fallThrough)
            && known[i := known[i] + [Flat(frames)]][n - 1] == known[n - 1] + FallingOffKnown(frames, fallThrough)
  {
    if fallThrough == 1 {
      FlattenedTop(frames);
    }
  }

  lemma FlattenedTop<T>(frames: seq<Frame<T>>)
    requires |frames| > 1
    ensures Flattened(frames, |frames| - 2) == frames[|frames| - 1].(conditional := false)
  {
    var top := frames[|frames| - 1];
    assert frames[|frames| - 1..] == [] + [top];
    FlatTop([], top);
    assert Flat([] + [top]) == map[] + top.types == top.types;
    assert top in frames[|frames| - 1..];
  }

  lemma {:induction false} AllReachableSame<T(!new)>(options: seq<Frame<T>>)
    requires |Reachable(options)| == |options|
    ensures Reachable(options) == options
  {
    if options != [] {
      assert options[0] in options && !options[0].unreachable;
      AllReachableSame(options[1..]);
    }
  }

  lemma NoneReachable<T(!new)>(options: seq<Frame<T>>)
    ensures Reachable(options) == [] <==> forall f | f in options :: f.unreachable
  {
    if Reachable(options) != [] {
      assert Reachable(options)[0] in Reachable(options);
    }
    if f :| f in options && !f.unreachable {
      assert f in Reachable(options);
    }
  }

  /** What a reachable jump contributes to a join, for a key that some jump mentions. */
  lemma ValueAtJump<T(!new)>(options: seq<Frame<T>>, current: Option<CurrentType<T>>, k: Key, j: nat)
    requires j < |options| && !options[j].unreachable
    ensures (if k in options[j].types then Some(options[j].types[k])
            else current) in ValuesAt(Reachable(options), current, k)
  {
    var fs := Reachable(options);
    assert options[j] in fs;
    var i :| 0 <= i < |fs| && fs[i] == options[j];
    assert ValuesAt(fs, current, k)[i] == if k in options[j].types then Some(options[j].types[k]) else current;
  }

  /** The result of a join meets its purpose, by what recorded jumps agree with, exactly under this condition. */
  lemma UpdatedJoined<T(!new)>(l: Lattice<T>, options: seq<Frame<T>>, known: seq<Types<T>>, before: Types<T>,
      after: Types<T>, k: Key)
    requires IsLattice(l) && JumpsOk(before, options, known)
    requires Updated(l, options, Lookup(before, k), Lookup(after, k), k)
    ensures KeyJoined(l, options, known, before, after, k)
  {
    if NarrowingOnly(options, before, k) {
      OnlyNarrowed(l, options, before, Lookup(after, k), k);
      KeptFits(l, options, known, before, after, k);
    } else if k in after {
      forall j | 0 <= j < |options| && !options[j].unreachable
        ensures k in known[j] && l.sub(known[j][k].typ, after[k].typ)
      {
        AssignedBelow(l, options, known, before, after, k, j);
      }
    }
  }

  /** A key that was only narrowed keeps its type. */
  lemma OnlyNarrowed<T(!new)>(l: Lattice<T>, options: seq<Frame<T>>, before: Types<T>,
      after: Option<CurrentType<T>>, k: Key)
    requires NarrowingOnly(options, before, k) && Updated(l, options, Lookup(before, k), after, k)
    ensures after == Lookup(before, k)
  {
    forall f | f in options
      ensures !f.unreachable
    {
      var j :| 0 <= j < |options| && options[j] == f;
    }
    AllReachableSame(options);
    var values := ValuesAt(options, Lookup(before, k), k);
    forall j | 0 <= j < |values|
      ensures values[j].Some? && !values[j].value.fromAssignment
    {
      assert values[j] == if k in options[j].types then Some(options[j].types[k]) else Lookup(before, k);
    }
  }

  /** What is kept is a supertype of what was known at the jumps exactly if these fit. */
  lemma KeptFits<T(!new)>(l: Lattice<T>, options: seq<Frame<T>>, known: seq<Types<T>>, before: Types<T>,
      after: Types<T>, k: Key)
    requires IsLattice(l) && JumpsOk(before, options, known)
    requires NarrowingOnly(options, before, k) && Lookup(after, k) == Lookup(before, k)
    ensures KnownBelow(l, options, known, after, k) <==> JumpsFit(l, options, before, k)
  {
    forall j | 0 <= j < |options| && k in before
      ensures k in known[j] && known[j][k] == if k in options[j].types then options[j].types[k] else before[k]
    {
      assert JumpOk(before, options[j], known[j]);
    }
  }

  lemma AssignedBelow<T(!new)>(l: Lattice<T>, options: seq<Frame<T>>, known: seq<Types<T>>, before: Types<T>,
      after: Types<T>, k: Key, j: nat)
    requires IsLattice(l) && JumpsOk(before, options, known) && j < |options| && !options[j].unreachable
    requires Updated(l, options, Lookup(before, k), Lookup(after, k), k) && k in after
    requires !NarrowingOnly(options, before, k)
    ensures k in known[j] && l.sub(known[j][k].typ, after[k].typ)
  {
    var fs := Reachable(options);
    var values := ValuesAt(fs, Lookup(before, k), k);
    if Mentioned(fs, k) && None !in values && |fs| == |options| && AllNarrowed(values) {
      NarrowedStays(options, before, k);
      assert false;
    }
    BelowJoin(l, options, known, before, after, k, j);
  }

  lemma NarrowedStays<T(!new)>(options: seq<Frame<T>>, before: Types<T>, k: Key)
    requires |Reachable(options)| == |options| && AllNarrowed(ValuesAt(Reachable(options), Lookup(before, k), k))
    ensures NarrowingOnly(options, before, k)
  {
    AllReachableSame(options);
    var values := ValuesAt(options, Lookup(before, k), k);
    forall j | 0 <= j < |options|
      ensures !options[j].unreachable && values[j] == if k in options[j].types then Some(options[j].types[k])
              else Lookup(before, k)
    {
      assert options[j] in options;
    }
  }

  lemma BelowJoin<T(!new)>(l: Lattice<T>, options: seq<Frame<T>>, known: seq<Types<T>>, before: Types<T>,
      after: Types<T>, k: Key, j: nat)
    requires IsLattice(l) && JumpsOk(before, options, known) && j < |options| && !options[j].unreachable
    requires Updated(l, options, Lookup(before, k), Lookup(after, k), k) && k in after
    requires var fs := Reachable(options); var values := ValuesAt(fs, Lookup(before, k), k);
             !(Mentioned(fs, k) && None !in values && |fs| == |options| && AllNarrowed(values))
    ensures k in known[j] && l.sub(known[j][k].typ, after[k].typ)
  {
    assert JumpOk(before, options[j], known[j]);
    ValueAtJump(options, Lookup(before, k), k, j);
    assert options[j] in Reachable(options);
  }

  /** A variable of type a. */
  method Assigned<T(==,!new)>(lattice: Lattice<T>, x: Key, declared: T, a: T) returns (binder: ConditionalTypeBinder<T>)
    requires IsLattice(lattice)
    ensures fresh(binder) && binder.Valid() && binder.ContextsOk() && binder.contexts == []
    ensures binder.lattice == lattice && |binder.frames| == 2 && binder.tryFrames == {}
    ensures Lookup(Flat(binder.frames), x) == Some(CurrentType(a, true))
  {
    binder := new ConditionalTypeBinder(lattice);
    binder.PushFrame(false);
    binder.Put(x, Some(declared), a, true);
  }

  /** Inside a context the variable is assigned a b, which a condition then confirms. */
  method AssignThenTest<T(==,!new)>(binder: ConditionalTypeBinder<T>, x: Key, declared: T, b: T)
    requires binder.Valid() && binder.ContextsOk() && |binder.frames| == 2
    modifies binder
    ensures binder.Valid() && |binder.frames| == 3 && binder.frames[..2] == old(binder.frames)
    ensures binder.frames[2] == Frame(map[x := CurrentType(b, false)], false, false) && binder.known[1] == []
    ensures binder.ContextsOk() && binder.tryFrames == old(binder.tryFrames)
  {
    binder.Enter(Context(false, 1, 0, 0, false, false, false, |binder.frames|));
    binder.Put(x, Some(declared), b, true);
    binder.Put(x, Some(declared), b, false);
  }

  /**
   * The exception is needed: a condition tested after an assignment hides the assignment. Here the
   * only jump knows x to have type b, and afterwards x still has the unrelated type a from before.
   */
  method NarrowingHidesAssignment<T(==,!new)>(lattice: Lattice<T>, x: Key, declared: T, a: T, b: T)
    returns (atJump: Option<CurrentType<T>>, after: Option<CurrentType<T>>)
    requires IsLattice(lattice) && lattice.sub(a, declared) && lattice.sub(b, declared) && !lattice.sub(b, a)
    ensures atJump == Some(CurrentType(b, false)) && after == Some(CurrentType(a, true))
  {
    var binder := Assigned(lattice, x, declared, a);
    AssignThenTest(binder, x, declared, b);
    WholeStack(binder.frames);
    assert binder.frames == binder.frames[..2] + [binder.frames[2]];
    FlatTop(binder.frames[..2], binder.frames[2]);
    atJump := binder.Get(x, 2);
    after := LeaveTested(binder, x, CurrentType(a, true), CurrentType(b, false));
  }

  /** Inside it there is a context that can be skipped, in which the variable is assigned a b once more. */
  method AssignInside<T(==,!new)>(binder: ConditionalTypeBinder<T>, c: Context, x: Key, declared: T, b: T)
    requires binder.Valid() && binder.ContextsOk() && |binder.frames| == 3 && binder.lattice.sub(b, declared)
    requires c == Context(true, 1, 0, 0, false, false, false, 3) && binder.tryFrames == {}
    modifies binder
    ensures binder.Valid() && binder.ContextsOk() && |binder.frames| == 4
    ensures binder.contexts == old(binder.contexts) + [c]
    ensures binder.frames[3] == Frame(map[x := CurrentType(b, true)], false, false)
    ensures Lookup(binder.frames[2].types, x) == Lookup(old(binder.frames[2]).types, x)
    ensures binder.frames[2].unreachable == old(binder.frames[2]).unreachable
    ensures Lookup(Flat(binder.frames[..2]), x) == Lookup(Flat(old(binder.frames)[..2]), x)
    ensures binder.known == old(binder.known) + [[]] && binder.optionsOnReturn == old(binder.optionsOnReturn) + [[]]
  {
    binder.Enter(c);
    ghost var entered, dependents := binder.frames, Dependents(binder.dependencies, x);
    ghost var options, known := binder.optionsOnReturn, binder.known;
    assert entered[..2] == old(binder.frames)[..2];
    NotDependent(binder.dependencies, binder.declarations.Keys, x);
    binder.AssignType(x, b, Some(declared));
    NoTries(options, known, binder.frames, Flat(binder.frames), binder.tryFrames);
    AssignedAgain(entered, binder.frames, dependents, x, b);
  }

  method AssignAgain<T(==,!new)>(binder: ConditionalTypeBinder<T>, x: Key, declared: T, b: T)
    requires binder.Valid() && binder.ContextsOk() && |binder.frames| == 3 && binder.lattice.sub(b, declared)
    requires Lookup(binder.frames[2].types, x) == Some(CurrentType(b, false)) && !binder.frames[2].unreachable
    requires binder.known[1] == [] && binder.tryFrames == {}
    modifies binder
    ensures binder.Valid() && |binder.frames| == 3
    ensures Lookup(Flat(binder.frames[..2]), x) == Lookup(Flat(old(binder.frames)[..2]), x)
    ensures Lookup(binder.frames[2].types, x) == Some(CurrentType(b, false)) && !binder.frames[2].unreachable
    ensures binder.known[1] == []
  {
    var c := Context(true, 1, 0, 0, false, false, false, 3);
    AssignInside(binder, c, x, declared, b);
    LeaveAgain(binder, c, x, b);
  }

  method LeaveAgain<T(==,!new)>(binder: ConditionalTypeBinder<T>, c: Context, x: Key, ghost b: T)
    requires binder.Valid() && binder.ContextsOk() && |binder.frames| == 4
    requires c == Context(true, 1, 0, 0, false, false, false, 3)
             && binder.contexts != [] && c == binder.contexts[|binder.contexts| - 1]
    requires Lookup(binder.frames[2].types, x) == Some(CurrentType(b, false)) && !binder.frames[2].unreachable
    requires binder.frames[3] == Frame(map[x := CurrentType(b, true)], false, false)
    requires binder.optionsOnReturn[2] == [] && binder.known[1] == []
    modifies binder
    ensures binder.Valid() && |binder.frames| == 3
    ensures Flat(binder.frames[..2]) == Flat(old(binder.frames)[..2])
    ensures Lookup(binder.frames[2].types, x) == Some(CurrentType(b, false)) && !binder.frames[2].unreachable
    ensures binder.known[1] == []
  {
    ghost var before, known := binder.frames, binder.known;
    var result, joined, lower, knownAt := binder.Exit(c);
    LandedBelow(known, Flat(before), 1);
    LeftAgain(binder.lattice, before, joined, lower, binder.frames, x, b);
  }

  lemma LandedBelow<A>(lists: seq<seq<A>>, x: A, i: nat)
    requires i < |lists| - 1
    ensures WithoutLast(Landed(lists, 1, x))[i] == lists[i]
  {
  }

  lemma LeftAgain<T(!new)>(l: Lattice<T>, before: seq<Frame<T>>, joined: seq<Frame<T>>, lower: seq<Frame<T>>,
      after: seq<Frame<T>>, x: Key, b: T)
    requires IsLattice(l) && |before| == 4 && lower == before[..3] && |after| == 3 && after[..2] == lower[..2]
    requires joined == [before[2]] + ([] + [before[3].(conditional := false)])
    requires Lookup(before[2].types, x) == Some(CurrentType(b, false)) && !before[2].unreachable
    requires before[3] == Frame(map[x := CurrentType(b, true)], false, false)
    requires Updated(l, joined, Lookup(Flat(lower), x), Lookup(Flat(after), x), x)
    requires MarkedNew(lower[2].types, after[2].types)
    requires after[2].unreachable <==> forall f | f in joined :: f.unreachable
    ensures Flat(after[..2]) == Flat(before[..2])
    ensures Lookup(after[2].types, x) == Some(CurrentType(b, false)) && !after[2].unreachable
  {
    var f, g, below := before[2], before[3], Flat(before[..2]);
    assert lower[..2] == before[..2] && joined == [f, g];
    FlatNext(before, 2);
    assert Flat(lower) == below + f.types && Flat(after) == below + after[2].types;
    SkippedOrAssigned(l, below, f, g, after[2], x, b);
    assert joined[0] in joined;
  }

  lemma NotDependent(dependencies: map<Key, set<Key>>, declared: set<Key>, x: Key)
    requires DependenciesOk(dependencies, declared)
    ensures x !in Dependents(dependencies, x)
  {
    NotWithinItself(x);
    assert !DependsOn(dependencies, x, x);
  }

  lemma AssignedAgain<T>(entered: seq<Frame<T>>, after: seq<Frame<T>>, keys: set<Key>, x: Key, b: T)
    requires |entered| == 4 && after == WithTop(Cleansed(entered, keys), x, CurrentType(b, true)) && x !in keys
    requires entered[3] == Frame(map[], false, false)
    ensures after[3] == Frame(map[x := CurrentType(b, true)], false, false)
    ensures Lookup(after[2].types, x) == Lookup(entered[2].types, x) && after[2].unreachable == entered[2].unreachable
    ensures Lookup(Flat(after[..2]), x) == Lookup(Flat(entered[..2]), x)
  {
    assert after[..2] == Cleansed(entered[..2], keys);
    FlatCleansed(entered[..2], keys);
    assert entered[3].types - keys == map[];
  }

  /** Both paths know a b for x, so that nothing is stored. */
  lemma SkippedOrAssigned<T(!new)>(l: Lattice<T>, lower: Types<T>, f: Frame<T>, g: Frame<T>, after: Frame<T>, x: Key,
      b: T)
    requires IsLattice(l) && Lookup(f.types, x) == Some(CurrentType(b, false)) && !f.unreachable
    requires g == Frame(map[x := CurrentType(b, true)], false, false)
    requires Updated(l, [f, g], Lookup(lower + f.types, x), Lookup(lower + after.types, x), x)
    requires MarkedNew(f.types, after.types)
    ensures Lookup(after.types, x) == Some(CurrentType(b, false))
  {
    assert Lookup(lower + f.types, x) == Lookup(f.types, x);
    assert Lookup(lower + after.types, x) == Lookup(after.types, x);
    NothingNew(l, f, g, Lookup(after.types, x), x, b);
  }

  lemma FlatNext<T>(frames: seq<Frame<T>>, n: nat)
    requires n < |frames|
    ensures Flat(frames[..n + 1]) == Flat(frames[..n]) + frames[n].types
  {
    assert frames[..n + 1][..n] == frames[..n];
  }

  lemma NothingNew<T(!new)>(l: Lattice<T>, f: Frame<T>, g: Frame<T>, after: Option<CurrentType<T>>, x: Key, b: T)
    requires IsLattice(l) && !f.unreachable && !g.unreachable
    requires Lookup(f.types, x) == Some(CurrentType(b, false)) && Lookup(g.types, x) == Some(CurrentType(b, true))
    requires Updated(l, [f, g], Lookup(f.types, x), after, x)
    ensures after == Lookup(f.types, x)
  {
    var current, joined := Lookup(f.types, x), [f, g];
    BothReachable(f, g);
    assert joined[1] in joined && Mentioned(joined, x);
    var values := ValuesAt(joined, current, x);
    assert values == [current, Some(CurrentType(b, true))];
    assert values[1].value.fromAssignment && !AllNarrowed(values) && None !in values;
    assert KeyResult(l, joined, true, current, after, x);
    assert TypesOf(values) == [b, b];
    JoinTwice(l, b);
  }

  lemma BothReachable<T(!new)>(f: Frame<T>, g: Frame<T>)
    requires !f.unreachable && !g.unreachable
    ensures Reachable([f, g]) == [f, g]
  {
    assert [f, g][1..] == [g] && [g][1..] == [];
  }

  lemma JoinTwice<T(!new)>(l: Lattice<T>, b: T)
    ensures Join(l, [b, b]) == b
  {
    assert [b, b][1..] == [b] && [b][1..] == [] && [] + [b] == [b];
    assert Dedupe([b], [b]) == [];
    assert Dedupe([b, b], []) == [b];
  }

  /** A key is no part of itself. */
  function Depth(k: Key): nat
    decreases k, 1
  {
    1 + MaxDepth(k, |k.subs|)
  }

  function MaxDepth(k: Key, n: nat): nat
    requires n <= |k.subs|
    decreases k, 0, n
  {
    if n == 0 then 0
    else
      var rest := MaxDepth(k, n - 1);
      if Depth(k.subs[n - 1]) > rest then Depth(k.subs[n - 1]) else rest
  }

  lemma {:induction false} SubShallower(k: Key, n: nat, j: nat)
    requires j < n <= |k.subs|
    ensures Depth(k.subs[j]) <= MaxDepth(k, n)
    decreases n
  {
    if j < n - 1 {
      SubShallower(k, n - 1, j);
    }
  }

  lemma {:induction false} WithinShallower(s: Key, k: Key)
    requires Within(s, k)
    ensures Depth(s) < Depth(k)
    decreases k
  {
    var x :| x in k.subs && (s == x || Within(s, x));
    var j :| 0 <= j < |k.subs| && k.subs[j] == x;
    SubShallower(k, |k.subs|, j);
    if s != x {
      WithinShallower(s, x);
    }
  }

  lemma NotWithinItself(k: Key)
    ensures !Within(k, k)
  {
    if Within(k, k) {
      WithinShallower(k, k);
    }
  }

  /**
   * Even an assignment after which no condition narrows is hidden, if one was narrowed before it: a
   * path assigns x a b at last, and afterwards x still has the unrelated type a from before.
   */
  method TestHidesLaterAssignment<T(==,!new)>(lattice: Lattice<T>, x: Key, declared: T, a: T, b: T)
    returns (after: Option<CurrentType<T>>)
    requires IsLattice(lattice) && lattice.sub(a, declared) && lattice.sub(b, declared) && !lattice.sub(b, a)
    ensures after == Some(CurrentType(a, true))
  {
    var binder := Assigned(lattice, x, declared, a);
    AssignThenTest(binder, x, declared, b);
    AssignAgain(binder, x, declared, b);
    after := LeaveTested(binder, x, CurrentType(a, true), CurrentType(b, false));
  }

  method LeaveTested<T(==,!new)>(binder: ConditionalTypeBinder<T>, x: Key, ghost a: CurrentType<T>,
      ghost b: CurrentType<T>)
    returns (after: Option<CurrentType<T>>)
    requires binder.Valid() && |binder.frames| == 3 && Lookup(Flat(binder.frames[..2]), x) == Some(a)
    requires Lookup(binder.frames[2].types, x) == Some(b) && !binder.frames[2].unreachable
    requires binder.known[1] == [] && !b.fromAssignment
    modifies binder
    ensures after == Some(a)
  {
    assert JumpsOk(Flat(binder.frames[..2]), binder.optionsOnReturn[1], binder.known[1]);
    ghost var top := binder.frames[2];
    var result, joined, lower, knownAt := binder.PopFrame(false, 1, false);
    assert joined == [top.(conditional := false)];
    OneNarrowed(binder.lattice, joined, x, Some(a), Lookup(Flat(binder.frames), x));
    WholeStack(binder.frames);
    after := binder.Get(x, 1);
  }

  lemma OneNarrowed<T(!new)>(l: Lattice<T>, joined: seq<Frame<T>>, x: Key, before: Option<CurrentType<T>>,
      after: Option<CurrentType<T>>)
    requires |joined| == 1 && !joined[0].unreachable && x in joined[0].types && !joined[0].types[x].fromAssignment
    requires Updated(l, joined, before, after, x)
    ensures after == before
  {
    assert Reachable(joined) == [joined[0]] + Reachable(joined[1..]);
    assert joined[0] in Reachable(joined);
    assert Mentioned(Reachable(joined), x);
  }

  lemma WholeStack<T>(frames: seq<Frame<T>>)
    ensures frames[..|frames|] == frames
  {
  }
}
