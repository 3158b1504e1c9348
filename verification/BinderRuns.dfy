// Runs of the binder, with a record of assignments: for every program point, which assignments are
// the last thing done to their key on some path that reaches it.
module BinderRuns {
  import opened Text
  import opened Binder

  /** Whether a point can be reached, and the assignments that come last on some path to it. */
  datatype Trail<!T(==)> = Trail(live: bool, last: iset<(Key, T)>)

  /**
   * The record: at this point, where each context was entered, and at the recorded jumps. A key is
   * loose in a context if since its beginning a condition has narrowed the key to a type that does not
   * fit the one known below it.
   */
  datatype Log<!T(==)> = Log(now: Trail<T>, entries: seq<Trail<T>>, jumps: seq<seq<Trail<T>>>, loose: seq<set<Key>>)

  datatype Stack<T> = Stack(frames: seq<Frame<T>>, options: seq<seq<Frame<T>>>, known: seq<seq<Types<T>>>)

  /** What happens to the binder while a program is checked. */
  datatype Op<T> =
    | Assign(key: Key, typ: T, declared: Option<T>)
    | Narrow(key: Key, declared: Option<T>, typ: T)
    | Stop
    | Enter(c: Context)
    | Leave
    | Break
    | Continue

  // The record.

  ghost function Nowhere<T(!new)>(): Trail<T> {
    Trail(false, iset{})
  }

  /** An assignment is the last thing done to its key, and what contains the key is another thing now. */
  ghost function AfterAssign<T(!new)>(r: Trail<T>, key: Key, typ: T, fits: bool): Trail<T> {
    if !r.live then r
    else
      var others := iset p | p in r.last && p.0 != key && !Within(key, p.0);
      r.(last := if fits then others + iset{(key, typ)} else others)
  }

  ghost function AfterNarrow<T(!new)>(r: Trail<T>, key: Key): Trail<T> {
    r.(last := iset p | p in r.last && p.0 != key)
  }

  ghost predicate Misfit<T(!new)>(l: Lattice<T>, below: Types<T>, key: Key, typ: T) {
    key in below && !l.sub(typ, below[key].typ)
  }

  /** Where paths come together; what a narrowing in the context may have hidden is not counted. */
  ghost function Together<T(!new)>(l: Lattice<T>, rs: seq<Trail<T>>, below: Types<T>, loose: set<Key>): Trail<T> {
    Trail(exists r | r in rs :: r.live,
          iset p | (exists r | r in rs :: p in r.last) && !(p.0 in loose && Misfit(l, below, p.0, p.1)))
  }

  /** If no narrowing has hidden anything, every assignment that comes last on some path is counted. */
  lemma NothingHidden<T(!new)>(l: Lattice<T>, rs: seq<Trail<T>>, below: Types<T>, r: Trail<T>, key: Key, typ: T)
    requires r in rs && (key, typ) in r.last
    ensures (key, typ) in Together(l, rs, below, {}).last
    ensures forall loose | key !in loose :: (key, typ) in Together(l, rs, below, loose).last
    ensures forall loose | (key in below ==> l.sub(typ, below[key].typ)) ::
              (key, typ) in Together(l, rs, below, loose).last
  {
  }

  ghost function Loosened<T(!new)>(l: Lattice<T>, frames: seq<Frame<T>>, loose: seq<set<Key>>, key: Key,
      typ: T): seq<set<Key>>
    requires |loose| < |frames|
  {
    seq(|loose|, i requires 0 <= i < |loose| =>
          if Misfit(l, Flat(frames[..i + 1]), key, typ) then loose[i] + {key} else loose[i])
  }

  ghost function JumpsTo<T>(jumps: seq<seq<Trail<T>>>, at: set<int>, r: Trail<T>): seq<seq<Trail<T>>> {
    seq(|jumps|, i requires 0 <= i < |jumps| => if i in at then jumps[i] + [r] else jumps[i])
  }

  ghost function LeaveLog<T(!new)>(l: Lattice<T>, below: Types<T>, log: Log<T>, c: Context): Log<T>
    requires |log.entries| == |log.jumps| == |log.loose| > 0 && c.fallThrough <= |log.jumps|
  {
    var n := |log.jumps| - 1;
    var fallen := Landed(log.jumps, c.fallThrough, log.now);
    var rs := (if c.canSkip then [log.entries[n]] else []) + fallen[n];
    Log(if c.discard then log.entries[n] else Together(l, rs, below, log.loose[n]),
        log.entries[..n], fallen[..n], log.loose[..n])
  }

  // What the record has to do with the binder.

  /** Whatever was assigned last on some path, its key is unknown or known with a supertype. */
  ghost predicate Holds<T(!new)>(l: Lattice<T>, r: Trail<T>, types: Types<T>) {
    && (!r.live ==> r.last == iset{})
    && forall p {:trigger p in r.last} | p in r.last && p.0 in types :: l.sub(p.1, types[p.0].typ)
  }

  ghost predicate Dead<T>(frames: seq<Frame<T>>) {
    exists f | f in frames :: f.unreachable
  }

  /** A type that was only narrowed fits the one below, unless the key is loose. */
  ghost predicate Excused<T(!new)>(l: Lattice<T>, upper: Types<T>, below: Types<T>, loose: set<Key>) {
    forall k | k in upper && !upper[k].fromAssignment && Misfit(l, below, k, upper[k].typ) :: k in loose
  }

  ghost predicate JumpLogged<T(!new)>(l: Lattice<T>, option: Frame<T>, known: Types<T>, r: Trail<T>, below: Types<T>,
      dead: bool, loose: set<Key>)
  {
    Holds(l, r, known) && (option.unreachable || dead ==> !r.live) && Excused(l, option.types, below, loose)
  }

  ghost predicate UpperOk<T(!new)>(l: Lattice<T>, frames: seq<Frame<T>>, i: nat, p: nat, loose: set<Key>)
    requires i < p < |frames|
  {
    Excused(l, Flat(frames[i + 1..p + 1]), Flat(frames[..i + 1]), loose)
  }

  /** One level: the entry of its context, the jumps to it, and the frames above it. */
  ghost predicate LevelOk<T(!new)>(l: Lattice<T>, frames: seq<Frame<T>>, options: seq<Frame<T>>, known: seq<Types<T>>,
      i: nat, entry: Trail<T>, jumps: seq<Trail<T>>, loose: set<Key>)
    requires i < |frames|
  {
    && Holds(l, entry, Flat(frames[..i + 1])) && (Dead(frames[..i + 1]) ==> !entry.live)
    && |options| == |known| == |jumps|
    && (forall j {:trigger jumps[j]} | 0 <= j < |jumps| ::
          JumpLogged(l, options[j], known[j], jumps[j], Flat(frames[..i + 1]), Dead(frames[..i + 1]), loose))
    && forall p {:trigger UpperOk(l, frames, i, p, loose)} | i < p < |frames| :: UpperOk(l, frames, i, p, loose)
  }

  ghost predicate Sized<T>(s: Stack<T>, log: Log<T>) {
    && |s.frames| == |s.options| + 1 == |s.known| + 1
    && |log.entries| == |log.jumps| == |log.loose| == |s.options|
  }

  ghost predicate LogOk<T(!new)>(l: Lattice<T>, s: Stack<T>, log: Log<T>) {
    && Sized(s, log) && Holds(l, log.now, Flat(s.frames)) && (Dead(s.frames) ==> !log.now.live)
    && forall i {:trigger log.entries[i]} | 0 <= i < |s.options| ::
         LevelOk(l, s.frames, s.options[i], s.known[i], i, log.entries[i], log.jumps[i], log.loose[i])
  }

  // One level.

  lemma DeadPart<T>(frames: seq<Frame<T>>, i: nat, j: nat)
    requires i <= j <= |frames| && Dead(frames[i..j])
    ensures Dead(frames)
  {
    var f :| f in frames[i..j] && f.unreachable;
    assert f in frames;
  }

  lemma DeadCleansed<T>(frames: seq<Frame<T>>, keys: set<Key>)
    ensures Dead(Cleansed(frames, keys)) <==> Dead(frames)
  {
    var after := Cleansed(frames, keys);
    if Dead(after) {
      var i :| 0 <= i < |after| && after[i].unreachable;
      assert frames[i] in frames;
    }
    if Dead(frames) {
      var i :| 0 <= i < |frames| && frames[i].unreachable;
      assert after[i] in after;
    }
  }

  lemma CleansedSlice<T>(frames: seq<Frame<T>>, keys: set<Key>, i: nat, j: nat)
    requires i <= j <= |frames|
    ensures Cleansed(frames, keys)[i..j] == Cleansed(frames[i..j], keys)
    ensures Flat(Cleansed(frames, keys)[i..j]) == Flat(frames[i..j]) - keys
    ensures Dead(Cleansed(frames, keys)[i..j]) <==> Dead(frames[i..j])
  {
    FlatCleansed(frames[i..j], keys);
    DeadCleansed(frames[i..j], keys);
  }

  lemma CleansedPrefix<T>(frames: seq<Frame<T>>, keys: set<Key>, n: nat)
    requires n <= |frames|
    ensures Flat(Cleansed(frames, keys)[..n]) == Flat(frames[..n]) - keys
    ensures Dead(Cleansed(frames, keys)[..n]) <==> Dead(frames[..n])
  {
    assert Cleansed(frames, keys)[..n] == Cleansed(frames[..n], keys);
    FlatCleansed(frames[..n], keys);
    DeadCleansed(frames[..n], keys);
  }

  lemma SamePart<A>(a: seq<A>, b: seq<A>, n: nat, i: nat, j: nat)
    requires n <= |a| && n <= |b| && a[..n] == b[..n] && i <= j <= n
    ensures a[i..j] == b[i..j] && a[..j] == b[..j]
  {
    assert a[i..j] == a[..n][i..j] && b[i..j] == b[..n][i..j];
    assert a[..j] == a[..n][..j] && b[..j] == b[..n][..j];
  }

  lemma ToEnd<A>(a: seq<A>, i: nat, j: nat)
    requires i <= j == |a|
    ensures a[i..j] == a[i..]
  {
  }

  lemma OnlyItem<A>(x: A)
    ensures [] + [x] == [x]
  {
  }

  lemma JumpForgets<T(!new)>(l: Lattice<T>, option: Frame<T>, known: Types<T>, r: Trail<T>, below: Types<T>,
      dead: bool, loose: set<Key>, keys: set<Key>)
    requires JumpLogged(l, option, known, r, below, dead, loose)
    ensures JumpLogged(l, option, known, r, below - keys, dead, loose)
  {
  }

  lemma UpperForgets<T(!new)>(l: Lattice<T>, frames: seq<Frame<T>>, i: nat, p: nat, loose: set<Key>, keys: set<Key>)
    requires i < p < |frames| && UpperOk(l, frames, i, p, loose)
    ensures UpperOk(l, Cleansed(frames, keys), i, p, loose)
  {
    var below, upper := Flat(frames[..i + 1]), Flat(frames[i + 1..p + 1]);
    CleansedPrefix(frames, keys, i + 1);
    CleansedSlice(frames, keys, i + 1, p + 1);
    ExcusedForgets(l, upper, below, loose, keys);
    UpperFrom(l, Cleansed(frames, keys), i, p, loose, upper - keys, below - keys);
  }

  lemma UpperFrom<T(!new)>(l: Lattice<T>, frames: seq<Frame<T>>, i: nat, p: nat, loose: set<Key>, upper: Types<T>,
      below: Types<T>)
    requires i < p < |frames| && upper == Flat(frames[i + 1..p + 1]) && below == Flat(frames[..i + 1])
    requires Excused(l, upper, below, loose)
    ensures UpperOk(l, frames, i, p, loose)
  {
  }

  lemma ExcusedForgets<T(!new)>(l: Lattice<T>, upper: Types<T>, below: Types<T>, loose: set<Key>, keys: set<Key>)
    requires Excused(l, upper, below, loose)
    ensures Excused(l, upper - keys, below - keys, loose)
  {
  }

  lemma CleansedLevel<T(!new)>(l: Lattice<T>, frames: seq<Frame<T>>, options: seq<Frame<T>>, known: seq<Types<T>>,
      i: nat, entry: Trail<T>, jumps: seq<Trail<T>>, loose: set<Key>, keys: set<Key>)
    requires i < |frames| && LevelOk(l, frames, options, known, i, entry, jumps, loose)
    ensures LevelOk(l, Cleansed(frames, keys), options, known, i, entry, jumps, loose)
  {
    var after, below, dead := Cleansed(frames, keys), Flat(frames[..i + 1]), Dead(frames[..i + 1]);
    CleansedPrefix(frames, keys, i + 1);
    assert Flat(after[..i + 1]) == below - keys && (Dead(after[..i + 1]) <==> dead);
    forall j | 0 <= j < |jumps|
      ensures JumpLogged(l, options[j], known[j], jumps[j], below - keys, dead, loose)
    {
      assert JumpLogged(l, options[j], known[j], jumps[j], below, dead, loose);
      JumpForgets(l, options[j], known[j], jumps[j], below, dead, loose, keys);
    }
    forall p | i < p < |after|
      ensures UpperOk(l, after, i, p, loose)
    {
      assert UpperOk(l, frames, i, p, loose);
      UpperForgets(l, frames, i, p, loose, keys);
    }
    LevelFrom(l, after, options, known, i, entry, jumps, loose, below - keys, dead);
  }

  lemma LevelFrom<T(!new)>(l: Lattice<T>, frames: seq<Frame<T>>, options: seq<Frame<T>>, known: seq<Types<T>>,
      i: nat, entry: Trail<T>, jumps: seq<Trail<T>>, loose: set<Key>, below: Types<T>, dead: bool)
    requires i < |frames| && Flat(frames[..i + 1]) == below && (Dead(frames[..i + 1]) <==> dead)
    requires Holds(l, entry, below) && (dead ==> !entry.live) && |options| == |known| == |jumps|
    requires forall j {:trigger jumps[j]} | 0 <= j < |jumps| ::
               JumpLogged(l, options[j], known[j], jumps[j], below, dead, loose)
    requires forall p {:trigger UpperOk(l, frames, i, p, loose)} | i < p < |frames| :: UpperOk(l, frames, i, p, loose)
    ensures LevelOk(l, frames, options, known, i, entry, jumps, loose)
  {
  }

  /** The top frame is another one. */
  lemma TopLevel<T(!new)>(l: Lattice<T>, frames: seq<Frame<T>>, frames1: seq<Frame<T>>, options: seq<Frame<T>>,
      known: seq<Types<T>>, i: nat, entry: Trail<T>, jumps: seq<Trail<T>>, loose: set<Key>, loose1: set<Key>)
    requires i < |frames| - 1 && LevelOk(l, frames, options, known, i, entry, jumps, loose) && loose <= loose1
    requires |frames1| == |frames| && frames1[..|frames| - 1] == frames[..|frames| - 1]
    requires Excused(l, Flat(frames1[i + 1..]), Flat(frames[..i + 1]), loose1)
    ensures LevelOk(l, frames1, options, known, i, entry, jumps, loose1)
  {
    var n := |frames| - 1;
    SamePart(frames1, frames, n, 0, i + 1);
    forall j | 0 <= j < |jumps|
      ensures JumpLogged(l, options[j], known[j], jumps[j], Flat(frames[..i + 1]), Dead(frames[..i + 1]), loose1)
    {
      assert JumpLogged(l, options[j], known[j], jumps[j], Flat(frames[..i + 1]), Dead(frames[..i + 1]), loose);
    }
    forall p | i < p < |frames1|
      ensures UpperOk(l, frames1, i, p, loose1)
    {
      assert UpperOk(l, frames, i, p, loose);
      if p < n {
        SamePart(frames1, frames, n, i + 1, p + 1);
      } else {
        ToEnd(frames1, i + 1, p + 1);
      }
    }
  }

  /** The frames above a level, when new types at the top are marked. */
  lemma MarkedUpper<T(!new)>(l: Lattice<T>, frames: seq<Frame<T>>, frames1: seq<Frame<T>>, i: nat, loose: set<Key>)
    requires i < |frames| - 1 && UpperOk(l, frames, i, |frames| - 1, loose)
    requires |frames1| == |frames| && frames1[..|frames| - 1] == frames[..|frames| - 1]
    requires MarkedNew(frames[|frames| - 1].types, frames1[|frames| - 1].types)
    ensures Excused(l, Flat(frames1[i + 1..]), Flat(frames[..i + 1]), loose)
  {
    var n := |frames| - 1;
    UpperTop(frames, i);
    UpperTop(frames1, i);
    SamePart(frames1, frames, n, i + 1, n);
    ToEnd(frames, i + 1, n + 1);
  }

  lemma UpperTop<T>(frames: seq<Frame<T>>, i: nat)
    requires i < |frames| - 1
    ensures Flat(frames[i + 1..]) == Flat(frames[i + 1..|frames| - 1]) + frames[|frames| - 1].types
  {
    assert frames[i + 1..] == frames[i + 1..|frames| - 1] + [frames[|frames| - 1]];
    FlatTop(frames[i + 1..|frames| - 1], frames[|frames| - 1]);
  }

  lemma PushedLevel<T(!new)>(l: Lattice<T>, frames: seq<Frame<T>>, f: Frame<T>, options: seq<Frame<T>>,
      known: seq<Types<T>>, i: nat, entry: Trail<T>, jumps: seq<Trail<T>>, loose: set<Key>)
    requires i < |frames| - 1 && LevelOk(l, frames, options, known, i, entry, jumps, loose) && f.types == map[]
    ensures LevelOk(l, frames + [f], options, known, i, entry, jumps, loose)
  {
    var after := frames + [f];
    assert after[..i + 1] == frames[..i + 1];
    forall p | i < p < |after|
      ensures UpperOk(l, after, i, p, loose)
    {
      if p < |frames| {
        assert UpperOk(l, frames, i, p, loose);
        assert after[i + 1..p + 1] == frames[i + 1..p + 1];
      } else {
        assert UpperOk(l, frames, i, p - 1, loose);
        assert after[i + 1..p + 1] == frames[i + 1..p] + [f];
        FlatTop(frames[i + 1..p], f);
        assert Flat(after[i + 1..p + 1]) == Flat(frames[i + 1..p]);
      }
    }
  }

  /** One frame fewer. */
  lemma DroppedLevel<T(!new)>(l: Lattice<T>, frames: seq<Frame<T>>, n: nat, options: seq<Frame<T>>,
      known: seq<Types<T>>, i: nat, entry: Trail<T>, jumps: seq<Trail<T>>, loose: set<Key>)
    requires i < n <= |frames| && LevelOk(l, frames, options, known, i, entry, jumps, loose)
    ensures LevelOk(l, frames[..n], options, known, i, entry, jumps, loose)
  {
    var after := frames[..n];
    assert after[..i + 1] == frames[..i + 1];
    forall p | i < p < |after|
      ensures UpperOk(l, after, i, p, loose)
    {
      assert UpperOk(l, frames, i, p, loose);
      assert after[i + 1..p + 1] == frames[i + 1..p + 1];
    }
  }

  /** A point from which a dead jump is made, or that is in a dead part, cannot be reached. */
  lemma DeadJump<T>(frames: seq<Frame<T>>, i: nat)
    requires i < |frames| - 1 && (Dead(frames[..i + 1]) || Flattened(frames, i).unreachable)
    ensures Dead(frames)
  {
    if Dead(frames[..i + 1]) {
      assert frames[..i + 1] == frames[0..i + 1];
      DeadPart(frames, 0, i + 1);
    } else {
      assert frames[i + 1..] == frames[i + 1..|frames|];
      DeadPart(frames, i + 1, |frames|);
    }
  }

  lemma UpperAll<T(!new)>(l: Lattice<T>, frames: seq<Frame<T>>, i: nat, loose: set<Key>)
    requires i < |frames| - 1 && UpperOk(l, frames, i, |frames| - 1, loose)
    ensures Excused(l, Flattened(frames, i).types, Flat(frames[..i + 1]), loose)
  {
    assert frames[i + 1..|frames| - 1 + 1] == frames[i + 1..];
  }

  /** A jump from where things are. */
  lemma JumpNow<T(!new)>(l: Lattice<T>, frames: seq<Frame<T>>, i: nat, loose: set<Key>, now: Trail<T>)
    requires i < |frames| - 1 && UpperOk(l, frames, i, |frames| - 1, loose)
    requires Holds(l, now, Flat(frames)) && (Dead(frames) ==> !now.live)
    ensures JumpLogged(l, Flattened(frames, i), Flat(frames), now, Flat(frames[..i + 1]), Dead(frames[..i + 1]), loose)
  {
    var option, below, dead := Flattened(frames, i), Flat(frames[..i + 1]), Dead(frames[..i + 1]);
    if dead || option.unreachable {
      DeadJump(frames, i);
    }
    UpperAll(l, frames, i, loose);
    assert Excused(l, option.types, below, loose);
  }

  lemma JumpLevel<T(!new)>(l: Lattice<T>, frames: seq<Frame<T>>, options: seq<Frame<T>>, known: seq<Types<T>>, i: nat,
      entry: Trail<T>, jumps: seq<Trail<T>>, loose: set<Key>, now: Trail<T>)
    requires i < |frames| - 1 && LevelOk(l, frames, options, known, i, entry, jumps, loose)
    requires Holds(l, now, Flat(frames)) && (Dead(frames) ==> !now.live)
    ensures LevelOk(l, frames, options + [Flattened(frames, i)], known + [Flat(frames)], i, entry, jumps + [now], loose)
  {
    var below, dead, jumps1 := Flat(frames[..i + 1]), Dead(frames[..i + 1]), jumps + [now];
    assert UpperOk(l, frames, i, |frames| - 1, loose);
    JumpNow(l, frames, i, loose, now);
    var options1, known1 := options + [Flattened(frames, i)], known + [Flat(frames)];
    forall j | 0 <= j < |jumps1|
      ensures JumpLogged(l, options1[j], known1[j], jumps1[j], below, dead, loose)
    {
      if j < |jumps| {
        assert JumpLogged(l, options[j], known[j], jumps[j], below, dead, loose);
      }
    }
    LevelFrom(l, frames, options1, known1, i, entry, jumps1, loose, below, dead);
  }

  // All levels.

  ghost predicate Levels<T(!new)>(l: Lattice<T>, s: Stack<T>, log: Log<T>) {
    && Sized(s, log)
    && forall i {:trigger log.entries[i]} | 0 <= i < |s.options| ::
         LevelOk(l, s.frames, s.options[i], s.known[i], i, log.entries[i], log.jumps[i], log.loose[i])
  }

  lemma CleansedLevels<T(!new)>(l: Lattice<T>, s: Stack<T>, log: Log<T>, keys: set<Key>)
    requires Levels(l, s, log)
    ensures Levels(l, s.(frames := Cleansed(s.frames, keys)), log)
  {
    forall i | 0 <= i < |s.options|
      ensures LevelOk(l, Cleansed(s.frames, keys), s.options[i], s.known[i], i, log.entries[i], log.jumps[i],
                      log.loose[i])
    {
      CleansedLevel(l, s.frames, s.options[i], s.known[i], i, log.entries[i], log.jumps[i], log.loose[i], keys);
    }
  }

  lemma MarkedLevels<T(!new)>(l: Lattice<T>, s: Stack<T>, log: Log<T>, frames1: seq<Frame<T>>)
    requires Levels(l, s, log) && |frames1| == |s.frames| && frames1[..|frames1| - 1] == s.frames[..|frames1| - 1]
    requires MarkedNew(s.frames[|frames1| - 1].types, frames1[|frames1| - 1].types)
    ensures Levels(l, s.(frames := frames1), log)
  {
    forall i | 0 <= i < |s.options|
      ensures LevelOk(l, frames1, s.options[i], s.known[i], i, log.entries[i], log.jumps[i], log.loose[i])
    {
      assert LevelOk(l, s.frames, s.options[i], s.known[i], i, log.entries[i], log.jumps[i], log.loose[i]);
      assert UpperOk(l, s.frames, i, |s.frames| - 1, log.loose[i]);
      MarkedUpper(l, s.frames, frames1, i, log.loose[i]);
      TopLevel(l, s.frames, frames1, s.options[i], s.known[i], i, log.entries[i], log.jumps[i], log.loose[i],
               log.loose[i]);
    }
  }

  lemma CutLevels<T(!new)>(l: Lattice<T>, s: Stack<T>, log: Log<T>)
    requires Levels(l, s, log)
    ensures Levels(l, s.(frames := Cut(s.frames)), log) && Flat(Cut(s.frames)) == Flat(s.frames)
  {
    var n, top := |s.frames| - 1, s.frames[|s.frames| - 1];
    assert Cut(s.frames) == s.frames[..n] + [top.(unreachable := true)] && s.frames == s.frames[..n] + [top];
    FlatTop(s.frames[..n], top);
    FlatTop(s.frames[..n], top.(unreachable := true));
    MarkedLevels(l, s, log, Cut(s.frames));
  }

  /** One level has another jump, from where things are. */
  lemma JumpLevels<T(!new)>(l: Lattice<T>, s: Stack<T>, log: Log<T>, i: nat, s1: Stack<T>, log1: Log<T>)
    requires LogOk(l, s, log) && i < |s.options|
    requires s1 == s.(options := s.options[i := s.options[i] + [Flattened(s.frames, i)]],
                      known := s.known[i := s.known[i] + [Flat(s.frames)]])
    requires log1 == log.(jumps := log.jumps[i := log.jumps[i] + [log.now]])
    ensures LogOk(l, s1, log1)
  {
    forall k | 0 <= k < |s.options|
      ensures LevelOk(l, s.frames, s1.options[k], s1.known[k], k, log.entries[k], log1.jumps[k], log.loose[k])
    {
      assert LevelOk(l, s.frames, s.options[k], s.known[k], k, log.entries[k], log.jumps[k], log.loose[k]);
      if k == i {
        JumpLevel(l, s.frames, s.options[i], s.known[i], i, log.entries[i], log.jumps[i], log.loose[i], log.now);
      }
    }
  }

  /** So have several. */
  lemma TryLevels<T(!new)>(l: Lattice<T>, s: Stack<T>, log: Log<T>, tries: set<int>, s1: Stack<T>, log1: Log<T>)
    requires LogOk(l, s, log)
    requires s1 == s.(options := WithTries(s.options, s.frames, tries),
                      known := WithKnown(s.known, Flat(s.frames), tries))
    requires log1 == log.(jumps := JumpsTo(log.jumps, tries, log.now))
    ensures LogOk(l, s1, log1)
  {
    forall k | 0 <= k < |s.options|
      ensures LevelOk(l, s.frames, s1.options[k], s1.known[k], k, log.entries[k], log1.jumps[k], log.loose[k])
    {
      assert LevelOk(l, s.frames, s.options[k], s.known[k], k, log.entries[k], log.jumps[k], log.loose[k]);
      if k in tries {
        JumpLevel(l, s.frames, s.options[k], s.known[k], k, log.entries[k], log.jumps[k], log.loose[k], log.now);
      }
    }
  }

  // One operation.

  lemma DeadTop<T>(frames: seq<Frame<T>>, frames1: seq<Frame<T>>)
    requires |frames1| == |frames| > 0 && frames1[..|frames| - 1] == frames[..|frames| - 1]
    requires frames1[|frames| - 1].unreachable == frames[|frames| - 1].unreachable
    ensures Dead(frames1) ==> Dead(frames)
  {
    if Dead(frames1) {
      var i :| 0 <= i < |frames1| && frames1[i].unreachable;
      assert i < |frames| - 1 ==> frames1[i] == frames1[..|frames| - 1][i] == frames[i];
      assert frames[i] in frames;
    }
  }

  lemma AssignHolds<T(!new)>(l: Lattice<T>, r: Trail<T>, before: Types<T>, after: Types<T>, key: Key, typ: T,
      fits: bool)
    requires IsLattice(l) && Holds(l, r, before)
    requires forall k :: Lookup(after, k) == if fits && k == key then Some(CurrentType(typ, true))
                                             else if Within(key, k) then None else Lookup(before, k)
    ensures Holds(l, AfterAssign(r, key, typ, fits), after)
  {
    var r1 := AfterAssign(r, key, typ, fits);
    forall p | p in r1.last && p.0 in after
      ensures l.sub(p.1, after[p.0].typ)
    {
      assert Lookup(after, p.0) == Some(after[p.0]);
      if p.0 != key || !fits {
        assert Lookup(after, p.0) == Lookup(before, p.0);
      }
    }
  }

  lemma AssignLogged<T(!new)>(l: Lattice<T>, s: Stack<T>, log: Log<T>, keys: set<Key>, key: Key, typ: T, fits: bool,
      tries: set<int>, s1: Stack<T>, log1: Log<T>)
    requires IsLattice(l) && LogOk(l, s, log)
    requires var left := Cleansed(s.frames, keys);
             s1.frames == if fits then WithTop(left, key, CurrentType(typ, true)) else left
    requires s1.options == if fits then WithTries(s.options, s1.frames, tries) else s.options
    requires s1.known == if fits then WithKnown(s.known, Flat(s1.frames), tries) else s.known
    requires forall k :: Lookup(Flat(s1.frames), k)
                         == if fits && k == key then Some(CurrentType(typ, true))
                            else if Within(key, k) then None else Lookup(Flat(s.frames), k)
    requires var now := AfterAssign(log.now, key, typ, fits);
             log1 == log.(now := now, jumps := if fits then JumpsTo(log.jumps, tries, now) else log.jumps)
    ensures LogOk(l, s1, log1)
  {
    var left := Cleansed(s.frames, keys);
    CleansedLevels(l, s, log, keys);
    DeadCleansed(s.frames, keys);
    AssignHolds(l, log.now, Flat(s.frames), Flat(s1.frames), key, typ, fits);
    var s2, log2 := s.(frames := s1.frames), log.(now := log1.now);
    if fits {
      MarkedLevels(l, s.(frames := left), log, s1.frames);
      DeadTop(left, s1.frames);
      SameLevels(l, s2, log, log2);
      TryLevels(l, s2, log2, tries, s1, log1);
    } else {
      SameLevels(l, s2, log, log2);
    }
  }

  lemma SameLevels<T(!new)>(l: Lattice<T>, s: Stack<T>, log: Log<T>, log1: Log<T>)
    requires Levels(l, s, log) && log1 == log.(now := log1.now)
    requires Holds(l, log1.now, Flat(s.frames)) && (Dead(s.frames) ==> !log1.now.live)
    ensures LogOk(l, s, log1)
  {
    forall i | 0 <= i < |s.options|
      ensures LevelOk(l, s.frames, s.options[i], s.known[i], i, log1.entries[i], log1.jumps[i], log1.loose[i])
    {
      assert log.entries[i] == log1.entries[i];
    }
  }

  lemma NarrowedUpper<T(!new)>(l: Lattice<T>, frames: seq<Frame<T>>, key: Key, typ: T, i: nat, loose: set<Key>,
      loose1: set<Key>)
    requires i < |frames| - 1 && UpperOk(l, frames, i, |frames| - 1, loose)
    requires loose1 == if Misfit(l, Flat(frames[..i + 1]), key, typ) then loose + {key} else loose
    ensures Excused(l, Flat(WithTop(frames, key, CurrentType(typ, false))[i + 1..]), Flat(frames[..i + 1]), loose1)
  {
    var below, upper := Flat(frames[..i + 1]), Flat(frames[i + 1..]);
    TopPut(frames, i, key, CurrentType(typ, false));
    assert frames[i + 1..|frames| - 1 + 1] == frames[i + 1..];
    NarrowedExcused(l, upper, below, key, typ, loose, loose1);
  }

  lemma TopPut<T>(frames: seq<Frame<T>>, i: nat, key: Key, c: CurrentType<T>)
    requires i < |frames| - 1
    ensures Flat(WithTop(frames, key, c)[i + 1..]) == Flat(frames[i + 1..])[key := c]
  {
    var frames1, n := WithTop(frames, key, c), |frames| - 1;
    UpperTop(frames, i);
    UpperTop(frames1, i);
    assert frames1[i + 1..n] == frames[i + 1..n];
  }

  lemma NarrowedExcused<T(!new)>(l: Lattice<T>, upper: Types<T>, below: Types<T>, key: Key, typ: T, loose: set<Key>,
      loose1: set<Key>)
    requires Excused(l, upper, below, loose)
    requires loose1 == if Misfit(l, below, key, typ) then loose + {key} else loose
    ensures Excused(l, upper[key := CurrentType(typ, false)], below, loose1)
  {
  }

  lemma NarrowLogged<T(!new)>(l: Lattice<T>, s: Stack<T>, log: Log<T>, key: Key, typ: T, s1: Stack<T>, log1: Log<T>)
    requires LogOk(l, s, log) && s1 == s.(frames := WithTop(s.frames, key, CurrentType(typ, false)))
    requires Flat(s1.frames) == Flat(s.frames)[key := CurrentType(typ, false)]
    requires log1 == log.(now := AfterNarrow(log.now, key), loose := Loosened(l, s.frames, log.loose, key, typ))
    ensures LogOk(l, s1, log1)
  {
    DeadTop(s.frames, s1.frames);
    forall i | 0 <= i < |s.options|
      ensures LevelOk(l, s1.frames, s.options[i], s.known[i], i, log1.entries[i], log1.jumps[i], log1.loose[i])
    {
      assert LevelOk(l, s.frames, s.options[i], s.known[i], i, log.entries[i], log.jumps[i], log.loose[i]);
      assert UpperOk(l, s.frames, i, |s.frames| - 1, log.loose[i]);
      NarrowedUpper(l, s.frames, key, typ, i, log.loose[i], log1.loose[i]);
      TopLevel(l, s.frames, s1.frames, s.options[i], s.known[i], i, log.entries[i], log.jumps[i], log.loose[i],
               log1.loose[i]);
    }
  }

  lemma StopLogged<T(!new)>(l: Lattice<T>, s: Stack<T>, log: Log<T>)
    requires LogOk(l, s, log)
    ensures LogOk(l, s.(frames := Cut(s.frames)), log.(now := Nowhere()))
  {
    CutLevels(l, s, log);
    SameLevels(l, s.(frames := Cut(s.frames)), log, log.(now := Nowhere()));
  }

  ghost function EnterLog<T(!new)>(log: Log<T>, c: Context): Log<T> {
    Log(log.now, log.entries + [log.now], log.jumps + [if c.tryFrame then [log.now] else []], log.loose + [{}])
  }

  lemma DeadPushed<T>(frames: seq<Frame<T>>, f: Frame<T>)
    requires !f.unreachable
    ensures Dead(frames + [f]) <==> Dead(frames)
  {
    if Dead(frames) {
      var g :| g in frames && g.unreachable;
      assert g in frames + [f];
    }
  }

  /** The level of a context that has just been entered. */
  lemma NewLevel<T(!new)>(l: Lattice<T>, frames: seq<Frame<T>>, f: Frame<T>, now: Trail<T>)
    requires frames != [] && f.types == map[] && Holds(l, now, Flat(frames)) && (Dead(frames) ==> !now.live)
    ensures LevelOk(l, frames + [f], [], [], |frames| - 1, now, [], {})
  {
    var after, m := frames + [f], |frames| - 1;
    assert after[..m + 1] == frames;
    forall p | m < p < |after|
      ensures UpperOk(l, after, m, p, {})
    {
      assert after[m + 1..p + 1] == [] + [f];
      FlatTop([], f);
    }
  }

  lemma EnterLogged<T(!new)>(l: Lattice<T>, s: Stack<T>, log: Log<T>, c: Context, f: Frame<T>, s1: Stack<T>,
      log1: Log<T>)
    requires LogOk(l, s, log) && f.types == map[] && !f.unreachable && s1.frames == s.frames + [f]
    requires s1.options == s.options + [if c.tryFrame then [Falling(s1.frames, 1)] else []]
    requires s1.known == s.known + [if c.tryFrame then [Flat(s1.frames)] else []]
    requires log1 == EnterLog(log, c)
    ensures LogOk(l, s1, log1)
  {
    var m := |s.options|;
    FlatTop(s.frames, f);
    DeadPushed(s.frames, f);
    if c.tryFrame {
      TryLevel(l, s.frames, f, log.now);
    } else {
      NewLevel(l, s.frames, f, log.now);
    }
    forall i | 0 <= i < |s1.options|
      ensures LevelOk(l, s1.frames, s1.options[i], s1.known[i], i, log1.entries[i], log1.jumps[i], log1.loose[i])
    {
      if i < m {
        assert LevelOk(l, s.frames, s.options[i], s.known[i], i, log.entries[i], log.jumps[i], log.loose[i]);
        PushedLevel(l, s.frames, f, s.options[i], s.known[i], i, log.entries[i], log.jumps[i], log.loose[i]);
      }
    }
  }

  /** The level of a try that has just been entered, which begins with a jump. */
  lemma TryLevel<T(!new)>(l: Lattice<T>, frames: seq<Frame<T>>, f: Frame<T>, now: Trail<T>)
    requires frames != [] && f.types == map[] && !f.unreachable
    requires Holds(l, now, Flat(frames)) && (Dead(frames) ==> !now.live)
    ensures var all, m := frames + [f], |frames| - 1;
            LevelOk(l, all, [Flattened(all, m)], [Flat(all)], m, now, [now], {})
  {
    var all, m := frames + [f], |frames| - 1;
    NewLevel(l, frames, f, now);
    FlatTop(frames, f);
    DeadPushed(frames, f);
    JumpLevel(l, all, [], [], m, now, [], {}, now);
    OnlyItem(Flattened(all, m));
    OnlyItem(Flat(all));
    OnlyItem(now);
  }

  // Leaving a context.

  /** After a join, what was assigned last on a path to one of the jumps has a type that fits. */
  lemma JoinHolds<T(!new)>(l: Lattice<T>, joined: seq<Frame<T>>, known: seq<Types<T>>, rs: seq<Trail<T>>,
      before: Types<T>, after: Types<T>, dead: bool, loose: set<Key>)
    requires IsLattice(l) && JumpsOk(before, joined, known) && |rs| == |joined|
    requires AllJoined(l, joined, known, before, after)
    requires forall j {:trigger rs[j]} | 0 <= j < |rs| :: JumpLogged(l, joined[j], known[j], rs[j], before, dead, loose)
    ensures Holds(l, Together(l, rs, before, loose), after)
    ensures dead || (forall f | f in joined :: f.unreachable) ==> !Together(l, rs, before, loose).live
  {
    var r1 := Together(l, rs, before, loose);
    forall p | p in r1.last
      ensures r1.live && (p.0 in after ==> l.sub(p.1, after[p.0].typ))
    {
      var r :| r in rs && p in r.last;
      var j :| 0 <= j < |rs| && rs[j] == r;
      assert JumpLogged(l, joined[j], known[j], rs[j], before, dead, loose);
      if p.0 in after {
        OneJoinHolds(l, joined, known, j, rs[j], before, after, dead, loose, p.0, p.1);
      }
    }
    forall r | r in rs && (dead || forall f | f in joined :: f.unreachable)
      ensures !r.live
    {
      var j :| 0 <= j < |rs| && rs[j] == r;
      assert JumpLogged(l, joined[j], known[j], rs[j], before, dead, loose) && joined[j] in joined;
    }
  }

  lemma OneJoinHolds<T(!new)>(l: Lattice<T>, joined: seq<Frame<T>>, known: seq<Types<T>>, j: nat, r: Trail<T>,
      before: Types<T>, after: Types<T>, dead: bool, loose: set<Key>, key: Key, typ: T)
    requires IsLattice(l) && JumpsOk(before, joined, known) && j < |joined|
    requires AllJoined(l, joined, known, before, after)
    requires JumpLogged(l, joined[j], known[j], r, before, dead, loose) && (key, typ) in r.last && key in after
    requires !(key in loose && Misfit(l, before, key, typ))
    ensures l.sub(typ, after[key].typ)
  {
    assert KeyJoined(l, joined, known, before, after, key);
    assert JumpOk(before, joined[j], known[j]);
    assert (key, typ) in r.last && !joined[j].unreachable;
    if !KnownBelow(l, joined, known, after, key) {
      assert Lookup(after, key) == Lookup(before, key) && NarrowingOnly(joined, before, key);
      assert Lookup(before, key) == Some(after[key]);
    }
  }

  lemma FellLogged<T(!new)>(l: Lattice<T>, s: Stack<T>, log: Log<T>, fallThrough: nat, s1: Stack<T>, log1: Log<T>)
    requires LogOk(l, s, log) && fallThrough <= |s.options|
    requires s1 == s.(options := Landed(s.options, fallThrough, Falling(s.frames, fallThrough)),
                      known := Landed(s.known, fallThrough, Flat(s.frames)))
    requires log1 == log.(jumps := Landed(log.jumps, fallThrough, log.now))
    ensures LogOk(l, s1, log1)
  {
    if fallThrough > 0 {
      JumpLevels(l, s, log, |s.options| - fallThrough, s1, log1);
    } else {
      assert s1 == s && log1 == log;
    }
  }

  /** The frames and jumps below the top frame, with what has fallen off the end. */
  lemma LowerLevels<T(!new)>(l: Lattice<T>, s: Stack<T>, log: Log<T>, s1: Stack<T>, log1: Log<T>)
    requires Levels(l, s, log) && |s.options| > 0
    requires var m := |s.options| - 1;
             && s1 == Stack(s.frames[..m + 1], s.options[..m], s.known[..m])
             && log1 == Log(log1.now, log.entries[..m], log.jumps[..m], log.loose[..m])
    ensures Levels(l, s1, log1)
  {
    forall i | 0 <= i < |s1.options|
      ensures LevelOk(l, s1.frames, s1.options[i], s1.known[i], i, log1.entries[i], log1.jumps[i], log1.loose[i])
    {
      assert LevelOk(l, s.frames, s.options[i], s.known[i], i, log.entries[i], log.jumps[i], log.loose[i]);
      DroppedLevel(l, s.frames, |s.options|, s.options[i], s.known[i], i, log.entries[i], log.jumps[i], log.loose[i]);
    }
  }

  /** Skipping a context is a jump from its entry. */
  lemma SkipLogged<T(!new)>(l: Lattice<T>, frames: seq<Frame<T>>, entry: Trail<T>, loose: set<Key>)
    requires IsLattice(l) && frames != [] && Holds(l, entry, Flat(frames)) && (Dead(frames) ==> !entry.live)
    ensures JumpLogged(l, frames[|frames| - 1], Flat(frames), entry, Flat(frames), Dead(frames), loose)
  {
    assert frames[|frames| - 1] in frames;
    assert forall k | k in frames[|frames| - 1].types :: Flat(frames)[k] == frames[|frames| - 1].types[k];
  }

  /** The jumps that come together, with the trails recorded for them. */
  lemma JoinedLogged<T(!new)>(l: Lattice<T>, s: Stack<T>, log: Log<T>, c: Context, joined: seq<Frame<T>>,
      knownAt: seq<Types<T>>, rs: seq<Trail<T>>)
    requires IsLattice(l) && LogOk(l, s, log) && |s.options| > 0
    requires var m := |s.options| - 1;
             && joined == Skipping(s.frames, c.canSkip) + s.options[m]
             && knownAt == SkippingKnown(s.frames, c.canSkip) + s.known[m]
             && rs == (if c.canSkip then [log.entries[m]] else []) + log.jumps[m]
    ensures var m := |s.options| - 1; var lower := s.frames[..m + 1];
            && |rs| == |joined| == |knownAt|
            && forall j {:trigger rs[j]} | 0 <= j < |rs| ::
                 JumpLogged(l, joined[j], knownAt[j], rs[j], Flat(lower), Dead(lower), log.loose[m])
  {
    var m := |s.options| - 1;
    var lower := s.frames[..m + 1];
    assert LevelOk(l, s.frames, s.options[m], s.known[m], m, log.entries[m], log.jumps[m], log.loose[m]);
    SkipLogged(l, lower, log.entries[m], log.loose[m]);
    forall j | 0 <= j < |rs|
      ensures JumpLogged(l, joined[j], knownAt[j], rs[j], Flat(lower), Dead(lower), log.loose[m])
    {
      var i := if c.canSkip then j - 1 else j;
      if i >= 0 {
        assert JumpLogged(l, s.options[m][i], s.known[m][i], log.jumps[m][i], Flat(lower), Dead(lower), log.loose[m]);
        assert rs[j] == log.jumps[m][i] && joined[j] == s.options[m][i] && knownAt[j] == s.known[m][i];
      }
    }
  }

  /** What a join, or discarding, leaves at the top. */
  ghost predicate LeftTop<T(!new)>(l: Lattice<T>, discard: bool, joined: seq<Frame<T>>, knownAt: seq<Types<T>>,
      lower: seq<Frame<T>>, frames1: seq<Frame<T>>)
    requires |knownAt| == |joined| && lower != []
  {
    && |frames1| == |lower| && frames1[..|lower| - 1] == lower[..|lower| - 1]
    && if discard then frames1 == lower
       else && AllJoined(l, joined, knownAt, Flat(lower), Flat(frames1))
            && MarkedNew(lower[|lower| - 1].types, frames1[|lower| - 1].types)
            && (frames1[|lower| - 1].unreachable <==> forall f | f in joined :: f.unreachable)
  }

  lemma DeadLeft<T>(lower: seq<Frame<T>>, frames1: seq<Frame<T>>)
    requires |frames1| == |lower| > 0 && frames1[..|lower| - 1] == lower[..|lower| - 1] && Dead(frames1)
    ensures Dead(lower) || frames1[|lower| - 1].unreachable
  {
    var i :| 0 <= i < |frames1| && frames1[i].unreachable;
    if i < |lower| - 1 {
      assert frames1[i] == frames1[..|lower| - 1][i] == lower[i];
      assert lower[i] in lower;
    }
  }

  lemma NowLeft<T(!new)>(l: Lattice<T>, s: Stack<T>, log: Log<T>, c: Context, joined: seq<Frame<T>>,
      knownAt: seq<Types<T>>, rs: seq<Trail<T>>, frames1: seq<Frame<T>>, now: Trail<T>)
    requires IsLattice(l) && LogOk(l, s, log) && |s.options| > 0
    requires var m := |s.options| - 1; var lower := s.frames[..m + 1];
             && joined == Skipping(s.frames, c.canSkip) + s.options[m]
             && knownAt == SkippingKnown(s.frames, c.canSkip) + s.known[m] && |knownAt| == |joined|
             && rs == (if c.canSkip then [log.entries[m]] else []) + log.jumps[m]
             && JumpsOk(Flat(lower), joined, knownAt) && LeftTop(l, c.discard, joined, knownAt, lower, frames1)
             && now == if c.discard then log.entries[m] else Together(l, rs, Flat(lower), log.loose[m])
    ensures Holds(l, now, Flat(frames1)) && (Dead(frames1) ==> !now.live)
  {
    var m := |s.options| - 1;
    var lower := s.frames[..m + 1];
    assert LevelOk(l, s.frames, s.options[m], s.known[m], m, log.entries[m], log.jumps[m], log.loose[m]);
    if Dead(frames1) {
      DeadLeft(lower, frames1);
    }
    if !c.discard {
      JoinedLogged(l, s, log, c, joined, knownAt, rs);
      JoinHolds(l, joined, knownAt, rs, Flat(lower), Flat(frames1), Dead(lower), log.loose[m]);
    }
  }

  lemma LeaveLogged<T(!new)>(l: Lattice<T>, s: Stack<T>, log: Log<T>, c: Context, joined: seq<Frame<T>>,
      knownAt: seq<Types<T>>, s1: Stack<T>, log1: Log<T>)
    requires IsLattice(l) && LogOk(l, s, log) && |s.options| > 0 && c.fallThrough <= |s.options|
    requires |joined| == |knownAt|
    requires var m := |s.options| - 1;
             && joined == Skipping(s.frames, c.canSkip) + (s.options[m] + FallingOff(s.frames, c.fallThrough))
             && knownAt == SkippingKnown(s.frames, c.canSkip) + (s.known[m] + FallingOffKnown(s.frames, c.fallThrough))
             && JumpsOk(Flat(s.frames[..m + 1]), joined, knownAt)
             && LeftTop(l, c.discard, joined, knownAt, s.frames[..m + 1], s1.frames)
             && log1 == LeaveLog(l, Flat(s.frames[..m + 1]), log, c)
    requires s1.options == WithoutLast(Landed(s.options, c.fallThrough, Falling(s.frames, c.fallThrough)))
    requires s1.known == WithoutLast(Landed(s.known, c.fallThrough, Flat(s.frames)))
    ensures LogOk(l, s1, log1)
  {
    var m, ft := |s.options| - 1, c.fallThrough;
    var s2 := s.(options := Landed(s.options, ft, Falling(s.frames, ft)), known := Landed(s.known, ft, Flat(s.frames)));
    var log2 := log.(jumps := Landed(log.jumps, ft, log.now));
    FellLogged(l, s, log, ft, s2, log2);
    LastLanded(s.frames, s.options, s.known, ft);
    var rs := (if c.canSkip then [log2.entries[m]] else []) + log2.jumps[m];
    NowLeft(l, s2, log2, c, joined, knownAt, rs, s1.frames, log1.now);
    var lower := Stack(s.frames[..m + 1], s2.options[..m], s2.known[..m]);
    LowerLevels(l, s2, log2, lower, log1);
    MarkedLevels(l, lower, log1, s1.frames);
    SameLevels(l, s1, log1, log1);
  }

  lemma LastLanded<T>(frames: seq<Frame<T>>, options: seq<seq<Frame<T>>>, known: seq<seq<Types<T>>>, fallThrough: nat)
    requires |frames| == |options| + 1 == |known| + 1 && fallThrough <= |options| && |options| > 0
    ensures var m := |options| - 1;
            && Landed(options, fallThrough, Falling(frames, fallThrough))[m] == options[m]
               + FallingOff(frames, fallThrough)
            && Landed(known, fallThrough, Flat(frames))[m] == known[m] + FallingOffKnown(frames, fallThrough)
  {
    var m := |options| - 1;
    if fallThrough == 1 {
      FlattenedTop(frames);
      LandedLast(options, 1, Falling(frames, 1));
      LandedLast(known, 1, Flat(frames));
    } else {
      LandedLast(options, fallThrough, Falling(frames, fallThrough));
      LandedLast(known, fallThrough, Flat(frames));
      assert options[m] + [] == options[m] && known[m] + [] == known[m];
    }
  }

  lemma LandedLast<A>(lists: seq<seq<A>>, fallThrough: nat, x: A)
    requires fallThrough <= |lists| && lists != []
    ensures var m := |lists| - 1;
            Landed(lists, fallThrough, x)[m] == if fallThrough == 1 then lists[m] + [x] else lists[m]
  {
  }

  // The operations of the binder.

  /** The record is right for the binder as it is. */
  ghost predicate Recorded<T(!new)>(binder: ConditionalTypeBinder<T>, log: Log<T>)
    reads binder
  {
    binder.Valid() && binder.ContextsOk() && LogOk(binder.lattice, StackOf(binder), log)
  }

  ghost function StackOf<T(!new)>(binder: ConditionalTypeBinder<T>): Stack<T>
    reads binder`frames, binder`optionsOnReturn, binder`known
  {
    Stack(binder.frames, binder.optionsOnReturn, binder.known)
  }

  method Assigning<T(==,!new)>(binder: ConditionalTypeBinder<T>, key: Key, typ: T, declared: Option<T>,
      ghost log: Log<T>) returns (ghost log1: Log<T>)
    requires Recorded(binder, log)
    modifies binder
    ensures Recorded(binder, log1) && |binder.frames| == |old(binder.frames)| && binder.contexts == old(binder.contexts)
    ensures log1 == LogAfter(binder.lattice, old(binder.frames), old(binder.contexts), Assign(key, typ, declared), log)
  {
    ghost var l, s := binder.lattice, StackOf(binder);
    ghost var keys := Dependents(binder.dependencies, key);
    binder.AssignType(key, typ, declared);
    ghost var fits := declared.Some? && l.sub(typ, declared.value);
    ghost var now := AfterAssign(log.now, key, typ, fits);
    log1 := log.(now := now, jumps := if fits then JumpsTo(log.jumps, binder.tryFrames, now) else log.jumps);
    AssignLogged(l, s, log, keys, key, typ, fits, binder.tryFrames, StackOf(binder), log1);
  }

  method Narrowing<T(==,!new)>(binder: ConditionalTypeBinder<T>, key: Key, typ: T, declared: Option<T>,
      ghost log: Log<T>) returns (ghost log1: Log<T>)
    requires Recorded(binder, log)
    modifies binder
    ensures Recorded(binder, log1) && |binder.frames| == |old(binder.frames)| && binder.contexts == old(binder.contexts)
    ensures log1 == LogAfter(binder.lattice, old(binder.frames), old(binder.contexts), Narrow(key, declared, typ), log)
  {
    ghost var l, s := binder.lattice, StackOf(binder);
    binder.Put(key, declared, typ, false);
    log1 := log.(now := AfterNarrow(log.now, key), loose := Loosened(l, s.frames, log.loose, key, typ));
    NarrowLogged(l, s, log, key, typ, StackOf(binder), log1);
  }

  method Entering<T(==,!new)>(binder: ConditionalTypeBinder<T>, c: Context, ghost log: Log<T>)
    returns (ghost log1: Log<T>)
    requires Recorded(binder, log) && |binder.frames| > 1 && c.level == |binder.frames|
    requires c.fallThrough <= c.level && c.breakFrame <= c.level && c.continueFrame <= c.level
    modifies binder
    ensures Recorded(binder, log1) && |binder.frames| == c.level + 1
    ensures binder.contexts == old(binder.contexts) + [c]
    ensures log1 == LogAfter(binder.lattice, old(binder.frames), old(binder.contexts), Op<T>.Enter(c), log)
  {
    ghost var l, s := binder.lattice, StackOf(binder);
    binder.Enter(c);
    log1 := EnterLog(log, c);
    EnterLogged(l, s, log, c, Frame(map[], false, c.conditionalFrame), StackOf(binder), log1);
  }

  method Leaving<T(==,!new)>(binder: ConditionalTypeBinder<T>, c: Context, ghost log: Log<T>)
    returns (ghost log1: Log<T>)
    requires Recorded(binder, log) && binder.contexts != [] && c == binder.contexts[|binder.contexts| - 1]
    requires |binder.frames| == c.level + 1
    modifies binder
    ensures Recorded(binder, log1) && |binder.frames| == c.level
    ensures binder.contexts == old(binder.contexts[..|binder.contexts| - 1])
    ensures log1 == LogAfter(binder.lattice, old(binder.frames), old(binder.contexts), Op<T>.Leave, log)
  {
    ghost var l, s := binder.lattice, StackOf(binder);
    var result, joined;
    ghost var lower, knownAt;
    result, joined, lower, knownAt := binder.Exit(c);
    assert lower == s.frames[..c.level];
    log1 := LeaveLog(l, Flat(s.frames[..c.level]), log, c);
    LeaveLogged(l, s, log, c, joined, knownAt, StackOf(binder), log1);
  }

  method Stopping<T(==,!new)>(binder: ConditionalTypeBinder<T>, ghost log: Log<T>) returns (ghost log1: Log<T>)
    requires Recorded(binder, log)
    modifies binder
    ensures Recorded(binder, log1) && |binder.frames| == |old(binder.frames)| && binder.contexts == old(binder.contexts)
    ensures log1 == LogAfter(binder.lattice, old(binder.frames), old(binder.contexts), Op<T>.Stop, log)
  {
    ghost var l, s := binder.lattice, StackOf(binder);
    binder.Unreachable();
    log1 := log.(now := Nowhere());
    StopLogged(l, s, log);
  }

  ghost function JumpLog<T(!new)>(log: Log<T>, i: int): Log<T>
    requires 0 <= i < |log.jumps|
  {
    log.(now := Nowhere(), jumps := log.jumps[i := log.jumps[i] + [log.now]])
  }

  lemma JumpAndStopLogged<T(!new)>(l: Lattice<T>, s: Stack<T>, log: Log<T>, i: nat, s1: Stack<T>)
    requires LogOk(l, s, log) && i < |s.options|
    requires s1 == Stack(Cut(s.frames), s.options[i := s.options[i] + [Flattened(s.frames, i)]],
                         s.known[i := s.known[i] + [Flat(s.frames)]])
    ensures i < |log.jumps| && LogOk(l, s1, JumpLog(log, i))
  {
    var s2, log2 := s1.(frames := s.frames), log.(jumps := log.jumps[i := log.jumps[i] + [log.now]]);
    JumpLevels(l, s, log, i, s2, log2);
    StopLogged(l, s2, log2);
  }

  method Breaking<T(==,!new)>(binder: ConditionalTypeBinder<T>, ghost log: Log<T>) returns (ghost log1: Log<T>)
    requires Recorded(binder, log) && binder.breakFrames != []
    modifies binder
    ensures Recorded(binder, log1) && |binder.frames| == |old(binder.frames)| && binder.contexts == old(binder.contexts)
    ensures log1 == LogAfter(binder.lattice, old(binder.frames), old(binder.contexts), Op<T>.Break, log)
  {
    ghost var l, s := binder.lattice, StackOf(binder);
    ghost var i := binder.breakFrames[|binder.breakFrames| - 1];
    binder.HandleBreak();
    JumpAndStopLogged(l, s, log, i, StackOf(binder));
    log1 := JumpLog(log, i);
  }

  method Continuing<T(==,!new)>(binder: ConditionalTypeBinder<T>, ghost log: Log<T>) returns (ghost log1: Log<T>)
    requires Recorded(binder, log) && binder.continueFrames != []
    modifies binder
    ensures Recorded(binder, log1) && |binder.frames| == |old(binder.frames)| && binder.contexts == old(binder.contexts)
    ensures log1 == LogAfter(binder.lattice, old(binder.frames), old(binder.contexts), Op<T>.Continue, log)
  {
    ghost var l, s := binder.lattice, StackOf(binder);
    ghost var i := binder.continueFrames[|binder.continueFrames| - 1];
    binder.HandleContinue();
    JumpAndStopLogged(l, s, log, i, StackOf(binder));
    log1 := JumpLog(log, i);
  }

  // Runs.

  /** The number of frames while these contexts are open: one at the bottom, and one for the program. */
  function Height(contexts: seq<Context>): nat {
    if contexts == [] then 2 else contexts[|contexts| - 1].level + 1
  }

  /** Each context was entered at its level. */
  ghost predicate Stacked(contexts: seq<Context>) {
    contexts == []
    || (var init := contexts[..|contexts| - 1]; contexts[|contexts| - 1].level == Height(init) && Stacked(init))
  }

  /** Contexts are entered at their level and left in turn; loops are there to be left or continued. */
  predicate Allowed<T>(contexts: seq<Context>, op: Op<T>) {
    match op
    case Enter(c) => c.level == Height(contexts) && c.fallThrough <= c.level && c.breakFrame <= c.level
                     && c.continueFrame <= c.level
    case Leave => contexts != []
    case Break => BreakTargets(contexts) != []
    case Continue => ContinueTargets(contexts) != []
    case _ => true
  }

  function ContextsAfter<T>(contexts: seq<Context>, op: Op<T>): seq<Context> {
    match op
    case Enter(c) => contexts + [c]
    case Leave => if contexts == [] then [] else contexts[..|contexts| - 1]
    case _ => contexts
  }

  /** The jump to a target of the contexts, after which nothing is reached. */
  ghost function JumpOut<T(!new)>(log: Log<T>, targets: seq<int>): Log<T> {
    if targets == [] || !(0 <= targets[|targets| - 1] < |log.jumps|) then log else JumpLog(log, targets[|targets| - 1])
  }

  /** The record after an operation that begins with these frames. */
  ghost function LogAfter<T(!new)>(l: Lattice<T>, frames: seq<Frame<T>>, contexts: seq<Context>, op: Op<T>,
      log: Log<T>): Log<T>
  {
    match op
    case Assign(key, typ, declared) =>
      var fits := declared.Some? && l.sub(typ, declared.value);
      var now := AfterAssign(log.now, key, typ, fits);
      log.(now := now, jumps := if fits then JumpsTo(log.jumps, TryTargets(contexts), now) else log.jumps)
    case Narrow(key, declared, typ) =>
      log.(now := AfterNarrow(log.now, key),
           loose := if |log.loose| < |frames| then Loosened(l, frames, log.loose, key, typ) else log.loose)
    case Stop => log.(now := Nowhere())
    case Enter(c) => EnterLog(log, c)
    case Leave =>
      if contexts == [] then log
      else
        var c := contexts[|contexts| - 1];
        if c.level <= |frames| && |log.entries| == |log.jumps| == |log.loose| > 0 && c.fallThrough <= |log.jumps|
        then LeaveLog(l, Flat(frames[..c.level]), log, c) else log
    case Break => JumpOut(log, BreakTargets(contexts))
    case Continue => JumpOut(log, ContinueTargets(contexts))
  }

  ghost function StartLog<T(!new)>(): Log<T> {
    Log(Trail(true, iset{}), [Trail(true, iset{})], [[]], [{}])
  }

  function ContextsOf<T>(ops: seq<Op<T>>): seq<Context> {
    if ops == [] then [] else ContextsAfter(ContextsOf(ops[..|ops| - 1]), ops[|ops| - 1])
  }

  /** The record of these operations, each of which began with the frames given for it. */
  ghost function RecordOf<T(!new)>(l: Lattice<T>, ops: seq<Op<T>>, shots: seq<seq<Frame<T>>>): Log<T>
    requires |shots| == |ops|
  {
    if ops == [] then StartLog()
    else
      var n := |ops| - 1;
      LogAfter(l, shots[n], ContextsOf(ops[..n]), ops[n], RecordOf(l, ops[..n], shots[..n]))
  }

  predicate AllAllowed<T>(contexts: seq<Context>, ops: seq<Op<T>>)
    decreases |ops|
  {
    ops == [] || (Allowed(contexts, ops[0]) && AllAllowed(ContextsAfter(contexts, ops[0]), ops[1..]))
  }

  /** One operation, and what it does to the record. */
  method Perform<T(==,!new)>(binder: ConditionalTypeBinder<T>, op: Op<T>, contexts: seq<Context>, ghost log: Log<T>)
    returns (ghost log1: Log<T>)
    requires Recorded(binder, log) && binder.contexts == contexts && |binder.frames| == Height(contexts)
    requires Allowed(contexts, op) && Stacked(contexts)
    modifies binder
    ensures Recorded(binder, log1) && Stacked(ContextsAfter(contexts, op))
    ensures log1 == LogAfter(binder.lattice, old(binder.frames), contexts, op, log)
    ensures binder.contexts == ContextsAfter(contexts, op) && |binder.frames| == Height(ContextsAfter(contexts, op))
  {
    NestedLevels(contexts, |binder.frames|);
    StaysStacked(contexts, op);
    match op {
      case Assign(key, typ, declared) => log1 := Assigning(binder, key, typ, declared, log);
      case Narrow(key, declared, typ) => log1 := Narrowing(binder, key, typ, declared, log);
      case Stop => log1 := Stopping(binder, log);
      case Enter(c) => log1 := Entering(binder, c, log);
      case Leave => log1 := Leaving(binder, contexts[|contexts| - 1], log);
      case Break => log1 := Breaking(binder, log);
      case Continue => log1 := Continuing(binder, log);
    }
  }

  lemma StaysStacked<T>(contexts: seq<Context>, op: Op<T>)
    requires Stacked(contexts) && Allowed(contexts, op)
    ensures Stacked(ContextsAfter(contexts, op))
    ensures op.Leave? ==> Height(ContextsAfter(contexts, op)) == contexts[|contexts| - 1].level
  {
    if op.Enter? {
      OneMoreStacked(contexts, op.c);
    }
  }

  lemma OneMoreStacked(contexts: seq<Context>, c: Context)
    requires Stacked(contexts) && c.level == Height(contexts)
    ensures Stacked(contexts + [c])
  {
    assert (contexts + [c])[..|contexts|] == contexts;
  }

  lemma NestedLevels(contexts: seq<Context>, frames: nat)
    requires Nested(contexts, frames)
    ensures Height(contexts) > 1
  {
  }

  /**
   * Runs a binder through any operations. Whatever was assigned to a key last on some path to the end,
   * the key is unknown there, or its type is a supertype of the one assigned. The record counts every
   * assignment that fits the declaration, until the key, or a part of it, is assigned or the key is
   * narrowed on that path, or a context is left in which a condition narrowed the key to a type that
   * does not fit what is known outside, as the assigned one does not.
   */
  method RunAll<T(==,!new)>(lattice: Lattice<T>, ops: seq<Op<T>>)
    returns (binder: ConditionalTypeBinder<T>, ghost shots: seq<seq<Frame<T>>>)
    requires IsLattice(lattice) && AllAllowed([], ops)
    ensures binder.Valid() && binder.lattice == lattice && |shots| == |ops|
    ensures forall key, typ | (key, typ) in RecordOf(lattice, ops, shots).now.last && key in Flat(binder.frames) ::
              lattice.sub(typ, Flat(binder.frames)[key].typ)
  {
    binder := new ConditionalTypeBinder(lattice);
    binder.PushFrame(false);
    ghost var log := StartLog();
    shots := [];
    StartsRecorded(lattice, StackOf(binder), log);
    var contexts := [];
    for k := 0 to |ops|
      invariant Recorded(binder, log) && binder.lattice == lattice && fresh(binder) && |shots| == k
      invariant binder.contexts == contexts && |binder.frames| == Height(contexts)
      invariant AllAllowed(contexts, ops[k..]) && Stacked(contexts)
      invariant contexts == ContextsOf(ops[..k]) && log == RecordOf(lattice, ops[..k], shots)
    {
      assert ops[..k + 1][..k] == ops[..k] && (shots + [binder.frames])[..k] == shots;
      shots := shots + [binder.frames];
      log := Perform(binder, ops[k], contexts, log);
      contexts := ContextsAfter(contexts, ops[k]);
    }
    assert ops[..|ops|] == ops;
    assert Holds(lattice, log.now, Flat(binder.frames));
  }

  ghost predicate NothingLoose<T>(log: Log<T>) {
    forall i | 0 <= i < |log.loose| :: log.loose[i] == {}
  }

  lemma StillNothing<T(!new)>(l: Lattice<T>, frames: seq<Frame<T>>, contexts: seq<Context>, op: Op<T>, log: Log<T>)
    requires NothingLoose(log) && !op.Narrow?
    ensures NothingLoose(LogAfter(l, frames, contexts, op, log))
  {
  }

  /** Without conditions that narrow, nothing is ever loose, so that joins count every assignment. */
  lemma {:induction false} NothingNarrowed<T(!new)>(l: Lattice<T>, ops: seq<Op<T>>, shots: seq<seq<Frame<T>>>)
    requires |shots| == |ops| && forall op | op in ops :: !op.Narrow?
    ensures NothingLoose(RecordOf(l, ops, shots))
    decreases |ops|
  {
    if ops != [] {
      var n := |ops| - 1;
      assert ops[n] in ops;
      NothingNarrowed(l, ops[..n], shots[..n]);
      StillNothing(l, shots[n], ContextsOf(ops[..n]), ops[n], RecordOf(l, ops[..n], shots[..n]));
    }
  }

  lemma StartsRecorded<T(!new)>(l: Lattice<T>, s: Stack<T>, log: Log<T>)
    requires s.options == [[]] && s.known == [[]] && |s.frames| == 2
    requires forall f | f in s.frames :: f.types == map[] && !f.unreachable
    requires log == StartLog()
    ensures LogOk(l, s, log)
  {
    assert s.frames == s.frames[..1] + [s.frames[1]];
    NewLevel(l, s.frames[..1], s.frames[1], log.now);
  }
}
