// Topological sorting in levels, with in-degree counters and reverse adjacency lists.
module TopSort {
  import opened Text
  import opened Reach
  import opened SccTable
  import opened Trace
  import opened Schedule

  /** Without trivial dependencies of an item on itself. */
  function NoSelf(data: Graph<SccId>): Graph<SccId> {
    map i | i in data :: data[i] - {i}
  }

  /** Items that are next: not yielded, with all their dependencies yielded. */
  ghost function Next(deps: Graph<SccId>, done: set<SccId>): set<SccId> {
    set i | i in deps && i !in done && i !in Waiting(deps, done)
  }

  ghost predicate DownClosed(deps: Graph<SccId>, done: set<SccId>) {
    done <= deps.Keys && forall i | i in done :: deps[i] <= done
  }

  /** What has been yielded once the next level is. */
  ghost function Yielded(deps: Graph<SccId>, done: set<SccId>): set<SccId> {
    set i | i in deps && (i in done || i !in Waiting(deps, done))
  }

  /** What is next after a whole level has been yielded is what that level made ready. */
  lemma NextLevel(deps: Graph<SccId>, done: set<SccId>)
    requires DownClosed(deps, done)
    ensures DownClosed(deps, Yielded(deps, done))
    ensures forall i :: i in Yielded(deps, done) <==> i in done || i in Next(deps, done)
    ensures |Yielded(deps, done)| == |done| + |Next(deps, done)|
    ensures Next(deps, done) <= deps.Keys && forall i | i in Next(deps, done) :: i !in done
  {
    assert Yielded(deps, done) == done + Next(deps, done);
    assert done !! Next(deps, done);
    forall i | i in Yielded(deps, done)
      ensures deps[i] <= Yielded(deps, done)
    {
      assert deps[i] <= done;
    }
  }

  /** The items that are next, and how many come after them. */
  ghost predicate AtLevel(deps: Graph<SccId>, done: set<SccId>, ready: set<SccId>, remaining: int) {
    ready == Next(deps, done) && remaining == |deps.Keys| - |done| - |ready|
  }

  lemma LevelReadies(deps: Graph<SccId>, done: set<SccId>, ready: set<SccId>, remaining: int, newReady: set<SccId>)
    requires DownClosed(deps, done) && AtLevel(deps, done, ready, remaining)
    requires forall i :: i in newReady <==> i in Waiting(deps, done) && i !in Waiting(deps, Yielded(deps, done))
    ensures AtLevel(deps, Yielded(deps, done), newReady, remaining - |newReady|)
  {
    NextLevel(deps, done);
    forall i | i in deps
      ensures i in Next(deps, Yielded(deps, done)) <==> i in newReady
    {
      if i in done { assert deps[i] <= done; }
    }
  }

  /** If nothing is next, everything has been yielded. */
  lemma NothingLeft(deps: Graph<SccId>, done: set<SccId>)
    requires Closed(deps) && Acyclic(deps) && done <= deps.Keys && Next(deps, done) == {}
    ensures done == deps.Keys
  {
    forall i | i in deps
      ensures i in done + Waiting(deps, done)
    {
      assert i !in Next(deps, done);
    }
    NoStall(deps, done);
  }

  ghost predicate Degrees(deps: Graph<SccId>, done: set<SccId>, inDegree: map<SccId, int>) {
    inDegree.Keys == deps.Keys && forall i {:trigger Unfinished(deps, done, i)} | i in deps ::
        inDegree[i] == Unfinished(deps, done, i)
  }

  ghost predicate Reversed(deps: Graph<SccId>, rev: map<SccId, seq<SccId>>) {
    rev.Keys == deps.Keys && forall j {:trigger Dependents(deps, j, rev[j])} | j in deps :: Dependents(deps, j, rev[j])
  }

  ghost predicate Dependents(deps: Graph<SccId>, j: SccId, items: seq<SccId>) {
    Distinct(items) && forall i :: i in items <==> i in deps && j in deps[i]
  }

  ghost predicate Sizes(deps: Graph<SccId>, degrees: map<SccId, int>) {
    degrees.Keys <= deps.Keys && forall i {:trigger degrees[i]} | i in degrees :: degrees[i] == |deps[i]|
  }

  lemma SizesStep(deps: Graph<SccId>, degrees: map<SccId, int>, item: SccId)
    requires Sizes(deps, degrees) && item in deps
    ensures Sizes(deps, degrees[item := |deps[item]|])
    ensures degrees[item := |deps[item]|].Keys == degrees.Keys + {item}
  {
  }

  lemma StartDegrees(deps: Graph<SccId>, inDegree: map<SccId, int>)
    requires inDegree.Keys == deps.Keys && Sizes(deps, inDegree)
    ensures Degrees(deps, {}, inDegree)
  {
    forall i | i in deps
      ensures inDegree[i] == Unfinished(deps, {}, i)
    {
      assert deps[i] - {} == deps[i];
    }
  }

  lemma StartLists(deps: Graph<SccId>, rev: map<SccId, seq<SccId>>)
    requires AllListed(deps, rev, deps.Keys)
    ensures Reversed(deps, rev)
  {
    forall j | j in deps
      ensures Dependents(deps, j, rev[j])
    {
      assert ListedFrom(deps, j, rev[j], deps.Keys);
    }
  }

  lemma StartReady(deps: Graph<SccId>, inDegree: map<SccId, int>, ready: set<SccId>)
    requires inDegree.Keys == deps.Keys && Sizes(deps, inDegree)
    requires forall i :: i in ready <==> i in inDegree && inDegree[i] == 0
    ensures AtLevel(deps, {}, ready, |inDegree| - |ready|)
  {
    assert |inDegree| == |inDegree.Keys|;
    forall i | i in deps
      ensures inDegree[i] == 0 <==> i !in Waiting(deps, {})
    {
      assert |deps[i]| == 0 <==> deps[i] == {};
    }
  }

  class Sorter {
    const deps: Graph<SccId>
    var inDegree: map<SccId, int>
    const rev: map<SccId, seq<SccId>>
    var ready: set<SccId>
    var remaining: int
    ghost var done: set<SccId>

    ghost predicate Valid()
      reads this
    {
      && Closed(deps) && DownClosed(deps, done)
      && Degrees(deps, done, inDegree) && Reversed(deps, rev)
      && AtLevel(deps, done, ready, remaining)
    }

    constructor (data: Graph<SccId>)
      requires Closed(data)
      ensures Valid() && deps == NoSelf(data) && done == {}
    {
      var all := NoSelf(data);
      var degrees, lists, first := Prepare(all);
      deps, inDegree, rev, ready, remaining, done := all, degrees, lists, first, |degrees| - |first|, {};
    }

    /** Yields the next level, until there is none. */
    method NextReady() returns (r: Option<set<SccId>>)
      requires Valid() && Acyclic(deps)
      modifies this
      ensures Valid()
      ensures r.None? ==> done == old(done) == deps.Keys
      ensures r.Some? ==> r.value != {} && r.value == Next(deps, old(done)) && done == Yielded(deps, old(done))
    {
      if ready == {} {
        NothingLeft(deps, done);
        assert remaining == 0;
        r := None;
      } else {
        r := Some(ready);
        AdvanceLevel();
      }
    }

    method AdvanceLevel()
      requires Valid()
      modifies this
      ensures Valid() && done == Yielded(deps, old(done))
    {
      var degrees, newReady := CountDown(deps, done, rev, inDegree, ready);
      NextLevel(deps, done);
      LevelReadies(deps, done, ready, remaining, newReady);
      inDegree, remaining, ready, done := degrees, remaining - |newReady|, newReady, Yielded(deps, done);
    }
  }

  /** One pass over the items: in-degrees, reverse adjacency lists, and the items without dependencies. */
  method Prepare(deps: Graph<SccId>)
    returns (degrees: map<SccId, int>, lists: map<SccId, seq<SccId>>, first: set<SccId>)
    requires Closed(deps)
    ensures Degrees(deps, {}, degrees) && Reversed(deps, lists)
    ensures AtLevel(deps, {}, first, |degrees| - |first|)
  {
    degrees, lists, first := map[], map i: SccId | i in deps :: [], {};
    var items := deps.Keys;
    while items != {}
      invariant items <= deps.Keys
      invariant forall i :: i in degrees <==> i in deps && i !in items
      invariant Sizes(deps, degrees)
      invariant forall i :: i in first <==> i in degrees && degrees[i] == 0
      invariant AllListed(deps, lists, degrees.Keys)
      decreases items
    {
      var item :| item in items;
      var degree := |deps[item]|;
      if degree == 0 {
        first := first + {item};
      }
      lists := AddItem(deps, lists, item, deps[item], degrees.Keys);
      SizesStep(deps, degrees, item);
      degrees := degrees[item := degree];
      items := items - {item};
    }
    StartDegrees(deps, degrees);
    StartLists(deps, lists);
    StartReady(deps, degrees, first);
  }

  /** Counts down the degrees of what depends on the items of a level. */
  method CountDown(ghost deps: Graph<SccId>, ghost done: set<SccId>, rev: map<SccId, seq<SccId>>,
      inDegree: map<SccId, int>, level: set<SccId>)
    returns (degrees: map<SccId, int>, newReady: set<SccId>)
    requires DownClosed(deps, done) && Degrees(deps, done, inDegree) && Reversed(deps, rev) && level == Next(deps, done)
    ensures Degrees(deps, Yielded(deps, done), degrees)
    ensures forall i :: i in newReady <==> i in Waiting(deps, done) && i !in Waiting(deps, Yielded(deps, done))
  {
    NextLevel(deps, done);
    degrees, newReady := inDegree, {};
    var items := level;
    ghost var now := done;
    while items != {}
      invariant items <= level
      invariant forall i :: i in now <==> i in done || (i in level && i !in items)
      invariant Degrees(deps, now, degrees)
      invariant forall i :: i in newReady <==> i in Waiting(deps, done) && i !in Waiting(deps, now)
      decreases items
    {
      var item :| item in items;
      assert Dependents(deps, item, rev[item]);
      var more;
      degrees, more := CountDownAll(deps, rev[item], degrees, item, now);
      WaitingShrinks(deps, done, now);
      WaitingShrinks(deps, now, now + {item});
      newReady, now, items := newReady + more, now + {item}, items - {item};
    }
    assert now == Yielded(deps, done);
  }

  /** Counts down the degrees of the dependents of one item. */
  method CountDownAll(ghost deps: Graph<SccId>, dependents: seq<SccId>, inDegree: map<SccId, int>, ghost item: SccId,
      ghost done: set<SccId>)
    returns (degrees: map<SccId, int>, newReady: set<SccId>)
    requires Degrees(deps, done, inDegree) && Dependents(deps, item, dependents) && item !in done
    ensures Degrees(deps, done + {item}, degrees)
    ensures forall i :: i in newReady <==> i in Waiting(deps, done) && i !in Waiting(deps, done + {item})
  {
    degrees, newReady := inDegree, {};
    for k := 0 to |dependents|
      invariant degrees.Keys == inDegree.Keys
      invariant forall i | i in inDegree :: degrees[i] == inDegree[i] - (if i in dependents[..k] then 1 else 0)
      invariant forall i :: i in newReady <==> i in dependents[..k] && i in inDegree && inDegree[i] == 1
    {
      var dependent := dependents[k];
      assert dependents[..k + 1] == dependents[..k] + [dependent];
      assert dependent in dependents && dependent !in dependents[..k];
      var newDegree := degrees[dependent] - 1;
      degrees := degrees[dependent := newDegree];
      if newDegree == 0 {
        newReady := newReady + {dependent};
      }
    }
    assert dependents[..|dependents|] == dependents;
    DegreesFall(deps, done, item, dependents, inDegree, degrees, newReady);
  }

  lemma DegreesFall(deps: Graph<SccId>, done: set<SccId>, item: SccId, dependents: seq<SccId>,
      inDegree: map<SccId, int>, degrees: map<SccId, int>, newReady: set<SccId>)
    requires Degrees(deps, done, inDegree) && Dependents(deps, item, dependents) && item !in done
    requires degrees.Keys == inDegree.Keys
    requires forall i | i in inDegree :: degrees[i] == inDegree[i] - (if i in dependents then 1 else 0)
    requires forall i :: i in newReady <==> i in dependents && i in inDegree && inDegree[i] == 1
    ensures Degrees(deps, done + {item}, degrees)
    ensures forall i :: i in newReady <==> i in Waiting(deps, done) && i !in Waiting(deps, done + {item})
  {
    forall i | i in deps
      ensures degrees[i] == Unfinished(deps, done + {item}, i)
      ensures i in newReady <==> i in Waiting(deps, done) && i !in Waiting(deps, done + {item})
    {
      UnfinishedStep(deps, done, item, i);
      NoneUnfinished(deps, done + {item}, i);
    }
  }

  /** Appends an item to the lists of its dependencies. */
  method AddItem(ghost deps: Graph<SccId>, rev: map<SccId, seq<SccId>>, item: SccId, itemDeps: set<SccId>,
      ghost seen: set<SccId>)
    returns (lists: map<SccId, seq<SccId>>)
    requires Closed(deps) && item in deps && itemDeps == deps[item] && item !in seen
    requires AllListed(deps, rev, seen)
    ensures AllListed(deps, lists, seen + {item})
  {
    lists := rev;
    var left := itemDeps;
    while left != {}
      invariant left <= itemDeps && lists.Keys == deps.Keys
      invariant forall j | j in deps ::
                  lists[j] == if j in itemDeps && j !in left then rev[j] + [item] else rev[j]
      decreases left
    {
      var dep :| dep in left;
      lists := lists[dep := lists[dep] + [item]];
      left := left - {dep};
    }
    forall j | j in deps
      ensures ListedFrom(deps, j, lists[j], seen + {item})
    {
      assert ListedFrom(deps, j, rev[j], seen);
    }
  }

  ghost predicate AllListed(deps: Graph<SccId>, rev: map<SccId, seq<SccId>>, seen: set<SccId>) {
    rev.Keys == deps.Keys && forall j {:trigger ListedFrom(deps, j, rev[j], seen)} | j in deps ::
        ListedFrom(deps, j, rev[j], seen)
  }

  /** The list of items that depend on j, among those looked at. */
  ghost predicate ListedFrom(deps: Graph<SccId>, j: SccId, items: seq<SccId>, seen: set<SccId>) {
    Distinct(items) && forall i :: i in items <==> i in deps && i in seen && j in deps[i]
  }
}
