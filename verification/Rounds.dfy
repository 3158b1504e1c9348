// The rounds of the scheduling loop: what is complete, being worked on and ready when each begins, and
// when a unit may be unfinished while another one is decided.
module Rounds {
  import opened Reach
  import opened SccTable

  /** The beginning of a round; cached are the ready units that the freshness test accepts. */
  datatype Moment = Moment(completed: set<SccId>, pending: set<SccId>, ready: set<SccId>, cached: set<SccId>)

  /** The answer of the freshness test for a unit, by the units that are complete when it is asked. */
  type Test = (SccId, set<SccId>) -> bool

  /** The units whose last dependencies have just been completed. */
  ghost function NowReady(deps: Graph<SccId>, before: set<SccId>, after: set<SccId>): set<SccId> {
    set i | i in deps && !(deps[i] <= before) && deps[i] <= after
  }

  ghost predicate FirstRound(deps: Graph<SccId>, m: Moment) {
    && m.completed == {} && m.pending == {} && m.ready == (set i | i in deps && deps[i] == {})
    && m.cached <= m.ready
  }

  /**
   * One round. If the test accepts any of the ready units, just these are completed. Otherwise it is
   * some of those being worked on: with a worker for each of them, any.
   */
  ghost predicate NextRound(deps: Graph<SccId>, m: Moment, m1: Moment) {
    var done := m1.completed - m.completed;
    && m.completed <= m1.completed && done <= m.pending + m.ready
    && (m.cached != {} ==> done == m.cached)
    && m1.pending == m.pending + m.ready - done
    && m1.ready == NowReady(deps, m.completed, m1.completed)
    && m1.cached <= m1.ready
  }

  /** A run up to some round. */
  ghost predicate IsRun(deps: Graph<SccId>, run: seq<Moment>) {
    && run != [] && FirstRound(deps, run[0])
    && forall k | 0 < k < |run| :: NextRound(deps, run[k - 1], run[k])
  }

  ghost predicate AllAnswered(test: Test, run: seq<Moment>) {
    forall k | 0 <= k < |run| :: AnsweredAt(test, run[k])
  }

  ghost predicate AnsweredAt(test: Test, m: Moment) {
    m.cached == set i | i in m.ready && test(i, m.completed)
  }

  /** Every unit whose dependencies are complete is in one place, and no other is in any. */
  ghost predicate InPlace(deps: Graph<SccId>, m: Moment) {
    && m.completed !! m.pending && m.completed !! m.ready && m.pending !! m.ready
    && m.completed + m.pending + m.ready <= deps.Keys
    && forall i | i in deps :: deps[i] <= m.completed <==> i in m.completed + m.pending + m.ready
  }

  lemma StaysInPlace(deps: Graph<SccId>, m: Moment, m1: Moment)
    requires InPlace(deps, m) && NextRound(deps, m, m1)
    ensures InPlace(deps, m1)
  {
  }

  lemma {:induction false} RunInPlace(deps: Graph<SccId>, run: seq<Moment>, k: nat)
    requires IsRun(deps, run) && k < |run|
    ensures InPlace(deps, run[k])
  {
    if k > 0 {
      RunInPlace(deps, run, k - 1);
      RoundAt(deps, run, k - 1);
      StaysInPlace(deps, run[k - 1], run[k]);
    }
  }

  lemma RoundAt(deps: Graph<SccId>, run: seq<Moment>, k: nat)
    requires IsRun(deps, run) && k + 1 < |run|
    ensures NextRound(deps, run[k], run[k + 1]) && run[k].completed <= run[k + 1].completed
  {
    assert NextRound(deps, run[k + 1 - 1], run[k + 1]);
  }

  lemma {:induction false} CompletedStays(deps: Graph<SccId>, run: seq<Moment>, l: nat, k: nat)
    requires IsRun(deps, run) && l <= k < |run|
    ensures run[l].completed <= run[k].completed
    decreases k
  {
    if l < k {
      CompletedStays(deps, run, l, k - 1);
      RoundAt(deps, run, k - 1);
    }
  }

  lemma CameFrom(deps: Graph<SccId>, m: Moment, m1: Moment, i: SccId)
    requires NextRound(deps, m, m1) && i in m1.completed + m1.pending
    ensures i in m.completed + m.pending + m.ready
  {
    assert m1.completed == m.completed + (m1.completed - m.completed);
  }

  /** What is complete or being worked on was ready before. */
  lemma {:induction false} WasReady(deps: Graph<SccId>, run: seq<Moment>, k: nat, i: SccId) returns (l: nat)
    requires IsRun(deps, run) && k < |run| && i in run[k].completed + run[k].pending
    ensures l < k && i in run[l].ready
  {
    assert k > 0;
    RoundAt(deps, run, k - 1);
    CameFrom(deps, run[k - 1], run[k], i);
    if i in run[k - 1].ready {
      l := k - 1;
    } else {
      l := WasReady(deps, run, k - 1, i);
    }
  }

  /** When a unit is decided, everything it reaches is complete. */
  lemma ReachedComplete(deps: Graph<SccId>, m: Moment, i: SccId)
    requires Closed(deps) && InPlace(deps, m) && i in m.ready
    ensures i in deps && Closure(deps, i) <= m.completed
  {
    ClosureLeast(deps, i, m.completed);
  }

  // Keeping a unit from finishing.

  /** Decided units are being worked on or complete. */
  lemma AllDecided(deps: Graph<SccId>, m: Moment, m1: Moment)
    requires NextRound(deps, m, m1)
    ensures m1.completed + m1.pending == m.completed + m.pending + m.ready
    ensures forall i :: i in m1.completed || i in m1.pending <==> i in m.completed || i in m.pending || i in m.ready
  {
    var done := m1.completed - m.completed;
    assert m1.completed == m.completed + done;
  }

  ghost function LastOf(run: seq<Moment>): Moment
    requires run != []
  {
    run[|run| - 1]
  }

  ghost function Undecided(deps: Graph<SccId>, m: Moment): set<SccId> {
    deps.Keys - m.completed - m.pending
  }

  /** After a round the run is one round longer, and what was ready is decided. */
  lemma RoundAdded(deps: Graph<SccId>, run: seq<Moment>, m: Moment, m1: Moment)
    requires IsRun(deps, run) && LastOf(run) == m && NextRound(deps, m, m1)
    ensures IsRun(deps, run + [m1]) && LastOf(run + [m1]) == m1
    ensures Undecided(deps, m1) == Undecided(deps, m) - m.ready
  {
    AllDecided(deps, m, m1);
  }

  lemma Extended(deps: Graph<SccId>, test: Test, run: seq<Moment>, m: Moment)
    requires IsRun(deps, run) && AllAnswered(test, run) && NextRound(deps, run[|run| - 1], m) && AnsweredAt(test, m)
    ensures IsRun(deps, run + [m]) && AllAnswered(test, run + [m])
  {
  }

  /** A round in which j, if it is worked on, does not finish, and everything else does. */
  lemma RoundWithout(deps: Graph<SccId>, test: Test, m: Moment, j: SccId) returns (m1: Moment)
    requires m.cached <= m.ready && j !in m.cached && m.completed !! m.pending + m.ready
    ensures NextRound(deps, m, m1) && AnsweredAt(test, m1)
    ensures m1.completed == m.completed + (if m.cached != {} then m.cached else m.pending + m.ready - {j})
  {
    var done := if m.cached != {} then m.cached else m.pending + m.ready - {j};
    var completed := m.completed + done;
    var ready := NowReady(deps, m.completed, completed);
    assert completed - m.completed == done;
    m1 := Moment(completed, m.pending + m.ready - done, ready, set i | i in ready && test(i, completed));
  }

  /** As long as i is undecided, something that it reaches, or i itself, can be worked on. */
  lemma OthersLeft(deps: Graph<SccId>, m: Moment, i: SccId) returns (x: SccId)
    requires Closed(deps) && Acyclic(deps) && InPlace(deps, m) && i in deps && i !in m.completed
    ensures x in m.pending + m.ready && (x == i || Reaches(deps, i, x))
  {
    var open := set y | y in deps && y !in m.completed && (y == i || Reaches(deps, i, y));
    assert i in open;
    x := AcyclicHasSink(deps, open);
    forall d | d in deps[x]
      ensures d in m.completed
    {
      EdgeReaches(deps, x, d);
      if x != i { ReachesTransitive(deps, i, x, d); }
      assert d !in open;
    }
  }

  /** A unit that is being worked on and that i does not reach can be kept back until i is decided. */
  lemma {:induction false} Delayed(deps: Graph<SccId>, test: Test, run: seq<Moment>, i: SccId, j: SccId)
    returns (more: seq<Moment>)
    requires Closed(deps) && Acyclic(deps) && IsRun(deps, run) && AllAnswered(test, run)
    requires i in deps && j != i && !Reaches(deps, i, j)
    requires var m := run[|run| - 1]; j in m.pending && i !in m.completed + m.pending
    ensures IsRun(deps, run + more) && AllAnswered(test, run + more)
    ensures var m := (run + more)[|run + more| - 1]; i in m.ready && j in m.pending
    decreases deps.Keys - run[|run| - 1].completed
  {
    var m := run[|run| - 1];
    RunInPlace(deps, run, |run| - 1);
    if i in m.ready {
      more := [];
      assert run + more == run;
    } else {
      CachedReady(deps, run, |run| - 1);
      var x := OthersLeft(deps, m, i);
      var m1 := LaterWithout(deps, test, m, i, j, x);
      Extended(deps, test, run, m1);
      var run1 := run + [m1];
      assert run1[|run1| - 1] == m1;
      var rest := Delayed(deps, test, run1, i, j);
      more := [m1] + rest;
      assert run + more == run1 + rest;
    }
  }

  lemma LaterWithout(deps: Graph<SccId>, test: Test, m: Moment, i: SccId, j: SccId, x: SccId) returns (m1: Moment)
    requires InPlace(deps, m) && m.cached <= m.ready
    requires j in m.pending && i !in m.completed + m.pending + m.ready && x in m.pending + m.ready && x != j
    ensures NextRound(deps, m, m1) && AnsweredAt(test, m1)
    ensures j in m1.pending && i !in m1.completed + m1.pending
    ensures deps.Keys - m1.completed < deps.Keys - m.completed
  {
    m1 := RoundWithout(deps, test, m, j);
    var done := m1.completed - m.completed;
    if m.cached != {} {
      var y :| y in m.cached;
      assert y in done;
    } else {
      assert x in done;
    }
    var y :| y in done;
    assert y in deps.Keys - m.completed && y !in deps.Keys - m1.completed;
  }

  // When a unit may still change.

  ghost predicate FoundStale(run: seq<Moment>, j: SccId) {
    exists k :: 0 <= k < |run| && j in run[k].ready && j !in run[k].cached
  }

  ghost predicate NeverStale(deps: Graph<SccId>, test: Test, j: SccId) {
    forall run | IsRun(deps, run) && AllAnswered(test, run) :: !FoundStale(run, j)
  }

  /** While i is decided in round k, unit j does not change any more: it is complete, or used as it was loaded. */
  ghost predicate FinalFor(run: seq<Moment>, k: nat, i: SccId, j: SccId)
    requires k < |run|
  {
    j == i || j in run[k].completed || !FoundStale(run, j)
  }

  ghost predicate AlwaysFinal(deps: Graph<SccId>, test: Test, i: SccId, j: SccId) {
    forall run: seq<Moment>, k: nat | IsRun(deps, run) && AllAnswered(test, run) && k < |run| && i in run[k].ready ::
      FinalFor(run, k, i, j)
  }

  /**
   * Whenever unit i is decided, unit j does not change any more, if and only if it is i itself, i
   * reaches it, or the freshness test accepts it in every run.
   */
  lemma FinalIffReachable(deps: Graph<SccId>, test: Test, i: SccId, j: SccId)
    requires Closed(deps) && Acyclic(deps) && i in deps && j in deps
    ensures AlwaysFinal(deps, test, i, j) <==> j == i || Reaches(deps, i, j) || NeverStale(deps, test, j)
  {
    if Reaches(deps, i, j) {
      forall run: seq<Moment>, k: nat | IsRun(deps, run) && AllAnswered(test, run) && k < |run| && i in run[k].ready
        ensures FinalFor(run, k, i, j)
      {
        RunInPlace(deps, run, k);
        ReachedComplete(deps, run[k], i);
        assert j in Closure(deps, i);
      }
    } else if j != i && !NeverStale(deps, test, j) {
      var run :| IsRun(deps, run) && AllAnswered(test, run) && FoundStale(run, j);
      var run1, k := NotFinal(deps, test, run, i, j);
    }
  }

  /** From a run in which j is found stale, one in which i is decided while j may change. */
  lemma NotFinal(deps: Graph<SccId>, test: Test, run: seq<Moment>, i: SccId, j: SccId)
    returns (run1: seq<Moment>, k: nat)
    requires Closed(deps) && Acyclic(deps) && i in deps && j != i && !Reaches(deps, i, j)
    requires IsRun(deps, run) && AllAnswered(test, run) && FoundStale(run, j)
    ensures IsRun(deps, run1) && AllAnswered(test, run1) && k < |run1| && i in run1[k].ready && !FinalFor(run1, k, i, j)
  {
    var n :| 0 <= n < |run| && j in run[n].ready && j !in run[n].cached;
    RunInPlace(deps, run, n);
    if i in run[n].ready {
      run1, k := run, n;
    } else if i in run[n].completed + run[n].pending {
      run1 := run;
      k := WasReady(deps, run, n, i);
      CompletedStays(deps, run, k, n);
    } else {
      run1, k := KeptBack(deps, test, run, i, j, n);
    }
  }

  lemma KeptBack(deps: Graph<SccId>, test: Test, run: seq<Moment>, i: SccId, j: SccId, n: nat)
    returns (run1: seq<Moment>, k: nat)
    requires Closed(deps) && Acyclic(deps) && i in deps && j != i && !Reaches(deps, i, j)
    requires IsRun(deps, run) && AllAnswered(test, run) && n < |run| && j in run[n].ready && j !in run[n].cached
    requires i !in run[n].completed + run[n].pending + run[n].ready
    ensures IsRun(deps, run1) && AllAnswered(test, run1) && k < |run1| && i in run1[k].ready && !FinalFor(run1, k, i, j)
  {
    RunInPlace(deps, run, n);
    CachedReady(deps, run, n);
    var m := RoundWithout(deps, test, run[n], j);
    var first := run[..n + 1];
    Extended(deps, test, first, m);
    var more := Delayed(deps, test, first + [m], i, j);
    run1 := first + [m] + more;
    k := |run1| - 1;
    assert run1[n] == run[n];
    assert FoundStale(run1, j);
    RunInPlace(deps, run1, k);
  }

  lemma CachedReady(deps: Graph<SccId>, run: seq<Moment>, n: nat)
    requires IsRun(deps, run) && n < |run|
    ensures run[n].cached <= run[n].ready
  {
    if n > 0 {
      RoundAt(deps, run, n - 1);
    }
  }
}
