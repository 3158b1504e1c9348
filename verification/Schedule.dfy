// Facts about scheduling: which units wait, which errors have been shown, and what the history is.
module Schedule {
  import opened Text
  import opened Reach
  import opened ImportHash
  import opened Incremental
  import opened SccTable
  import opened Progress
  import opened Rounds
  import opened Trace

  /** The set all is the set a with these units added. */
  ghost predicate Added(a: set<SccId>, ids: seq<SccId>, all: set<SccId>) {
    forall i :: i in all <==> i in a || i in ids
  }

  /** The set left is the set a without these units. */
  ghost predicate Removed(a: set<SccId>, ids: seq<SccId>, left: set<SccId>) {
    forall i :: i in left <==> i in a && i !in ids
  }

  lemma AddedIsUnion(a: set<SccId>, ids: seq<SccId>, all: set<SccId>)
    ensures Added(a, ids, all) <==> all == a + IdSet(ids)
  {
    if Added(a, ids, all) {
      assert forall i :: i in IdSet(ids) <==> i in ids;
    }
  }

  /** The units that still have unfinished dependencies. */
  ghost function Waiting(deps: Graph<SccId>, done: set<SccId>): set<SccId> {
    set i | i in deps && !(deps[i] <= done)
  }

  /** How many dependencies of a unit are unfinished. */
  ghost function Unfinished(deps: Graph<SccId>, done: set<SccId>, i: SccId): nat
    requires i in deps
  {
    |deps[i] - done|
  }

  lemma NoneUnfinished(deps: Graph<SccId>, done: set<SccId>, i: SccId)
    requires i in deps
    ensures Unfinished(deps, done, i) == 0 <==> i !in Waiting(deps, done)
  {
    if |deps[i] - done| == 0 {
      assert deps[i] - done == {};
      assert forall d | d in deps[i] :: d in done || d in deps[i] - done;
    } else {
      var d :| d in deps[i] - done;
    }
  }

  lemma UnfinishedStep(deps: Graph<SccId>, done: set<SccId>, j: SccId, i: SccId)
    requires i in deps && j !in done
    ensures Unfinished(deps, done + {j}, i) == Unfinished(deps, done, i) - (if j in deps[i] then 1 else 0)
    ensures Unfinished(deps, done, i) == 0 <==> i !in Waiting(deps, done)
  {
    NoneUnfinished(deps, done, i);
    if j in deps[i] {
      assert deps[i] - done == (deps[i] - (done + {j})) + {j};
    } else {
      assert deps[i] - done == deps[i] - (done + {j});
    }
  }

  /** Once the dependents of j are told, those that waited only for j no longer wait. */
  lemma NotifiedMeans(deps: Graph<SccId>, finished: set<SccId>, j: SccId, dependents: seq<SccId>, ready: seq<SccId>)
    requires j !in finished && forall i :: i in dependents <==> i in deps && j in deps[i]
    requires forall i :: i in ready <==> i in dependents && Unfinished(deps, finished, i) == 1
    ensures forall i :: i in ready <==> i in Waiting(deps, finished) && i !in Waiting(deps, finished + {j})
    ensures forall i :: i in Waiting(deps, finished + {j}) <==> i in Waiting(deps, finished) && i !in ready
    ensures forall i | i in deps ::
              Unfinished(deps, finished + {j}, i) == Unfinished(deps, finished, i) - (if i in dependents then 1 else 0)
  {
    forall i | i in deps
      ensures Unfinished(deps, finished + {j}, i) == Unfinished(deps, finished, i) - (if i in dependents then 1 else 0)
      ensures i in ready <==> i in Waiting(deps, finished) && i !in Waiting(deps, finished + {j})
      ensures i in Waiting(deps, finished + {j}) ==> i in Waiting(deps, finished)
    {
      UnfinishedStep(deps, finished, j, i);
      NoneUnfinished(deps, finished + {j}, i);
    }
  }

  lemma MoreReady(ready: seq<SccId>, more: seq<SccId>, notReady: set<SccId>, before: set<SccId>, after: set<SccId>)
    requires Distinct(ready) && Distinct(more)
    requires forall i :: i in ready <==> i in notReady && i !in before
    requires forall i :: i in more <==> i in before && i !in after
    ensures Distinct(ready + more)
    ensures before <= notReady && after <= before ==> forall i :: i in ready + more <==> i in notReady && i !in after
  {
    forall i, j | 0 <= i < |ready| && 0 <= j < |more|
      ensures ready[i] != more[j]
    {
      assert ready[i] in ready && more[j] in more;
    }
  }

  lemma WaitingShrinks(deps: Graph<SccId>, a: set<SccId>, b: set<SccId>)
    requires a <= b
    ensures Waiting(deps, b) <= Waiting(deps, a)
  {
  }

  /** On an acyclic graph the units cannot all be finished or waiting, unless none waits. */
  lemma NoStall(deps: Graph<SccId>, completed: set<SccId>)
    requires Closed(deps) && Acyclic(deps)
    requires deps.Keys <= completed + Waiting(deps, completed)
    ensures Waiting(deps, completed) == {}
  {
    if Waiting(deps, completed) != {} {
      var v := AcyclicHasSink(deps, Waiting(deps, completed));
      assert false;
    }
  }

  /**
   * Where every unit is: ready to be decided, not ready because it waits for others, being worked
   * on, or complete.
   */
  ghost predicate Scheduled(t: Table, completed: set<SccId>, pending: set<SccId>, ready: seq<SccId>,
      notReady: set<SccId>) {
    && Distinct(ready) && ReadyUnits(t, completed, IdSet(ready)) && ReadyUnits(t, completed, pending)
    && (forall i | i in ready :: i !in pending)
    && notReady == Waiting(t.deps, completed)
    && Placed(t, completed, pending, ready, notReady)
  }

  ghost predicate Placed(t: Table, completed: set<SccId>, pending: set<SccId>, ready: seq<SccId>,
      notReady: set<SccId>) {
    forall i {:trigger IsPlaced(i, completed, pending, ready, notReady)} | i in t.deps ::
      IsPlaced(i, completed, pending, ready, notReady)
  }

  ghost predicate IsPlaced(i: SccId, completed: set<SccId>, pending: set<SccId>, ready: seq<SccId>,
      notReady: set<SccId>) {
    i in ready || i in notReady || i in pending || i in completed
  }

  /** The decided units that are done make others ready; nothing gets lost. */
  lemma Rescheduled(t: Table, completed: set<SccId>, decided: set<SccId>, done: seq<SccId>,
      completed1: set<SccId>, pending1: set<SccId>, ready1: seq<SccId>)
    requires t.members.Keys == t.deps.Keys
    requires forall i | i in completed :: i in t.deps && t.deps[i] <= completed
    requires ReadyUnits(t, completed, decided) && Placed(t, completed, decided, [], Waiting(t.deps, completed))
    requires forall i | i in done :: i in decided
    requires Added(completed, done, completed1) && Removed(decided, done, pending1)
    requires Distinct(ready1)
    requires forall i :: i in ready1 <==> i in Waiting(t.deps, completed) && i !in Waiting(t.deps, completed1)
    ensures Scheduled(t, completed1, pending1, ready1, Waiting(t.deps, completed1))
  {
    assert completed <= completed1;
    forall i | i in ready1
      ensures i in t.members && i in t.deps && t.deps[i] <= completed1 && i !in completed1 && i !in pending1
    {
      assert i in Waiting(t.deps, completed);
    }
    forall i | i in t.deps
      ensures IsPlaced(i, completed1, pending1, ready1, Waiting(t.deps, completed1))
    {
      assert IsPlaced(i, completed, decided, [], Waiting(t.deps, completed));
    }
  }

  /** The units of a list are divided into two others. */
  ghost predicate SplitOf(sccs: seq<SccId>, stale: seq<SccId>, cached: seq<SccId>) {
    && Distinct(stale) && Distinct(cached)
    && (forall i :: i in sccs <==> i in stale || i in cached)
    && forall i | i in stale :: i !in cached
  }

  lemma SplitNext(sccs: seq<SccId>, k: nat, stale: seq<SccId>, cached: seq<SccId>)
    requires k < |sccs| && Distinct(sccs) && SplitOf(sccs[..k], stale, cached)
    ensures SplitOf(sccs[..k + 1], stale + [sccs[k]], cached)
    ensures SplitOf(sccs[..k + 1], stale, cached + [sccs[k]])
  {
    assert sccs[..k + 1] == sccs[..k] + [sccs[k]];
    assert sccs[k] !in sccs[..k];
  }

  lemma OneMoreRecorded(t: Table, graph: map<ModId, State>, shown: map<ModId, seq<Str>>, cached: seq<SccId>, id: SccId)
    requires id in t.members
    ensures (shown + RecordedErrors(graph, ModulesOf(t, IdSet(cached)))) + RecordedErrors(graph, t.members[id])
            == shown + RecordedErrors(graph, ModulesOf(t, IdSet(cached + [id])))
  {
    RecordedErrorsUnion(graph, shown, ModulesOf(t, IdSet(cached)), t.members[id]);
    assert ModulesOf(t, IdSet(cached + [id])) == ModulesOf(t, IdSet(cached)) + t.members[id];
  }

  lemma OneMoreFresh(t: Table, graph: map<ModId, State>, cached: seq<SccId>, id: SccId)
    requires AllFresh(t, graph, IdSet(cached)) && id in t.members && FreshUnit(t, graph, id)
    ensures AllFresh(t, graph, IdSet(cached + [id]))
  {
    forall i | i in IdSet(cached + [id])
      ensures i in t.members && FreshUnit(t, graph, i)
    {
      if i != id {
        assert i in IdSet(cached);
      }
    }
  }

  /** Ready units split into those to be checked and those to be served from the cache. */
  ghost predicate Split(pending: set<SccId>, stale: seq<SccId>, cached: seq<SccId>, decided: set<SccId>) {
    && Distinct(stale) && Distinct(cached)
    && (forall i | i in stale :: i !in cached && i !in pending)
    && (forall i | i in cached :: i !in pending)
    && forall i :: i in decided <==> i in pending || i in stale || i in cached
  }

  lemma SplitReady(t: Table, completed: set<SccId>, pending: set<SccId>, ready: seq<SccId>, notReady: set<SccId>,
      stale: seq<SccId>, cached: seq<SccId>) returns (decided: set<SccId>)
    requires Scheduled(t, completed, pending, ready, notReady)
    requires SplitOf(ready, stale, cached)
    ensures Split(pending, stale, cached, decided)
    ensures ReadyUnits(t, completed, decided) && Placed(t, completed, decided, [], notReady)
    ensures forall id | id in stale :: id in ready
    ensures ready == [] ==> stale == [] && cached == []
  {
    decided := pending + IdSet(ready);
    forall i | i in t.deps
      ensures IsPlaced(i, completed, decided, [], notReady)
    {
      assert IsPlaced(i, completed, pending, ready, notReady);
    }
    if stale != [] {
      assert stale[0] in ready;
    }
    if cached != [] {
      assert cached[0] in ready;
    }
  }

  /** The units found fresh are those that the freshness test accepts. */
  lemma AcceptedAre(t: Table, graph: map<ModId, State>, ready: seq<SccId>, stale: seq<SccId>, cached: seq<SccId>)
    requires SplitOf(ready, stale, cached) && AllFresh(t, graph, IdSet(cached)) && AllStale(t, graph, stale)
    ensures (set i | i in ready && i in t.members && FreshUnit(t, graph, i)) == IdSet(cached)
  {
    forall i | i in ready
      ensures i in cached <==> i in t.members && FreshUnit(t, graph, i)
    {
      assert i in cached ==> i in IdSet(cached);
    }
  }

  lemma DecidedAre(pending: set<SccId>, ready: seq<SccId>, stale: seq<SccId>, cached: seq<SccId>, decided: set<SccId>)
    requires SplitOf(ready, stale, cached) && Split(pending, stale, cached, decided)
    ensures decided == pending + IdSet(ready)
    ensures IdSet(cached) != {} ==> cached != []
  {
  }

  lemma StartsRun(deps: Graph<SccId>, m: Moment, ready: seq<SccId>, notReady: set<SccId>)
    requires m.completed == {} && m.pending == {} && m.ready == IdSet(ready) && m.cached <= m.ready
    requires notReady == Waiting(deps, {}) && forall i :: i in ready <==> i in deps && i !in notReady
    ensures IsRun(deps, [m])
  {
    assert m.ready == set i | i in deps && deps[i] == {};
  }

  /** A round of the loop is one of the rounds considered for what may be unfinished. */
  lemma RoundFollows(deps: Graph<SccId>, m: Moment, m1: Moment, decided: set<SccId>, done: seq<SccId>,
      ready1: seq<SccId>)
    requires decided == m.pending + m.ready && decided !! m.completed && forall i | i in done :: i in decided
    requires m.cached != {} ==> IdSet(done) == m.cached
    requires Added(m.completed, done, m1.completed) && Removed(decided, done, m1.pending)
    requires forall i :: i in ready1 <==> i in Waiting(deps, m.completed) && i !in Waiting(deps, m1.completed)
    requires m1.ready == IdSet(ready1) && m1.cached <= m1.ready
    ensures NextRound(deps, m, m1)
  {
    assert m1.completed - m.completed == IdSet(done);
    assert m1.ready == NowReady(deps, m.completed, m1.completed);
  }

  lemma NothingRecorded(t: Table, graph: map<ModId, State>, flushed: map<ModId, seq<Str>>)
    ensures flushed + RecordedErrors(graph, ModulesOf(t, IdSet([]))) == flushed
  {
    assert RecordedErrors(graph, ModulesOf(t, IdSet([]))) == map[];
  }

  /** When no unit is ready or being worked on, none is waiting either. */
  lemma NothingWaits(t: Table, completed: set<SccId>, notReady: set<SccId>)
    requires Closed(t.deps) && Acyclic(t.deps)
    requires Scheduled(t, completed, {}, [], notReady)
    ensures notReady == {}
  {
    forall i | i in t.deps
      ensures i in completed + Waiting(t.deps, completed)
    {
      assert IsPlaced(i, completed, {}, [], notReady);
    }
    NoStall(t.deps, completed);
  }

  lemma StartSchedule(t: Table, ready: seq<SccId>, notReady: set<SccId>)
    requires t.members.Keys == t.deps.Keys
    requires Distinct(ready) && notReady == Waiting(t.deps, {})
    requires forall i :: i in ready <==> i in t.deps && i !in notReady
    ensures Scheduled(t, {}, {}, ready, notReady) && HistoryOk(t.deps, [], {}, {})
  {
    forall i | i in t.deps
      ensures IsPlaced(i, {}, {}, ready, notReady)
    {
    }
  }

  lemma UndecidedFalls(t: Table, completed: set<SccId>, pending: set<SccId>, ready: seq<SccId>, notReady: set<SccId>,
      m: Moment)
    requires Scheduled(t, completed, pending, ready, notReady)
    requires m.completed == completed && m.pending == pending && m.ready == IdSet(ready)
    ensures ready == [] ==> Undecided(t.deps, m) - m.ready == Undecided(t.deps, m)
    ensures ready != [] ==> Undecided(t.deps, m) - m.ready < Undecided(t.deps, m)
  {
    if ready != [] {
      assert ready[0] in IdSet(ready);
      assert ready[0] in Undecided(t.deps, m);
    }
  }

  // Errors.

  ghost function Lines(flushed: map<ModId, seq<Str>>, m: ModId): seq<Str> {
    if m in flushed then flushed[m] else []
  }

  /** The errors of every complete module have been shown, except where a worker has yet to report them. */
  ghost predicate ErrorsShown(outcomes: map<ModId, Outcome>, flushed: map<ModId, seq<Str>>, held: set<ModId>) {
    && flushed.Keys <= outcomes.Keys
    && forall m {:trigger outcomes[m]} | m in outcomes && m !in held :: Lines(flushed, m) == outcomes[m].errors
  }

  /** The errors loaded from the cache are shown for units that are served from it. */
  lemma ShownFromCache(outcomes: map<ModId, Outcome>, flushed: map<ModId, seq<Str>>, held: set<ModId>,
      news: map<ModId, Outcome>, graph: map<ModId, State>, outcomes1: map<ModId, Outcome>,
      flushed1: map<ModId, seq<Str>>)
    requires ErrorsShown(outcomes, flushed, held)
    requires news.Keys !! outcomes.Keys && news.Keys <= graph.Keys
    requires forall m | m in news :: news[m].errors == graph[m].errorLines
    requires outcomes1 == outcomes + news && flushed1 == flushed + RecordedErrors(graph, news.Keys)
    ensures ErrorsShown(outcomes1, flushed1, held)
  {
  }

  lemma ShownChecked(outcomes: map<ModId, Outcome>, flushed: map<ModId, seq<Str>>, held: set<ModId>,
      news: map<ModId, Outcome>, reported: map<ModId, seq<Str>>, outcomes1: map<ModId, Outcome>,
      flushed1: map<ModId, seq<Str>>)
    requires ErrorsShown(outcomes, flushed, held)
    requires reported.Keys == news.Keys && forall m | m in news :: reported[m] == news[m].errors
    requires outcomes1 == outcomes + news && flushed1 == flushed + reported
    ensures ErrorsShown(outcomes1, flushed1, held)
  {
  }

  /** Some workers report errors of modules they held; others take hold of the modules in news. */
  lemma ShownByWorkers(outcomes: map<ModId, Outcome>, flushed: map<ModId, seq<Str>>, held: set<ModId>,
      news: map<ModId, Outcome>, reported: map<ModId, seq<Str>>, held1: set<ModId>)
    requires ErrorsShown(outcomes, flushed, held) && news.Keys !! outcomes.Keys
    requires forall m | m in reported :: m in outcomes && reported[m] == outcomes[m].errors
    requires held + news.Keys <= held1 + reported.Keys
    ensures ErrorsShown(outcomes + news, flushed + reported, held1)
  {
  }

  // Histories.

  /** A safe history of a run in which these units are complete and those are being worked on. */
  ghost predicate HistoryOk(deps: Graph<SccId>, tr: seq<Event>, completed: set<SccId>, pending: set<SccId>) {
    Safe(deps, tr) && DecidedIn(tr) == completed + pending && FinishedIn(tr) == completed
  }

  /** One round extends the history: first the decisions, then what finished. */
  lemma HistoryRound(t: Table, tr: seq<Event>, completed: set<SccId>, pending: set<SccId>,
      stale: seq<SccId>, cached: seq<SccId>, decided: set<SccId>,
      done: seq<SccId>, completed1: set<SccId>, pending1: set<SccId>) returns (tr1: seq<Event>)
    requires HistoryOk(t.deps, tr, completed, pending)
    requires Split(pending, stale, cached, decided) && ReadyUnits(t, completed, decided)
    requires Distinct(done) && forall i | i in done :: i in decided
    requires Added(completed, done, completed1) && Removed(decided, done, pending1)
    ensures tr1 == tr + Decisions(stale, false) + Decisions(cached, true) + Completions(done)
    ensures HistoryOk(t.deps, tr1, completed1, pending1)
    ensures NoneSubmitted(tr1) <==> NoneSubmitted(tr) && stale == []
  {
    RoundSubmits(tr, stale, cached, done);
    forall i | i in stale || i in cached
      ensures i in t.deps && t.deps[i] <= completed && i !in completed && i !in pending
    {
      assert i in decided;
    }
    var before := completed + pending;
    SafeDecisions(t.deps, tr, stale, false, before, completed);
    var a := tr + Decisions(stale, false);
    SafeDecisions(t.deps, a, cached, true, before + IdSet(stale), completed);
    var b := a + Decisions(cached, true);
    var all := before + IdSet(stale) + IdSet(cached);
    assert forall i :: i in all <==> i in completed || i in decided;
    SafeCompletions(t.deps, b, done, all, completed);
    tr1 := b + Completions(done);
    assert completed + IdSet(done) == completed1;
    assert all == completed1 + pending1;
  }

  // Builds in which nothing is submitted.

  ghost function FreshUnits(t: Table, graph: map<ModId, State>): set<SccId> {
    set i | i in t.members && FreshUnit(t, graph, i)
  }

  /** While nothing is submitted only units that were fresh when they were loaded are complete. */
  ghost predicate QuietSoFar(t: Table, loaded: map<ModId, State>, completed: set<SccId>, tr: seq<Event>) {
    && (NoneSubmitted(tr) ==> completed <= FreshUnits(t, loaded))
    && (t.members.Keys <= FreshUnits(t, loaded) ==> NoneSubmitted(tr))
  }

  lemma StaysQuiet(t: Table, loaded: map<ModId, State>, graph: map<ModId, State>, tr: seq<Event>, tr1: seq<Event>,
      stale: seq<SccId>, cached: seq<SccId>, completed: set<SccId>, completed1: set<SccId>)
    requires QuietSoFar(t, loaded, completed, tr) && (NoneSubmitted(tr) ==> graph == loaded)
    requires NoneSubmitted(tr1) <==> NoneSubmitted(tr) && stale == []
    requires AllFresh(t, graph, IdSet(cached)) && AllStale(t, graph, stale)
    requires NoneSubmitted(tr1) ==> Added(completed, cached, completed1)
    ensures QuietSoFar(t, loaded, completed1, tr1)
  {
    if stale != [] {
      assert stale[0] in stale && stale[0] !in FreshUnits(t, graph) && stale[0] in t.members;
    }
    if NoneSubmitted(tr1) {
      forall i | i in completed1
        ensures i in FreshUnits(t, loaded)
      {
        assert i in cached ==> i in IdSet(cached);
      }
    }
  }

  lemma EndsQuiet(t: Table, loaded: map<ModId, State>, completed: set<SccId>, tr: seq<Event>)
    requires QuietSoFar(t, loaded, completed, tr) && completed == t.members.Keys
    ensures NoneSubmitted(tr) <==> forall i | i in t.members :: FreshUnit(t, loaded, i)
  {
    if forall i | i in t.members :: FreshUnit(t, loaded, i) {
      assert t.members.Keys <= FreshUnits(t, loaded);
    }
    if NoneSubmitted(tr) {
      forall i | i in t.members
        ensures FreshUnit(t, loaded, i)
      {
        assert i in completed && i in FreshUnits(t, loaded);
      }
    }
  }
}
