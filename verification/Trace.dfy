// Histories of scheduling decisions, and what makes one safe.
module Trace {
  import opened Reach
  import opened SccTable

  datatype Event = DeclaredFresh(scc: SccId) | Submitted(scc: SccId) | Finished(scc: SccId)

  ghost function DecidedIn(tr: seq<Event>): set<SccId> {
    set e | e in tr && !e.Finished? :: e.scc
  }

  ghost function FinishedIn(tr: seq<Event>): set<SccId> {
    set e | e in tr && e.Finished? :: e.scc
  }

  /** A unit is decided once, after its dependencies finished, and finishes once, after that. */
  ghost predicate StepOk(deps: Graph<SccId>, before: seq<Event>, e: Event) {
    && e.scc in deps
    && if e.Finished? then e.scc in DecidedIn(before) && e.scc !in FinishedIn(before)
       else e.scc !in DecidedIn(before) && deps[e.scc] <= FinishedIn(before)
  }

  ghost predicate Safe(deps: Graph<SccId>, tr: seq<Event>) {
    forall k | 0 <= k < |tr| :: StepOk(deps, tr[..k], tr[k])
  }

  lemma SafeAppend(deps: Graph<SccId>, tr: seq<Event>, e: Event)
    requires Safe(deps, tr) && StepOk(deps, tr, e)
    ensures Safe(deps, tr + [e])
    ensures DecidedIn(tr + [e]) == DecidedIn(tr) + (if e.Finished? then {} else {e.scc})
    ensures FinishedIn(tr + [e]) == FinishedIn(tr) + (if e.Finished? then {e.scc} else {})
  {
    var all := tr + [e];
    forall k | 0 <= k < |all|
      ensures StepOk(deps, all[..k], all[k])
    {
      assert all[..k] == tr[..k];
      assert k == |tr| ==> tr[..k] == tr;
    }
  }

  /** A safe history lists each decision and each completion at most once, and in dependency order. */
  lemma SafeOrder(deps: Graph<SccId>, tr: seq<Event>, k: nat)
    requires Safe(deps, tr) && k < |tr| && !tr[k].Finished?
    ensures forall j | 0 <= j < |tr| && j != k && tr[j].scc == tr[k].scc :: tr[j].Finished? && k < j
    ensures tr[k].scc in deps
    ensures forall d | d in deps[tr[k].scc] :: exists j | 0 <= j < k :: tr[j] == Finished(d)
  {
    assert StepOk(deps, tr[..k], tr[k]);
    forall j | 0 <= j < |tr| && j != k && tr[j].scc == tr[k].scc
      ensures tr[j].Finished? && k < j
    {
      assert StepOk(deps, tr[..j], tr[j]);
      if k < j {
        assert tr[k] in tr[..j];
      }
    }
    forall d | d in deps[tr[k].scc]
      ensures exists j | 0 <= j < k :: tr[j] == Finished(d)
    {
      assert d in FinishedIn(tr[..k]);
      assert Finished(d) in tr[..k];
    }
  }

  /** A batch of decisions, taken in order. */
  ghost function Decisions(ids: seq<SccId>, cached: bool): seq<Event> {
    if ids == [] then []
    else [if cached then DeclaredFresh(ids[0]) else Submitted(ids[0])] + Decisions(ids[1..], cached)
  }

  ghost function Completions(ids: seq<SccId>): seq<Event> {
    if ids == [] then [] else [Finished(ids[0])] + Completions(ids[1..])
  }

  ghost predicate Distinct<T>(ids: seq<T>) {
    forall i, j | 0 <= i < j < |ids| :: ids[i] != ids[j]
  }

  lemma RestDiffer(ids: seq<SccId>)
    requires Distinct(ids) && ids != []
    ensures Distinct(ids[1..]) && IdSet(ids) == {ids[0]} + IdSet(ids[1..])
    ensures forall i | i in ids[1..] :: i in ids && i != ids[0]
  {
    assert ids == [ids[0]] + ids[1..];
  }

  ghost function IdSet(ids: seq<SccId>): set<SccId> {
    set i | i in ids
  }

  lemma DecisionsUnfold(tr: seq<Event>, ids: seq<SccId>, cached: bool)
    requires ids != []
    ensures var e := if cached then DeclaredFresh(ids[0]) else Submitted(ids[0]);
            tr + Decisions(ids, cached) == (tr + [e]) + Decisions(ids[1..], cached)
  {
  }

  lemma {:induction false} SafeDecisions(deps: Graph<SccId>, tr: seq<Event>, ids: seq<SccId>, cached: bool,
      decided: set<SccId>, finished: set<SccId>)
    requires Safe(deps, tr) && Distinct(ids)
    requires DecidedIn(tr) == decided && FinishedIn(tr) == finished
    requires forall i | i in ids :: i in deps && i !in decided && deps[i] <= finished
    ensures var all := tr + Decisions(ids, cached);
            Safe(deps, all) && DecidedIn(all) == decided + IdSet(ids) && FinishedIn(all) == finished
    decreases |ids|
  {
    if ids == [] {
      assert tr + Decisions(ids, cached) == tr;
    } else {
      var e := if cached then DeclaredFresh(ids[0]) else Submitted(ids[0]);
      assert ids[0] in ids;
      SafeAppend(deps, tr, e);
      RestDiffer(ids);
      SafeDecisions(deps, tr + [e], ids[1..], cached, decided + {ids[0]}, finished);
      DecisionsUnfold(tr, ids, cached);
    }
  }

  lemma CompletionsUnfold(tr: seq<Event>, ids: seq<SccId>)
    requires ids != []
    ensures tr + Completions(ids) == (tr + [Finished(ids[0])]) + Completions(ids[1..])
  {
  }

  lemma {:induction false} SafeCompletions(deps: Graph<SccId>, tr: seq<Event>, ids: seq<SccId>,
      decided: set<SccId>, finished: set<SccId>)
    requires Safe(deps, tr) && Distinct(ids)
    requires DecidedIn(tr) == decided && FinishedIn(tr) == finished
    requires forall i | i in ids :: i in deps && i in decided && i !in finished
    ensures var all := tr + Completions(ids);
            Safe(deps, all) && DecidedIn(all) == decided && FinishedIn(all) == finished + IdSet(ids)
    decreases |ids|
  {
    if ids == [] {
      assert tr + Completions(ids) == tr;
    } else {
      var e := Finished(ids[0]);
      assert ids[0] in ids;
      SafeAppend(deps, tr, e);
      RestDiffer(ids);
      CompletionsUnfold(tr, ids);
      SafeCompletions(deps, tr + [e], ids[1..], decided, finished + {ids[0]});
    }
  }

  /** Nothing was checked: every decision was to use the cache. */
  ghost predicate NoneSubmitted(tr: seq<Event>) {
    forall e | e in tr :: !e.Submitted?
  }

  lemma {:induction false} DecisionsSubmit(ids: seq<SccId>, cached: bool)
    ensures NoneSubmitted(Decisions(ids, cached)) <==> cached || ids == []
    decreases |ids|
  {
    if ids != [] {
      DecisionsSubmit(ids[1..], cached);
      assert Decisions(ids, cached)[0] in Decisions(ids, cached);
    }
  }

  lemma {:induction false} CompletionsSubmit(ids: seq<SccId>)
    ensures NoneSubmitted(Completions(ids))
    decreases |ids|
  {
    if ids != [] {
      CompletionsSubmit(ids[1..]);
    }
  }

  lemma RoundSubmits(tr: seq<Event>, stale: seq<SccId>, cached: seq<SccId>, done: seq<SccId>)
    ensures NoneSubmitted(tr + Decisions(stale, false) + Decisions(cached, true) + Completions(done))
            <==> NoneSubmitted(tr) && stale == []
  {
    DecisionsSubmit(stale, false);
    DecisionsSubmit(cached, true);
    CompletionsSubmit(done);
    BothSubmit(tr, Decisions(stale, false));
    BothSubmit(tr + Decisions(stale, false), Decisions(cached, true));
    BothSubmit(tr + Decisions(stale, false) + Decisions(cached, true), Completions(done));
  }

  lemma BothSubmit(a: seq<Event>, b: seq<Event>)
    ensures NoneSubmitted(a + b) <==> NoneSubmitted(a) && NoneSubmitted(b)
  {
    assert forall e | e in a :: e in a + b;
    assert forall e | e in b :: e in a + b;
  }
}
