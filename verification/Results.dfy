// Results of processing modules, and what has been received from the workers so far.
module Results {
  import opened Text
  import opened ImportHash
  import opened Incremental
  import opened Progress
  import opened Workers

  /** A worker's answer for one module. */
  datatype ModuleResult = InterfaceResult(hash: Hash) | ErrorsResult(lines: seq<Str>)

  function InterfaceResults(outs: map<ModId, Outcome>): map<ModId, ModuleResult> {
    map m | m in outs :: InterfaceResult(outs[m].iface)
  }

  function ErrorResults(outs: map<ModId, Outcome>): map<ModId, ModuleResult> {
    map m | m in outs :: ErrorsResult(outs[m].errors)
  }

  function ErrorsOf(outs: map<ModId, Outcome>): map<ModId, seq<Str>> {
    map m | m in outs :: outs[m].errors
  }

  lemma InterfaceResultsReport(outs: map<ModId, Outcome>, shown: map<ModId, seq<Str>>)
    ensures ReportsInterfaces(InterfaceResults(outs), outs) && InterfaceResults(outs).Keys == outs.Keys
    ensures shown + ReportedErrors(InterfaceResults(outs)) == shown
  {
  }

  lemma ErrorResultsReport(outs: map<ModId, Outcome>, graph: map<ModId, State>)
    ensures ReportsInterfaces(ErrorResults(outs), map[]) && ErrorResults(outs).Keys == outs.Keys
    ensures ReportedErrors(ErrorResults(outs)) == ErrorsOf(outs)
    ensures WithIfaces(graph, map[]) == graph
  {
  }

  /** The interfaces of news have been recorded, except for the modules in left. */
  ghost predicate IfacesSet(before: map<ModId, State>, now: map<ModId, State>, news: map<ModId, Outcome>,
      left: set<ModId>) {
    && now.Keys == before.Keys
    && forall m | m in now ::
       now[m] == if m in news && m !in left then before[m].(iface := news[m].iface) else before[m]
  }

  lemma IfaceStep(before: map<ModId, State>, now: map<ModId, State>, news: map<ModId, Outcome>, left: set<ModId>,
      id: ModId)
    requires IfacesSet(before, now, news, left) && id in left && id in now
    ensures id in news ==> IfacesSet(before, now[id := now[id].(iface := news[id].iface)], news, left - {id})
    ensures id in news && news[id].iface == now[id].iface ==> IfacesSet(before, now, news, left - {id})
    ensures id !in news ==> IfacesSet(before, now, news, left - {id})
  {
  }

  /** The reported errors have been shown, except for the modules in left. */
  ghost predicate ErrorsSet(before: map<ModId, seq<Str>>, now: map<ModId, seq<Str>>, results: map<ModId, ModuleResult>,
      left: set<ModId>) {
    && now.Keys == before.Keys + (ReportedErrors(results).Keys - left)
    && forall m | m in now ::
       now[m] == if m in ReportedErrors(results) && m !in left then results[m].lines else before[m]
  }

  lemma ErrorStep(before: map<ModId, seq<Str>>, now: map<ModId, seq<Str>>, results: map<ModId, ModuleResult>,
      left: set<ModId>, id: ModId)
    requires ErrorsSet(before, now, results, left) && id in left && id in results
    ensures results[id].ErrorsResult? ==> ErrorsSet(before, now[id := results[id].lines], results, left - {id})
    ensures results[id].InterfaceResult? ==> ErrorsSet(before, now, results, left - {id})
  {
  }

  lemma AllSet(before: map<ModId, State>, now: map<ModId, State>, news: map<ModId, Outcome>,
      shownBefore: map<ModId, seq<Str>>, shown: map<ModId, seq<Str>>, results: map<ModId, ModuleResult>)
    requires IfacesSet(before, now, news, {}) && ErrorsSet(shownBefore, shown, results, {})
    ensures now == WithIfaces(before, news)
    ensures shown == shownBefore + ReportedErrors(results)
  {
  }

  /** The interface results are those of news, for exactly its modules. */
  ghost predicate ReportsInterfaces(results: map<ModId, ModuleResult>, news: map<ModId, Outcome>) {
    && (forall m | m in news :: m in results && results[m] == InterfaceResult(news[m].iface))
    && (forall m | m in results && results[m].InterfaceResult? :: m in news)
  }

  function ReportedErrors(results: map<ModId, ModuleResult>): map<ModId, seq<Str>> {
    map m | m in results && results[m].ErrorsResult? :: results[m].lines
  }

  // What one round of answers from the workers amounts to.

  /** The modules whose bodies workers are checking have the outcomes known to the build. */
  ghost predicate JobsKnown(busy: map<nat, Job>, outcomes: map<ModId, Outcome>) {
    forall w | w in busy && busy[w].Implementing? :: OutsKnown(busy[w].outs, outcomes)
  }

  ghost predicate OutsKnown(outs: map<ModId, Outcome>, outcomes: map<ModId, Outcome>) {
    forall m | m in outs :: m in outcomes && outs[m] == outcomes[m]
  }

  /** Errors are only reported for complete modules, and as their outcomes say. */
  ghost predicate ErrorsKnown(results: map<ModId, ModuleResult>, outcomes: map<ModId, Outcome>) {
    forall m | m in results && results[m].ErrorsResult? :: m in outcomes && results[m].lines == outcomes[m].errors
  }

  /**
   * While answers arrive: the units in done have answered with the interfaces of news, and every
   * module that was held has had its errors reported or is still held.
   */
  ghost predicate Received(outcomes: map<ModId, Outcome>, wasHeld: set<ModId>,
      news: map<ModId, Outcome>, results: map<ModId, ModuleResult>, busy: map<nat, Job>, held: set<ModId>)
  {
    && news.Keys !! outcomes.Keys
    && ReportsInterfaces(results, news)
    && ErrorsKnown(results, outcomes)
    && JobsKnown(busy, outcomes + news)
    && results.Keys <= outcomes.Keys + news.Keys
    && wasHeld + news.Keys <= held + ReportedErrors(results).Keys
  }

  lemma ReceivedNothing(outcomes: map<ModId, Outcome>, busy: map<nat, Job>, held: set<ModId>)
    requires JobsKnown(busy, outcomes)
    ensures Received(outcomes, held, map[], map[], busy, held)
  {
    assert outcomes + map[] == outcomes;
  }

  /** Whoever holds a module has its outcome, so modules without one are not held. */
  /** Modules whose interfaces have just been reported are held. */
  lemma NewsHeld(outcomes: map<ModId, Outcome>, wasHeld: set<ModId>, news: map<ModId, Outcome>,
      results: map<ModId, ModuleResult>, busy: map<nat, Job>, held: set<ModId>)
    requires Received(outcomes, wasHeld, news, results, busy, held)
    ensures news.Keys <= held && news.Keys !! outcomes.Keys
  {
    forall m | m in news
      ensures m !in ReportedErrors(results)
    {
    }
  }

  lemma HeldAreKnown(busy: map<nat, Job>, holder: map<ModId, nat>, outcomes: map<ModId, Outcome>)
    requires HolderOk(busy, holder) && JobsKnown(busy, outcomes)
    ensures holder.Keys <= outcomes.Keys
  {
  }

  lemma KnownGrows(busy: map<nat, Job>, outcomes: map<ModId, Outcome>, news: map<ModId, Outcome>)
    requires JobsKnown(busy, outcomes) && news.Keys !! outcomes.Keys
    ensures JobsKnown(busy, outcomes + news)
  {
    forall w | w in busy && busy[w].Implementing?
      ensures OutsKnown(busy[w].outs, outcomes + news)
    {
      assert OutsKnown(busy[w].outs, outcomes);
    }
  }

  lemma MoreJobsKnown(outcomes: map<ModId, Outcome>, busy: map<nat, Job>, w: nat, outs: map<ModId, Outcome>)
    requires JobsKnown(busy, outcomes) && outs.Keys !! outcomes.Keys
    ensures JobsKnown(busy[w := Implementing(outs)], outcomes + outs)
  {
  }

  lemma MoreInterfaces(results: map<ModId, ModuleResult>, news: map<ModId, Outcome>, outs: map<ModId, Outcome>)
    requires ReportsInterfaces(results, news) && outs.Keys !! results.Keys
    ensures ReportsInterfaces(results + InterfaceResults(outs), news + outs)
    ensures ReportedErrors(results + InterfaceResults(outs)) == ReportedErrors(results)
    ensures (results + InterfaceResults(outs)).Keys == results.Keys + outs.Keys
  {
  }

  lemma ReceivedInterface(outcomes: map<ModId, Outcome>, wasHeld: set<ModId>, news: map<ModId, Outcome>,
      results: map<ModId, ModuleResult>, busy: map<nat, Job>, held: set<ModId>, w: nat, outs: map<ModId, Outcome>)
    requires Received(outcomes, wasHeld, news, results, busy, held)
    requires outs.Keys !! outcomes.Keys + news.Keys
    ensures Received(outcomes, wasHeld, news + outs, results + InterfaceResults(outs), busy[w := Implementing(outs)],
            held + outs.Keys)
  {
    var results1, news1 := results + InterfaceResults(outs), news + outs;
    MoreInterfaces(results, news, outs);
    MoreJobsKnown(outcomes + news, busy, w, outs);
    assert outcomes + news1 == (outcomes + news) + outs;
    assert news1.Keys == news.Keys + outs.Keys;
    assert ErrorsKnown(results1, outcomes) by {
      assert forall m | m in results1 && results1[m].ErrorsResult? :: m in ReportedErrors(results1);
    }
  }

  lemma ReceivedErrors(outcomes: map<ModId, Outcome>, wasHeld: set<ModId>, news: map<ModId, Outcome>,
      results: map<ModId, ModuleResult>, busy: map<nat, Job>, held: set<ModId>, w: nat, outs: map<ModId, Outcome>)
    requires Received(outcomes, wasHeld, news, results, busy, held)
    requires OutsKnown(outs, outcomes)
    ensures Received(outcomes, wasHeld, news, results + ErrorResults(outs), busy - {w}, held - outs.Keys)
  {
    var results1 := results + ErrorResults(outs);
    assert ReportedErrors(results1).Keys == ReportedErrors(results).Keys + outs.Keys;
  }

  /**
   * One worker answered: with interfaces, after which it checks function bodies, or with errors,
   * after which it is idle.
   */
  ghost predicate Answered(before: map<nat, Job>, after: map<nat, Job>, w: nat) {
    && w in before
    && (forall v | v != w :: (v in after <==> v in before) && (v in before ==> after[v] == before[v]))
    && (before[w].Checking? ==> w in after && after[w].Implementing?)
    && (before[w].Implementing? ==> w !in after)
  }

  ghost function CheckingIn(busy: map<nat, Job>): set<nat> {
    set w | w in busy && busy[w].Checking?
  }

  /** Some workers answered: fewer are checking interfaces, or as many are, and fewer are busy. */
  ghost predicate Answers(before: map<nat, Job>, after: map<nat, Job>) {
    || CheckingIn(after) < CheckingIn(before)
    || (CheckingIn(after) == CheckingIn(before) && after.Keys < before.Keys)
  }

  /** Less is left to wait for: the queue is shorter, or as long, and some workers have answered. */
  ghost predicate LessWork(queuedBefore: nat, queued: nat, before: map<nat, Job>, after: map<nat, Job>) {
    queued < queuedBefore || (queued == queuedBefore && Answers(before, after))
  }

  lemma AnswersStep(start: map<nat, Job>, before: map<nat, Job>, after: map<nat, Job>, w: nat)
    requires Answered(before, after, w)
    requires before == start || Answers(start, before)
    ensures Answers(start, after)
  {
    if before[w].Checking? {
      assert CheckingIn(after) == CheckingIn(before) - {w} && w in CheckingIn(before);
    } else {
      assert CheckingIn(after) == CheckingIn(before);
      assert after.Keys == before.Keys - {w};
    }
  }

  /** Handing out new batches does not change what has been received. */
  lemma StillReceived(outcomes: map<ModId, Outcome>, wasHeld: set<ModId>, news: map<ModId, Outcome>,
      results: map<ModId, ModuleResult>, before: map<nat, Job>, after: map<nat, Job>, held: set<ModId>)
    requires Received(outcomes, wasHeld, news, results, before, held) && Started(before, after)
    ensures Received(outcomes, wasHeld, news, results, after, held)
  {
  }
}
