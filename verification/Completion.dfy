/** What a run of the batch loop leaves behind, and why the project can then be closed. */
module Completion {
  import opened Ids
  import opened Graphs
  import opened Deliverables
  import opened Dependents
  import opened Scheduler

  /** Nothing is outstanding: completed, skipped, or failed with no retry left. */
  ghost predicate Finished(t: Table, retryLimit: int)
  {
    forall d :: d in t ==>
      || t[d].status == Completed || t[d].status == Skipped
      || (t[d].status == Failed && t[d].retryCount >= retryLimit)
  }

  /** A table a session can start from: what is not waiting is finished, or is a failure
      that may be retried because its dependencies are met. A project in which everything
      is still planned or pending is one. */
  ghost predicate Resumable(t: Table, retryLimit: int)
  {
    forall d :: d in t && !Waiting(t[d].status) && !Satisfying(t[d].status) ==>
      t[d].status == Failed && (t[d].retryCount >= retryLimit || DependenciesMet(t, d))
  }

  ghost predicate EveryAttemptResolved(log: seq<Attempt>)
  {
    forall a :: a in log ==> Terminal(a.outcome)
  }

  lemma AttemptKeepsResumable(t: Table, a: Attempt, retryLimit: int)
    requires Resumable(t, retryLimit) && IsReady(t, retryLimit, a.id) && Terminal(a.outcome)
    ensures Resumable(After(t, a), retryLimit)
  {
    var t' := After(t, a);
    forall d | d in t' && !Waiting(t'[d].status) && !Satisfying(t'[d].status)
      ensures t'[d].status == Failed && (t'[d].retryCount >= retryLimit || DependenciesMet(t', d))
    {
      assert DependenciesMet(t, d) ==> DependenciesMet(t', d);
    }
  }

  /** However a session ends, even in the middle of a batch, the next one can start from
      what it left. */
  lemma {:induction false} SessionsResume(t: Table, log: seq<Attempt>, retryLimit: int)
    requires Resumable(t, retryLimit) && StartedReady(t, log, retryLimit) && EveryAttemptResolved(log)
    ensures Resumable(Replay(t, log), retryLimit)
  {
    if log != [] {
      ButLast(t, log, retryLimit);
      SessionsResume(t, log[..|log| - 1], retryLimit);
      AttemptKeepsResumable(Replay(t, log[..|log| - 1]), log[|log| - 1], retryLimit);
    }
  }

  lemma WaitingIsStuck(t: Table, retryLimit: int)
    requires !HasCycle(DependencyGraph(t)) && DependencyClosed(DependencyGraph(t))
    requires Resumable(t, retryLimit) && NothingReady(t, retryLimit)
    ensures forall d :: d in t && Waiting(t[d].status) ==> Stuck(t, retryLimit, d)
  {
    var g := DependencyGraph(t);
    var stuck := set d | d in t && Stuck(t, retryLimit, d);
    assert forall d :: d in stuck <==> Stuck(t, retryLimit, d) by {
      forall d | Stuck(t, retryLimit, d) ensures d in t {
        var f :| PermanentlyFailed(t, retryLimit, f) && Depends(Through(g, WaitingIds(t)), d, f);
      }
    }
    StuckIsLeast(t, retryLimit, stuck);
    var open := WaitingIds(t) - stuck;
    if open != {} {
      forall d | d in open ensures HasSuccessorIn(g, open, d) {
        UnmetWaits(t, retryLimit, stuck, d);
      }
      NoSinkMeansCycle(g, open);
    }
    forall d | d in t && Waiting(t[d].status) ensures Stuck(t, retryLimit, d) {
      assert d in WaitingIds(t) && d !in open;
    }
  }

  /** A waiting deliverable that is neither ready nor stuck waits for another such one. */
  lemma UnmetWaits(t: Table, retryLimit: int, stuck: set<Id>, d: Id)
    requires DependencyClosed(DependencyGraph(t))
    requires Resumable(t, retryLimit) && NothingReady(t, retryLimit) && StuckRule(t, retryLimit, stuck)
    requires d in WaitingIds(t) - stuck
    ensures HasSuccessorIn(DependencyGraph(t), WaitingIds(t) - stuck, d)
  {
    assert !IsReady(t, retryLimit, d);
    var dep :| dep in t[d].dependsOn && !Satisfied(t, dep);
    assert Edge(DependencyGraph(t), d, dep) && dep in t;
    assert !IsReady(t, retryLimit, dep);
    assert Blocking(t, retryLimit, stuck, dep) ==> d in stuck;
    assert !Satisfied(t, dep);
    assert dep in t;
    assert !Satisfying(t[dep].status);
    assert dep in WaitingIds(t) - stuck;
  }

  /** Completion. A run that ends for want of work, over an acyclic project in which every
      dependency exists and every attempt is resolved, leaves nothing outstanding. */
  lemma UninterruptedRunFinishes(t: Table, trace: seq<Event>, ceiling: real, summary: Summary, final: Table,
                                 retryLimit: int)
    requires !HasCycle(DependencyGraph(t)) && DependencyClosed(DependencyGraph(t))
    requires Resumable(t, retryLimit) && EveryAttemptResolved(AttemptsIn(trace))
    requires CourseOf(t, retryLimit, trace, ceiling, summary, final) && !summary.Interrupted()
    ensures Finished(final, retryLimit)
  {
    var log := AttemptsIn(trace);
    var unskipped := Replay(t, log);
    LawfulStartsReady(t, retryLimit, trace, ceiling);
    ReplayKeepsProject(t, log);
    assert DependencyGraph(unskipped) == DependencyGraph(t);
    SessionsResume(t, log, retryLimit);
    WaitingIsStuck(unskipped, retryLimit);
    forall d | d in final ensures Satisfying(final[d].status) || PermanentlyFailed(final, retryLimit, d) {
      if !Stuck(unskipped, retryLimit, d) && !Satisfying(unskipped[d].status) {
        assert !IsReady(unskipped, retryLimit, d);
      }
    }
  }

  /** No deliverable is attempted more than its remaining retries plus one; its counter is
      never raised above the limit and never lowered. */
  lemma AttemptsAreBounded(t: Table, trace: seq<Event>, ceiling: real, retryLimit: int, d: Id)
    requires Lawful(t, retryLimit, trace, ceiling) && d in t
    ensures var log := AttemptsIn(trace);
            var t' := Replay(t, log);
            && AttemptsOf(log, d) <= Max(0, retryLimit - t[d].retryCount) + 1
            && (t[d].retryCount >= 0 && retryLimit >= 0 ==> AttemptsOf(log, d) <= retryLimit + 1)
            && d in t' && t[d].retryCount <= t'[d].retryCount <= Max(t[d].retryCount, retryLimit)
  {
    LawfulStartsReady(t, retryLimit, trace, ceiling);
    ReplayKeepsRow(t, AttemptsIn(trace), retryLimit, d);
  }

  /** Dependency order over the whole run. The course only says that a batch is ready when it
      is computed; yet when its k-th attempt starts, all that deliverable depends on is
      completed or skipped in the table of that moment, and at every later moment. */
  lemma DependencyOrder(t: Table, trace: seq<Event>, ceiling: real, retryLimit: int, k: nat, m: nat, dep: Id)
    requires Lawful(t, retryLimit, trace, ceiling)
    requires k < |AttemptsIn(trace)| && k <= m <= |AttemptsIn(trace)|
    requires var d := AttemptsIn(trace)[k].id; d in t && dep in t[d].dependsOn
    ensures Satisfied(Replay(t, AttemptsIn(trace)[..m]), dep)
  {
    var log := AttemptsIn(trace);
    LawfulStartsReady(t, retryLimit, trace, ceiling);
    ReplayKeepsProject(t, log[..k]);
    assert IsReady(Replay(t, log[..k]), retryLimit, log[k].id);
    UpTo(t, log, retryLimit, m);
    assert log[..m][..k] == log[..k];
    SatisfiedStays(t, log[..m], retryLimit, k);
  }

  /** A deliverable is started only after each of its dependencies was completed or skipped
      from the start, or its last attempt before that moment ended so. */
  lemma DependenciesEndedWell(t: Table, trace: seq<Event>, ceiling: real, retryLimit: int, k: nat, dep: Id)
    requires Lawful(t, retryLimit, trace, ceiling) && k < |AttemptsIn(trace)|
    requires var d := AttemptsIn(trace)[k].id; d in t && dep in t[d].dependsOn
    ensures var log := AttemptsIn(trace);
            || (dep in t && (t[dep].status == Completed || t[dep].status == Skipped)
                && forall j :: 0 <= j < k ==> log[j].id != dep)
            || exists j :: 0 <= j < k && log[j].id == dep && (log[j].outcome == Completed || log[j].outcome == Skipped)
                           && forall i :: j < i < k ==> log[i].id != dep
  {
    var log := AttemptsIn(trace);
    DependencyOrder(t, trace, ceiling, retryLimit, k, k, dep);
    ReplayKeepsProject(t, log[..k]);
    if forall j :: 0 <= j < k ==> log[j].id != dep {
      NeverAttempted(t, log[..k], dep);
    } else {
      var j := LastPosition(log, k, dep);
      LastAttemptStands(t, log[..k], j);
    }
  }

  /** A failed attempt is not the end: if nothing is ready after it, the deliverable has been
      tried again or has no retry left. */
  lemma FailuresAreRetried(t: Table, trace: seq<Event>, ceiling: real, retryLimit: int, k: nat)
    requires Lawful(t, retryLimit, trace, ceiling) && k < |AttemptsIn(trace)|
    requires OutOfWork(Replay(t, AttemptsIn(trace)), retryLimit, trace)
    requires AttemptsIn(trace)[k].outcome == Failed
    ensures var log := AttemptsIn(trace);
            || (exists j :: k < j < |log| && log[j].id == log[k].id)
            || (log[k].id in Replay(t, log) && Replay(t, log)[log[k].id].retryCount >= retryLimit)
  {
    var log := AttemptsIn(trace);
    var d := log[k].id;
    LawfulStartsReady(t, retryLimit, trace, ceiling);
    assert IsReady(Replay(t, log[..k]), retryLimit, d);
    ReplayKeepsProject(t, log[..k]);
    ReplayKeepsProject(t, log);
    if forall j :: k < j < |log| ==> log[j].id != d {
      LastAttemptStands(t, log, k);
      SatisfiedStays(t, log, retryLimit, k);
      assert !IsReady(Replay(t, log), retryLimit, d);
    }
  }

  lemma UpTo(t: Table, log: seq<Attempt>, retryLimit: int, m: nat)
    requires StartedReady(t, log, retryLimit) && m <= |log|
    ensures StartedReady(t, log[..m], retryLimit)
  {
    forall k | 0 <= k < m ensures IsReady(Replay(t, log[..m][..k]), retryLimit, log[..m][k].id) {
      assert log[..m][..k] == log[..k] && log[..m][k] == log[k];
    }
  }

  // ----- The completion gate

  /** _check_deliverable_statuses on the statuses of a table: all done, and what is not. */
  function CheckDeliverableStatuses(statuses: map<Id, Status>): (r: (bool, set<Id>))
    ensures r.0 <==> forall d :: d in statuses ==> Terminal(statuses[d])
    ensures forall d :: d in r.1 <==> d in statuses && !Terminal(statuses[d])
  {
    var incomplete := set d | d in statuses && !Terminal(statuses[d]);
    assert forall d :: d in statuses && !Terminal(statuses[d]) ==> d in incomplete;
    (incomplete == {}, incomplete)
  }

  function StatusesOf(t: Table): map<Id, Status>
  {
    map d | d in t :: t[d].status
  }

  /** The gate passes after such a run, and names no outstanding deliverable. */
  lemma FinishedPassesGate(t: Table, retryLimit: int)
    requires Finished(t, retryLimit)
    ensures CheckDeliverableStatuses(StatusesOf(t)) == (true, {})
  {
  }
}
