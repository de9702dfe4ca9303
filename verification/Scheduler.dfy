/** The batch loop: which deliverables run, how often, in what order, and what is left. */
module Scheduler {
  import opened Ids
  import opened Graphs
  import opened Deliverables
  import opened Dependents

  /** What an attempt may leave behind: the pipeline never hands a deliverable back as new. */
  type Outcome = s: Status | !Waiting(s) witness Completed

  /** One attempt: the deliverable and the status found when the attempt was over. */
  datatype Attempt = Attempt(id: Id, outcome: Outcome)

  datatype Summary = Summary(
    batchCount: nat,
    completed: nat,
    failed: nat,
    costExceeded: bool,
    thresholdExceeded: bool,
    pauseRequested: bool)
  {
    predicate Interrupted()
    {
      costExceeded || thresholdExceeded || pauseRequested
    }
  }

  // ----- The environment

  /** What is read from outside the loops. */
  datatype Reading =
    | PauseRead(requested: bool)
    | PipelineRan(attempt: Attempt)
    | ThresholdRead(threshold: int)
    | CostReported(cost: real)
    | EscalationsRead(count: nat)
    | ValidatorAnswered(name: Id, passed: bool)

  /** Pause flag, pipeline, configuration, cost, escalations and validators may answer
      anything; the log holds what they answered, in order. */
  class Environment {
    ghost var log: seq<Reading>

    constructor ()
      ensures log == []
    {
      log := [];
    }

    method PauseRequested() returns (b: bool)
      modifies this
      ensures log == old(log) + [PauseRead(b)]
    {
      b := *;
      log := log + [PauseRead(b)];
    }

    method RunPipeline(d: Id) returns (outcome: Outcome)
      modifies this
      ensures log == old(log) + [PipelineRan(Attempt(d, outcome))]
    {
      outcome := *;
      log := log + [PipelineRan(Attempt(d, outcome))];
    }

    method ConfiguredThreshold() returns (threshold: int)
      modifies this
      ensures log == old(log) + [ThresholdRead(threshold)]
    {
      threshold := *;
      log := log + [ThresholdRead(threshold)];
    }

    method AccumulatedCost() returns (cost: real)
      modifies this
      ensures log == old(log) + [CostReported(cost)]
    {
      cost := *;
      log := log + [CostReported(cost)];
    }

    method PendingEscalationCount() returns (n: nat)
      modifies this
      ensures log == old(log) + [EscalationsRead(n)]
    {
      n := *;
      log := log + [EscalationsRead(n)];
    }

    method Evaluate(name: Id) returns (passed: bool)
      modifies this
      ensures log == old(log) + [ValidatorAnswered(name, passed)]
    {
      passed := *;
      log := log + [ValidatorAnswered(name, passed)];
    }
  }

  // ----- Attempts that are still to come

  function Max(a: int, b: int): int
  {
    if a < b then b else a
  }

  /** How many more attempts the loop can make for a deliverable. */
  function Left(d: Deliverable, retryLimit: int): nat
  {
    Max(0, retryLimit - d.retryCount) + if Waiting(d.status) then 1 else 0
  }

  ghost function TotalLeft(ids: seq<Id>, t: Table, retryLimit: int): nat
    requires forall d :: d in ids ==> d in t
  {
    if ids == [] then 0
    else Left(t[ids[0]], retryLimit) + TotalLeft(ids[1..], t, retryLimit)
  }

  lemma {:induction false} TotalLeftSame(ids: seq<Id>, t: Table, t': Table, retryLimit: int)
    requires forall d :: d in ids ==> d in t && d in t' && Left(t'[d], retryLimit) == Left(t[d], retryLimit)
    ensures TotalLeft(ids, t', retryLimit) == TotalLeft(ids, t, retryLimit)
  {
    if ids != [] {
      TotalLeftSame(ids[1..], t, t', retryLimit);
    }
  }

  /** A change to one deliverable changes the total by as much. */
  lemma {:induction false} TotalLeftDrops(ids: seq<Id>, t: Table, x: Id, row: Deliverable, retryLimit: int)
    requires Distinct(ids) && x in ids && forall d :: d in ids ==> d in t
    ensures TotalLeft(ids, t[x := row], retryLimit) - TotalLeft(ids, t, retryLimit) ==
            Left(row, retryLimit) - Left(t[x], retryLimit)
  {
    DistinctCons(ids);
    if ids[0] == x {
      TotalLeftSame(ids[1..], t, t[x := row], retryLimit);
    } else {
      TotalLeftDrops(ids[1..], t, x, row, retryLimit);
    }
  }

  // ----- What a log of attempts does to the table

  function AttemptsOf(log: seq<Attempt>, d: Id): nat
  {
    if log == [] then 0
    else AttemptsOf(log[..|log| - 1], d) + if log[|log| - 1].id == d then 1 else 0
  }

  function WithOutcome(log: seq<Attempt>, s: Status): nat
  {
    if log == [] then 0
    else WithOutcome(log[..|log| - 1], s) + if log[|log| - 1].outcome == s then 1 else 0
  }

  /** The row an attempt leaves: the retry counter goes up when a failure is retried. */
  function Attempted(row: Deliverable, outcome: Outcome): Deliverable
  {
    row.(status := outcome, retryCount := if row.status == Failed then row.retryCount + 1 else row.retryCount)
  }

  function After(t: Table, a: Attempt): Table
  {
    if a.id in t then t[a.id := Attempted(t[a.id], a.outcome)] else t
  }

  /** Row by row: the outcome is stored, a retried failure is counted, nothing else changes. */
  lemma AfterSays(t: Table, a: Attempt)
    requires a.id in t
    ensures var t' := After(t, a);
            && t'.Keys == t.Keys && (forall d :: d in t && d != a.id ==> t'[d] == t[d])
            && t'[a.id].status == a.outcome
            && t'[a.id].retryCount == t[a.id].retryCount + (if t[a.id].status == Failed then 1 else 0)
            && t'[a.id].dependsOn == t[a.id].dependsOn && t'[a.id].executionOrder == t[a.id].executionOrder
  {
  }

  /** The table at the end of a log of attempts, one after the other. */
  function Replay(t: Table, log: seq<Attempt>): Table
  {
    if log == [] then t else After(Replay(t, log[..|log| - 1]), log[|log| - 1])
  }

  /** The positions of a log at which a deliverable was attempted, or an outcome found. */
  ghost function PositionsOf(log: seq<Attempt>, d: Id): set<nat>
  {
    set k: nat | k < |log| && log[k].id == d
  }

  ghost function PositionsWith(log: seq<Attempt>, s: Status): set<nat>
  {
    set k: nat | k < |log| && log[k].outcome == s
  }

  /** The counts are the numbers of those positions. */
  lemma {:induction false} AttemptsArePositions(log: seq<Attempt>, d: Id)
    ensures AttemptsOf(log, d) == |PositionsOf(log, d)|
  {
    if log != [] {
      var n := |log| - 1;
      AttemptsArePositions(log[..n], d);
      var before := PositionsOf(log[..n], d);
      assert n !in before;
      assert PositionsOf(log, d) == if log[n].id == d then before + {n} else before;
    }
  }

  lemma {:induction false} OutcomesArePositions(log: seq<Attempt>, s: Status)
    ensures WithOutcome(log, s) == |PositionsWith(log, s)|
  {
    if log != [] {
      var n := |log| - 1;
      OutcomesArePositions(log[..n], s);
      var before := PositionsWith(log[..n], s);
      assert n !in before;
      assert PositionsWith(log, s) == if log[n].outcome == s then before + {n} else before;
    }
  }

  lemma {:induction false} NeverAttempted(t: Table, log: seq<Attempt>, d: Id)
    requires d in t && forall k :: 0 <= k < |log| ==> log[k].id != d
    ensures d in Replay(t, log) && Replay(t, log)[d] == t[d]
  {
    if log != [] {
      NeverAttempted(t, log[..|log| - 1], d);
    }
  }

  /** The outcome of the last attempt of a deliverable is its status from then on. */
  lemma {:induction false} LastAttemptStands(t: Table, log: seq<Attempt>, k: nat)
    requires k < |log| && log[k].id in t
    requires forall j :: k < j < |log| ==> log[j].id != log[k].id
    ensures log[k].id in Replay(t, log) && Replay(t, log)[log[k].id].status == log[k].outcome
  {
    var n := |log| - 1;
    ReplayKeepsProject(t, log[..n]);
    if k < n {
      LastAttemptStands(t, log[..n], k);
    }
  }

  /** The last attempt of a deliverable up to some point, if there is one. */
  lemma LastPosition(log: seq<Attempt>, n: nat, d: Id) returns (k: nat)
    requires n <= |log| && exists j :: 0 <= j < n && log[j].id == d
    ensures k < n && log[k].id == d && forall j :: k < j < n ==> log[j].id != d
  {
    k := n - 1;
    while log[k].id != d
      invariant k < n && forall j :: k < j < n ==> log[j].id != d
      decreases k
    {
      k := k - 1;
    }
  }

  /** Every attempt started on a deliverable that was ready in the table the attempts before
      it had left. */
  ghost predicate StartedReady(t: Table, log: seq<Attempt>, retryLimit: int)
  {
    forall k {:trigger log[k]} :: 0 <= k < |log| ==> IsReady(Replay(t, log[..k]), retryLimit, log[k].id)
  }

  lemma ButLast(t: Table, log: seq<Attempt>, retryLimit: int)
    requires log != [] && StartedReady(t, log, retryLimit)
    ensures StartedReady(t, log[..|log| - 1], retryLimit)
    ensures IsReady(Replay(t, log[..|log| - 1]), retryLimit, log[|log| - 1].id)
  {
    var front := log[..|log| - 1];
    forall k | 0 <= k < |front| ensures IsReady(Replay(t, front[..k]), retryLimit, front[k].id) {
      assert front[..k] == log[..k] && front[k] == log[k];
    }
  }

  lemma OneMore(t: Table, log: seq<Attempt>, a: Attempt, retryLimit: int)
    requires StartedReady(t, log, retryLimit) && IsReady(Replay(t, log), retryLimit, a.id)
    ensures StartedReady(t, log + [a], retryLimit)
  {
    var more := log + [a];
    forall k | 0 <= k < |more| ensures IsReady(Replay(t, more[..k]), retryLimit, more[k].id) {
      if k < |log| {
        assert more[..k] == log[..k] && more[k] == log[k];
      } else {
        assert more[..k] == log;
      }
    }
  }

  /** Only status and retry counter ever change. */
  ghost predicate SameProject(t: Table, t': Table)
  {
    && t'.Keys == t.Keys
    && forall d :: d in t ==> t'[d].dependsOn == t[d].dependsOn && t'[d].executionOrder == t[d].executionOrder
  }

  ghost predicate KeepsSatisfied(t: Table, t': Table)
  {
    forall d :: d in t && Satisfying(t[d].status) ==> d in t' && t'[d] == t[d]
  }

  lemma {:induction false} ReplayKeepsProject(t: Table, log: seq<Attempt>)
    ensures SameProject(t, Replay(t, log))
  {
    if log != [] {
      ReplayKeepsProject(t, log[..|log| - 1]);
    }
  }

  /** What is satisfied at some point of the log is satisfied ever after. */
  lemma {:induction false} SatisfiedStays(t: Table, log: seq<Attempt>, retryLimit: int, k: nat)
    requires StartedReady(t, log, retryLimit) && k <= |log|
    ensures KeepsSatisfied(Replay(t, log[..k]), Replay(t, log))
  {
    if k == |log| {
      assert log[..k] == log;
    } else {
      ButLast(t, log, retryLimit);
      assert log[..|log| - 1][..k] == log[..k];
      SatisfiedStays(t, log[..|log| - 1], retryLimit, k);
    }
  }

  /** What a log does to one deliverable: every attempt uses up one of those that were left. */
  ghost predicate RowKept(log: seq<Attempt>, d: Id, row: Deliverable, row': Deliverable, retryLimit: int)
  {
    && AttemptsOf(log, d) + Left(row', retryLimit) == Left(row, retryLimit)
    && row.retryCount <= row'.retryCount <= Max(row.retryCount, retryLimit)
    && (AttemptsOf(log, d) == 0 ==> row' == row)
  }

  lemma {:induction false} ReplayKeepsRow(t: Table, log: seq<Attempt>, retryLimit: int, d: Id)
    requires StartedReady(t, log, retryLimit) && d in t
    ensures d in Replay(t, log) && RowKept(log, d, t[d], Replay(t, log)[d], retryLimit)
  {
    if log != [] {
      ButLast(t, log, retryLimit);
      ReplayKeepsRow(t, log[..|log| - 1], retryLimit, d);
    }
  }

  /** Every attempt but the first of a new deliverable is a retry, and is counted as one. */
  lemma {:induction false} RetriesAreCounted(t: Table, log: seq<Attempt>, retryLimit: int, d: Id)
    requires StartedReady(t, log, retryLimit) && d in t
    ensures d in Replay(t, log)
    ensures Replay(t, log)[d].retryCount == t[d].retryCount + AttemptsOf(log, d)
            - if AttemptsOf(log, d) > 0 && Waiting(t[d].status) then 1 else 0
    ensures AttemptsOf(log, d) > 0 ==> !Waiting(Replay(t, log)[d].status)
    ensures AttemptsOf(log, d) == 0 ==> Replay(t, log)[d] == t[d]
  {
    if log != [] {
      ButLast(t, log, retryLimit);
      RetriesAreCounted(t, log[..|log| - 1], retryLimit, d);
    }
  }

  /** Attempts made and attempts left add up to the same number throughout. */
  lemma {:induction false} AttemptsUseUp(ids: seq<Id>, t: Table, log: seq<Attempt>, retryLimit: int)
    requires Lists(ids, t) && StartedReady(t, log, retryLimit)
    ensures Lists(ids, Replay(t, log))
    ensures |log| + TotalLeft(ids, Replay(t, log), retryLimit) == TotalLeft(ids, t, retryLimit)
  {
    if log != [] {
      var before, a := Replay(t, log[..|log| - 1]), log[|log| - 1];
      ButLast(t, log, retryLimit);
      AttemptsUseUp(ids, t, log[..|log| - 1], retryLimit);
      TotalLeftDrops(ids, before, a.id, Attempted(before[a.id], a.outcome), retryLimit);
    }
  }

  // ----- Consecutive failures

  /** How many batches at the end of the list had failures, without interruption. */
  function TrailingFailures(batches: seq<bool>): nat
  {
    if batches == [] || !batches[|batches| - 1] then 0
    else TrailingFailures(batches[..|batches| - 1]) + 1
  }

  /** A count of n says that the last n batches all failed and the one before did not. */
  lemma {:induction false} TrailingFailuresMeans(batches: seq<bool>)
    ensures var n := TrailingFailures(batches);
            && n <= |batches|
            && (forall i :: |batches| - n <= i < |batches| ==> batches[i])
            && (n < |batches| ==> !batches[|batches| - n - 1])
  {
    if batches != [] && batches[|batches| - 1] {
      TrailingFailuresMeans(batches[..|batches| - 1]);
    }
  }

  /** The consecutive-failure counter of track_batch_result, with the results it has seen. */
  class FailureTracker {
    var consecutive: int
    ghost var batches: seq<bool>

    ghost predicate Valid()
      reads this
    {
      consecutive == TrailingFailures(batches)
    }

    constructor ()
      ensures Valid() && batches == []
    {
      consecutive, batches := 0, [];
    }

    method TrackBatchResult(hadFailures: bool, threshold: int) returns (exceeded: bool)
      requires Valid()
      modifies this
      ensures Valid() && batches == old(batches) + [hadFailures]
      ensures exceeded <==> TrailingFailures(batches) >= threshold
    {
      if hadFailures {
        consecutive := consecutive + 1;
      } else {
        consecutive := 0;
      }
      batches := batches + [hadFailures];
      exceeded := consecutive >= threshold;
    }
  }

  // ----- The course of a run

  /** What the loop sees and does, in order. */
  datatype Event =
    | PauseChecked(requested: bool)
    | BatchStarted(frontier: seq<Id>)
    | Tried(attempt: Attempt)
    | BatchClosed(failures: nat, threshold: int)
    | CostRead(cost: real)

  /** Between batches, or in a batch of which some members have been tried. */
  datatype Phase = Between | InBatch(frontier: seq<Id>, tried: nat, failures: nat)

  function Last(trace: seq<Event>): Event
    requires trace != []
  {
    trace[|trace| - 1]
  }

  function PhaseOf(trace: seq<Event>): Phase
  {
    if trace == [] then Between
    else
      var before := PhaseOf(trace[..|trace| - 1]);
      match Last(trace)
      case BatchStarted(frontier) => InBatch(frontier, 0, 0)
      case BatchClosed(_, _) => Between
      case Tried(a) =>
        if before.Between? then Between
        else before.(tried := before.tried + 1, failures := before.failures + if a.outcome == Failed then 1 else 0)
      case _ => before
  }

  function AttemptsIn(trace: seq<Event>): seq<Attempt>
  {
    if trace == [] then []
    else
      var before := AttemptsIn(trace[..|trace| - 1]);
      if Last(trace).Tried? then before + [Last(trace).attempt] else before
  }

  /** What the loop has read from outside in the course of these events. */
  function ReadingsOf(trace: seq<Event>): seq<Reading>
  {
    if trace == [] then []
    else
      var before := ReadingsOf(trace[..|trace| - 1]);
      match Last(trace)
      case PauseChecked(requested) => before + [PauseRead(requested)]
      case BatchStarted(_) => before
      case Tried(a) => before + [PipelineRan(a)]
      case BatchClosed(_, threshold) => before + [ThresholdRead(threshold)]
      case CostRead(cost) => before + [CostReported(cost)]
  }

  /** For each closed batch, whether it had failures. */
  function BatchResults(trace: seq<Event>): seq<bool>
  {
    if trace == [] then []
    else
      var before := BatchResults(trace[..|trace| - 1]);
      if Last(trace).BatchClosed? then before + [Last(trace).failures > 0] else before
  }

  function BatchesStarted(trace: seq<Event>): nat
  {
    if trace == [] then 0
    else BatchesStarted(trace[..|trace| - 1]) + if Last(trace).BatchStarted? then 1 else 0
  }

  /** A requested pause, too many failed batches in a row, or a cost above the ceiling. */
  ghost predicate Stopped(trace: seq<Event>, ceiling: real)
  {
    trace != [] &&
    match Last(trace)
    case PauseChecked(requested) => requested
    case BatchClosed(_, threshold) => TrailingFailures(BatchResults(trace)) >= threshold
    case CostRead(cost) => cost > ceiling
    case _ => false
  }

  predicate MayCheckPause(trace: seq<Event>)
  {
    match PhaseOf(trace)
    case Between => trace == [] || Last(trace).CostRead?
    case InBatch(frontier, tried, _) => trace != [] && !Last(trace).PauseChecked? && tried < |frontier|
  }

  ghost predicate MayStart(t: Table, retryLimit: int, trace: seq<Event>, frontier: seq<Id>)
  {
    && PhaseOf(trace).Between? && trace != [] && Last(trace).PauseChecked?
    && frontier != [] && ReadyList(t, retryLimit, frontier)
  }

  predicate MayTry(trace: seq<Event>, d: Id)
  {
    && trace != [] && Last(trace).PauseChecked?
    && match PhaseOf(trace)
       case Between => false
       case InBatch(frontier, tried, _) => tried < |frontier| && d == frontier[tried]
  }

  predicate MayClose(trace: seq<Event>, failed: nat)
  {
    match PhaseOf(trace)
    case Between => false
    case InBatch(frontier, tried, failures) => tried == |frontier| && failed == failures
  }

  /** What may happen next, where t is the table at that moment. A batch starts after a pause
      check and is the whole ready list; its members are tried in order, each after a pause
      check of its own; it is closed when all have been tried, and reports the failures among
      them; then the cost is read. Nothing follows a stop. */
  ghost predicate MayFollow(t: Table, retryLimit: int, trace: seq<Event>, e: Event, ceiling: real)
  {
    !Stopped(trace, ceiling) &&
    match e
    case PauseChecked(_) => MayCheckPause(trace)
    case BatchStarted(frontier) => MayStart(t, retryLimit, trace, frontier)
    case Tried(a) => MayTry(trace, a.id)
    case BatchClosed(failures, _) => MayClose(trace, failures)
    case CostRead(_) => trace != [] && Last(trace).BatchClosed?
  }

  /** Every event was one that could follow those before it. */
  ghost predicate Lawful(start: Table, retryLimit: int, trace: seq<Event>, ceiling: real)
  {
    trace == [] ||
    var before := trace[..|trace| - 1];
    && Lawful(start, retryLimit, before, ceiling)
    && MayFollow(Replay(start, AttemptsIn(before)), retryLimit, before, Last(trace), ceiling)
  }

  /** No batch is open and the last pause check let the loop go on, but nothing is ready. */
  ghost predicate OutOfWork(t: Table, retryLimit: int, trace: seq<Event>)
  {
    && trace != [] && Last(trace) == PauseChecked(false) && PhaseOf(trace).Between?
    && NothingReady(t, retryLimit)
  }

  /** Each event stands for what was read, word for word. */
  lemma OneReading(e: Event)
    ensures e.PauseChecked? ==> ReadingsOf([e]) == [PauseRead(e.requested)]
    ensures e.BatchStarted? ==> ReadingsOf([e]) == []
    ensures e.Tried? ==> ReadingsOf([e]) == [PipelineRan(e.attempt)]
    ensures e.BatchClosed? ==> ReadingsOf([e]) == [ThresholdRead(e.threshold)]
    ensures e.CostRead? ==> ReadingsOf([e]) == [CostReported(e.cost)]
  {
    assert [e][..0] == [];
  }

  lemma TraceAppend(trace: seq<Event>, e: Event)
    ensures var more := trace + [e];
            && more[..|more| - 1] == trace && Last(more) == e
            && AttemptsIn(more) == (if e.Tried? then AttemptsIn(trace) + [e.attempt] else AttemptsIn(trace))
            && BatchResults(more) ==
               (if e.BatchClosed? then BatchResults(trace) + [e.failures > 0] else BatchResults(trace))
            && BatchesStarted(more) == BatchesStarted(trace) + (if e.BatchStarted? then 1 else 0)
            && ReadingsOf(more) == ReadingsOf(trace) + ReadingsOf([e])
  {
    assert [e][..0] == [];
  }

  lemma LawfulAppend(start: Table, retryLimit: int, trace: seq<Event>, e: Event, ceiling: real)
    requires Lawful(start, retryLimit, trace, ceiling)
    requires MayFollow(Replay(start, AttemptsIn(trace)), retryLimit, trace, e, ceiling)
    ensures Lawful(start, retryLimit, trace + [e], ceiling)
  {
    TraceAppend(trace, e);
  }

  predicate Tallies(summary: Summary, trace: seq<Event>)
  {
    && summary.batchCount == BatchesStarted(trace)
    && summary.completed == WithOutcome(AttemptsIn(trace), Completed)
    && summary.failed == WithOutcome(AttemptsIn(trace), Failed)
  }

  /** What the summary says of the run. */
  ghost predicate Reports(summary: Summary, trace: seq<Event>, ceiling: real)
  {
    && Tallies(summary, trace)
    && (summary.pauseRequested <==> trace != [] && Last(trace) == PauseChecked(true))
    && (summary.thresholdExceeded <==> trace != [] && Last(trace).BatchClosed?)
    && (summary.costExceeded <==> trace != [] && Last(trace).CostRead? && Last(trace).cost > ceiling)
    && (summary.Interrupted() <==> Stopped(trace, ceiling))
  }

  /** What the first n members of a batch add to the course: they are attempted in order,
      and counted. */
  ghost predicate Batching(before: seq<Event>, trace: seq<Event>, frontier: seq<Id>, n: nat, completed: nat,
                           failed: nat)
  {
    var log0, log := AttemptsIn(before), AttemptsIn(trace);
    && PhaseOf(trace) == InBatch(frontier, n, failed)
    && log0 <= log && |log| == |log0| + n && n <= |frontier|
    && (forall k :: 0 <= k < n ==> log[|log0| + k].id == frontier[k])
    && WithOutcome(log, Completed) == WithOutcome(log0, Completed) + completed
    && WithOutcome(log, Failed) == WithOutcome(log0, Failed) + failed
    && BatchesStarted(trace) == BatchesStarted(before) + 1 && BatchResults(trace) == BatchResults(before)
  }

  lemma BatchStarts(before: seq<Event>, frontier: seq<Id>)
    ensures Batching(before, before + [BatchStarted(frontier)], frontier, 0, 0, 0)
  {
    TraceAppend(before, BatchStarted(frontier));
  }

  lemma BatchPauses(before: seq<Event>, trace: seq<Event>, frontier: seq<Id>, n: nat, completed: nat, failed: nat,
                    requested: bool)
    requires Batching(before, trace, frontier, n, completed, failed)
    ensures Batching(before, trace + [PauseChecked(requested)], frontier, n, completed, failed)
  {
    TraceAppend(trace, PauseChecked(requested));
  }

  lemma BatchTries(before: seq<Event>, trace: seq<Event>, frontier: seq<Id>, n: nat, completed: nat, failed: nat,
                   a: Attempt)
    requires Batching(before, trace, frontier, n, completed, failed) && n < |frontier| && a.id == frontier[n]
    ensures Batching(before, trace + [Tried(a)], frontier, n + 1, completed + (if a.outcome == Completed then 1 else 0),
                     failed + (if a.outcome == Failed then 1 else 0))
  {
    var log0, log := AttemptsIn(before), AttemptsIn(trace);
    TraceAppend(trace, Tried(a));
    OutcomeAppend(log, a, Completed);
    OutcomeAppend(log, a, Failed);
    forall i | 0 <= i < n + 1 ensures (log + [a])[|log0| + i].id == frontier[i] {
      if i < n { assert log[|log0| + i].id == frontier[i]; }
    }
  }

  lemma OutcomeAppend(log: seq<Attempt>, a: Attempt, s: Status)
    ensures WithOutcome(log + [a], s) == WithOutcome(log, s) + if a.outcome == s then 1 else 0
  {
    assert (log + [a])[..|log|] == log;
  }

  // ----- Ready when the batch was computed, ready when its turn comes

  /** What is ready stays ready while something else is attempted: the attempt can only add
      to what is satisfied. */
  lemma StillReady(t: Table, retryLimit: int, a: Attempt, d: Id)
    requires IsReady(t, retryLimit, a.id) && IsReady(t, retryLimit, d) && a.id != d
    ensures IsReady(After(t, a), retryLimit, d)
  {
  }

  /** The members of the open batch that have not been tried. */
  ghost predicate RestReady(t: Table, retryLimit: int, phase: Phase)
  {
    phase.InBatch? ==>
      && phase.tried <= |phase.frontier| && Distinct(phase.frontier)
      && forall j :: phase.tried <= j < |phase.frontier| ==> IsReady(t, retryLimit, phase.frontier[j])
  }

  lemma {:induction false} RestStaysReady(start: Table, retryLimit: int, trace: seq<Event>, ceiling: real)
    requires Lawful(start, retryLimit, trace, ceiling)
    ensures RestReady(Replay(start, AttemptsIn(trace)), retryLimit, PhaseOf(trace))
  {
    if trace != [] {
      var before := trace[..|trace| - 1];
      RestStaysReady(start, retryLimit, before, ceiling);
      if Last(trace).Tried? {
        TriedLeavesRest(start, retryLimit, before, Last(trace).attempt);
      }
    }
  }

  lemma TriedLeavesRest(start: Table, retryLimit: int, before: seq<Event>, a: Attempt)
    requires RestReady(Replay(start, AttemptsIn(before)), retryLimit, PhaseOf(before))
    requires MayTry(before, a.id)
    ensures RestReady(Replay(start, AttemptsIn(before) + [a]), retryLimit, PhaseOf(before + [Tried(a)]))
  {
    var t, phase := Replay(start, AttemptsIn(before)), PhaseOf(before);
    assert (AttemptsIn(before) + [a])[..|AttemptsIn(before)|] == AttemptsIn(before);
    assert (before + [Tried(a)])[..|before|] == before;
    forall j | phase.tried + 1 <= j < |phase.frontier| ensures IsReady(After(t, a), retryLimit, phase.frontier[j]) {
      StillReady(t, retryLimit, a, phase.frontier[j]);
    }
  }

  /** The discipline of the trace only says that a batch is ready when it is computed. It
      follows that each of its members is still ready when it is started. */
  lemma {:induction false} LawfulStartsReady(start: Table, retryLimit: int, trace: seq<Event>, ceiling: real)
    requires Lawful(start, retryLimit, trace, ceiling)
    ensures StartedReady(start, AttemptsIn(trace), retryLimit)
  {
    if trace != [] {
      var before := trace[..|trace| - 1];
      LawfulStartsReady(start, retryLimit, before, ceiling);
      if Last(trace).Tried? {
        RestStaysReady(start, retryLimit, before, ceiling);
        OneMore(start, AttemptsIn(before), Last(trace).attempt, retryLimit);
      }
    }
  }

  // ----- The last step: skip what is stuck

  ghost predicate StuckSkipped(t: Table, t': Table, retryLimit: int)
  {
    && t'.Keys == t.Keys
    && forall d :: d in t ==>
         t'[d] == if Stuck(t, retryLimit, d) then t[d].(status := Skipped) else t[d]
  }

  ghost predicate NothingReady(t: Table, retryLimit: int)
  {
    forall d :: !IsReady(t, retryLimit, d)
  }

  function WithSkipped(t: Table, skipped: set<Id>): Table
  {
    map d | d in t :: if d in skipped then t[d].(status := Skipped) else t[d]
  }

  lemma SkipOneMore(t: Table, skipped: set<Id>, d: Id)
    requires d in t
    ensures var t' := WithSkipped(t, skipped);
            t'[d := t'[d].(status := Skipped)] == WithSkipped(t, skipped + {d})
  {
  }

  method MarkSkipped(ids: seq<Id>, t: Table, stuck: set<Id>) returns (t': Table)
    requires Lists(ids, t)
    ensures t' == WithSkipped(t, stuck)
  {
    t' := t;
    assert t == WithSkipped(t, {});
    for i := 0 to |ids|
      invariant t' == WithSkipped(t, Elems(ids[..i]) * stuck)
    {
      assert ids[..i + 1] == ids[..i] + [ids[i]];
      assert Elems(ids[..i + 1]) == Elems(ids[..i]) + {ids[i]};
      if ids[i] in stuck {
        SkipOneMore(t, Elems(ids[..i]) * stuck, ids[i]);
        assert Elems(ids[..i + 1]) * stuck == Elems(ids[..i]) * stuck + {ids[i]};
        t' := t'[ids[i] := t'[ids[i]].(status := Skipped)];
      } else {
        assert Elems(ids[..i + 1]) * stuck == Elems(ids[..i]) * stuck;
      }
    }
    assert ids[..|ids|] == ids;
    assert forall d :: d in t ==> (d in Elems(ids) * stuck <==> d in stuck);
  }

  /** A whole run from one table to another: a lawful course, told by the summary, whose
      attempts make the one table of the other; if it ended for want of work, what is stuck
      has been skipped as well. */
  ghost predicate CourseOf(start: Table, retryLimit: int, trace: seq<Event>, ceiling: real, summary: Summary,
                           end: Table)
  {
    var unskipped := Replay(start, AttemptsIn(trace));
    && Lawful(start, retryLimit, trace, ceiling) && Reports(summary, trace, ceiling)
    && if summary.Interrupted() then end == unskipped
       else OutOfWork(unskipped, retryLimit, trace) && StuckSkipped(unskipped, end, retryLimit)
  }

  // ----- The loop

  class BatchLoop {
    var ids: seq<Id>
    var table: Table
    var status: ProjectStatus
    /** The table the current run started with, and its course so far. */
    ghost var start: Table
    ghost var trace: seq<Event>
    /** The environment, and what had been read from it before the run. */
    const env: Environment
    ghost var readBefore: seq<Reading>

    ghost predicate Valid()
      reads this
    {
      Lists(ids, table)
    }

    /** The table is what the attempts of a lawful course have made of the first one, and the
        course is what has been read from the environment. */
    ghost predicate OnCourse(retryLimit: int, ceiling: real)
      reads this, env
    {
      && Lists(ids, start) && Lawful(start, retryLimit, trace, ceiling)
      && table == Replay(start, AttemptsIn(trace))
      && env.log == readBefore + ReadingsOf(trace)
    }

    constructor (ids: seq<Id>, table: Table, status: ProjectStatus, env: Environment)
      requires Lists(ids, table)
      ensures Valid() && this.ids == ids && this.table == table && this.status == status && this.env == env
    {
      this.ids, this.table, this.status, this.env := ids, table, status, env;
      start, trace, readBefore := table, [], [];
    }

    lemma CourseIsValid(retryLimit: int, ceiling: real)
      requires OnCourse(retryLimit, ceiling)
      ensures Valid() && StartedReady(start, AttemptsIn(trace), retryLimit)
      ensures |AttemptsIn(trace)| + TotalLeft(ids, table, retryLimit) == TotalLeft(ids, start, retryLimit)
    {
      LawfulStartsReady(start, retryLimit, trace, ceiling);
      AttemptsUseUp(ids, start, AttemptsIn(trace), retryLimit);
    }

    /** Mark in progress, let the pipeline run, read the final status. That the deliverable
        is ready at this moment is required here and proved by the loop. */
    method AttemptDeliverable(d: Id, retryLimit: int) returns (outcome: Outcome)
      requires Valid() && IsReady(table, retryLimit, d)
      modifies this`table, env
      ensures Valid() && env.log == old(env.log) + [PipelineRan(Attempt(d, outcome))]
      ensures table == old(table)[d := table[d]] && d in table
      ensures table[d].status == outcome
      ensures table[d].retryCount == old(table)[d].retryCount + if old(table)[d].status == Failed then 1 else 0
      ensures table[d].dependsOn == old(table)[d].dependsOn
      ensures table[d].executionOrder == old(table)[d].executionOrder
    {
      var row := table[d];
      if row.status != InProgress {
        if row.status == Failed {
          row := row.(retryCount := row.retryCount + 1);
        }
        row := row.(status := InProgress);
        table := table[d := row];
      }
      outcome := env.RunPipeline(d);
      table := table[d := table[d].(status := outcome)];
    }

    /** Write down an event that may follow, other than an attempt. */
    ghost method Record(e: Event, retryLimit: int, ceiling: real)
      requires Lists(ids, start) && Lawful(start, retryLimit, trace, ceiling)
      requires table == Replay(start, AttemptsIn(trace)) && MayFollow(table, retryLimit, trace, e, ceiling) && !e.Tried?
      requires env.log == readBefore + ReadingsOf(trace) + ReadingsOf([e])
      modifies this`trace
      ensures OnCourse(retryLimit, ceiling)
      ensures trace == old(trace) + [e] && trace[..|trace| - 1] == old(trace) && Last(trace) == e
      ensures AttemptsIn(trace) == AttemptsIn(old(trace))
      ensures BatchResults(trace) ==
              if e.BatchClosed? then BatchResults(old(trace)) + [e.failures > 0] else BatchResults(old(trace))
      ensures BatchesStarted(trace) == BatchesStarted(old(trace)) + if e.BatchStarted? then 1 else 0
    {
      LawfulAppend(start, retryLimit, trace, e, ceiling);
      TraceAppend(trace, e);
      trace := trace + [e];
    }

    /** Look at the pause flag, where the course allows it. */
    method CheckPause(retryLimit: int, ghost ceiling: real) returns (requested: bool)
      requires OnCourse(retryLimit, ceiling) && !Stopped(trace, ceiling) && MayCheckPause(trace)
      modifies this`trace, env
      ensures OnCourse(retryLimit, ceiling) && trace == old(trace) + [PauseChecked(requested)]
      ensures Last(trace) == PauseChecked(requested) && PhaseOf(trace) == PhaseOf(old(trace))
      ensures AttemptsIn(trace) == AttemptsIn(old(trace)) && BatchResults(trace) == BatchResults(old(trace))
      ensures BatchesStarted(trace) == BatchesStarted(old(trace))
    {
      requested := env.PauseRequested();
      OneReading(PauseChecked(requested));
      Record(PauseChecked(requested), retryLimit, ceiling);
    }

    /** Attempt the next member of the open batch. */
    method TryNext(retryLimit: int, ghost ceiling: real, d: Id) returns (outcome: Outcome)
      requires OnCourse(retryLimit, ceiling) && !Stopped(trace, ceiling) && MayTry(trace, d)
      modifies this`table, this`trace, env
      ensures OnCourse(retryLimit, ceiling) && trace == old(trace) + [Tried(Attempt(d, outcome))]
    {
      CourseIsValid(retryLimit, ceiling);
      RestStaysReady(start, retryLimit, trace, ceiling);
      outcome := AttemptDeliverable(d, retryLimit);
      ghost var a := Attempt(d, outcome);
      LawfulAppend(start, retryLimit, trace, Tried(a), ceiling);
      TraceAppend(trace, Tried(a));
      assert (AttemptsIn(trace) + [a])[..|AttemptsIn(trace)|] == AttemptsIn(trace);
      trace := trace + [Tried(a)];
    }

    /** What holds before the i-th member of a batch. */
    ghost predicate AtMember(before: seq<Event>, frontier: seq<Id>, i: nat, completed: nat, failed: nat,
                             retryLimit: int, ceiling: real)
      reads this, env
    {
      && OnCourse(retryLimit, ceiling) && Batching(before, trace, frontier, i, completed, failed)
      && trace != [] && if i == 0 then Last(trace).BatchStarted? else Last(trace).Tried?
    }

    /** The pause check and the attempt of the i-th member. */
    method TryOne(frontier: seq<Id>, i: nat, completed0: nat, failed0: nat, retryLimit: int, ghost ceiling: real,
                  ghost before: seq<Event>)
      returns (completed: nat, failed: nat, paused: bool)
      requires AtMember(before, frontier, i, completed0, failed0, retryLimit, ceiling) && i < |frontier|
      modifies this`table, this`trace, env
      ensures !paused ==> AtMember(before, frontier, i + 1, completed, failed, retryLimit, ceiling)
      ensures paused ==> OnCourse(retryLimit, ceiling) && Batching(before, trace, frontier, i, completed, failed)
      ensures paused ==> trace != [] && Last(trace) == PauseChecked(true)
    {
      completed, failed := completed0, failed0;
      ghost var unchecked := trace;
      paused := CheckPause(retryLimit, ceiling);
      BatchPauses(before, unchecked, frontier, i, completed, failed, paused);
      if paused {
        return;
      }
      ghost var checked := trace;
      var outcome := TryNext(retryLimit, ceiling, frontier[i]);
      BatchTries(before, checked, frontier, i, completed, failed, Attempt(frontier[i], outcome));
      if outcome == Completed {
        completed := completed + 1;
      } else if outcome == Failed {
        failed := failed + 1;
      }
    }

    ghost method OpenBatch(frontier: seq<Id>, retryLimit: int, ceiling: real)
      requires OnCourse(retryLimit, ceiling) && !Stopped(trace, ceiling) && MayStart(table, retryLimit, trace, frontier)
      modifies this`trace
      ensures AtMember(old(trace), frontier, 0, 0, 0, retryLimit, ceiling)
    {
      BatchStarts(trace, frontier);
      OneReading(BatchStarted(frontier));
      assert env.log + [] == env.log;
      Record(BatchStarted(frontier), retryLimit, ceiling);
    }

    /** One batch, sequentially, with a pause check before every deliverable. */
    method RunBatch(frontier: seq<Id>, retryLimit: int, ghost ceiling: real)
      returns (completed: nat, failed: nat, paused: bool)
      requires OnCourse(retryLimit, ceiling) && !Stopped(trace, ceiling) && MayStart(table, retryLimit, trace, frontier)
      modifies this`table, this`trace, env
      ensures !paused ==> AtMember(old(trace), frontier, |frontier|, completed, failed, retryLimit, ceiling)
      ensures paused ==> OnCourse(retryLimit, ceiling) && trace != [] && Last(trace) == PauseChecked(true)
      ensures paused ==> exists n: nat :: Batching(old(trace), trace, frontier, n, completed, failed)
    {
      completed, failed, paused := 0, 0, false;
      OpenBatch(frontier, retryLimit, ceiling);
      for i := 0 to |frontier|
        invariant AtMember(old(trace), frontier, i, completed, failed, retryLimit, ceiling)
      {
        completed, failed, paused := TryOne(frontier, i, completed, failed, retryLimit, ceiling, old(trace));
        if paused {
          return;
        }
      }
    }

    /** Mark everything stuck behind a permanent failure as skipped. */
    method SkipStuck(retryLimit: int)
      requires Valid()
      modifies this`table
      ensures Valid() && StuckSkipped(old(table), table, retryLimit)
    {
      var stuck := FindStuck(ids, table, retryLimit);
      var rows := MarkSkipped(ids, table, stuck);
      table := rows;
    }

    /** suspend_project: no effect on a project that is already over. */
    method SuspendProject()
      modifies this`status
      ensures status == Halted(old(status))
    {
      if status != ProjectCompleted && status != Aborted {
        status := Suspended;
      }
    }

    /** After a batch: count consecutive failures against the threshold, then look at the cost. */
    method CloseBatch(tracker: FailureTracker, batchFailed: nat, retryLimit: int, costCeiling: real)
      returns (thresholdExceeded: bool, costExceeded: bool)
      requires tracker.Valid() && tracker.batches == BatchResults(trace)
      requires OnCourse(retryLimit, costCeiling) && !Stopped(trace, costCeiling) && MayClose(trace, batchFailed)
      modifies this`status, this`trace, env, tracker
      ensures OnCourse(retryLimit, costCeiling) && PhaseOf(trace).Between?
      ensures tracker.Valid() && tracker.batches == BatchResults(trace) == BatchResults(old(trace)) + [batchFailed > 0]
      ensures AttemptsIn(trace) == AttemptsIn(old(trace)) && BatchesStarted(trace) == BatchesStarted(old(trace))
      ensures trace != [] && (thresholdExceeded <==> Last(trace).BatchClosed?)
      ensures !thresholdExceeded ==> Last(trace).CostRead? && (costExceeded <==> Last(trace).cost > costCeiling)
      ensures thresholdExceeded || costExceeded <==> Stopped(trace, costCeiling)
      ensures thresholdExceeded ==> !costExceeded
      ensures status == if thresholdExceeded then Halted(old(status)) else old(status)
    {
      var threshold := env.ConfiguredThreshold();
      thresholdExceeded := tracker.TrackBatchResult(batchFailed > 0, threshold);
      costExceeded := false;
      OneReading(BatchClosed(batchFailed, threshold));
      Record(BatchClosed(batchFailed, threshold), retryLimit, costCeiling);
      if thresholdExceeded {
        SuspendProject();
      } else {
        var cost := env.AccumulatedCost();
        OneReading(CostRead(cost));
        Record(CostRead(cost), retryLimit, costCeiling);
        costExceeded := cost > costCeiling;
      }
    }

    /** What holds at the head of the loop, and when it is left. */
    ghost predicate Looping(retryLimit: int, costCeiling: real, tracker: FailureTracker, summary: Summary, more: bool)
      reads this, env, tracker
    {
      && OnCourse(retryLimit, costCeiling) && Reports(summary, trace, costCeiling)
      && tracker.Valid() && tracker.batches == BatchResults(trace)
      && (more ==> PhaseOf(trace).Between? && !summary.Interrupted() && MayCheckPause(trace))
      && (!more && !summary.Interrupted() ==> OutOfWork(table, retryLimit, trace))
    }

    /** Run the ready list as one batch and close it. */
    method NextBatch(frontier: seq<Id>, retryLimit: int, costCeiling: real, tracker: FailureTracker, before: Summary)
      returns (summary: Summary, more: bool)
      requires OnCourse(retryLimit, costCeiling) && Tallies(before, trace)
      requires !Stopped(trace, costCeiling) && MayStart(table, retryLimit, trace, frontier)
      requires tracker.Valid() && tracker.batches == BatchResults(trace)
      modifies this`table, this`status, this`trace, env, tracker
      ensures Looping(retryLimit, costCeiling, tracker, summary, more)
      ensures more ==> |AttemptsIn(trace)| > |AttemptsIn(old(trace))|
      ensures more || summary.Interrupted()
      ensures status == StatusAfter(old(status), summary)
    {
      var completed, failed, stopped := RunBatch(frontier, retryLimit, costCeiling);
      summary := Summary(before.batchCount + 1, before.completed + completed, before.failed + failed,
                         false, false, stopped);
      more := false;
      if !stopped {
        var thresholdExceeded, costExceeded := CloseBatch(tracker, failed, retryLimit, costCeiling);
        summary := summary.(thresholdExceeded := thresholdExceeded, costExceeded := costExceeded);
        more := !thresholdExceeded && !costExceeded;
      }
    }

    /** One turn of the while-loop of _execute_batch_loop. */
    method Turn(retryLimit: int, costCeiling: real, tracker: FailureTracker, before: Summary)
      returns (summary: Summary, more: bool)
      requires Looping(retryLimit, costCeiling, tracker, before, true)
      modifies this`table, this`status, this`trace, env, tracker
      ensures Looping(retryLimit, costCeiling, tracker, summary, more)
      ensures more ==> |AttemptsIn(trace)| > |AttemptsIn(old(trace))|
      ensures status == StatusAfter(old(status), summary)
    {
      summary, more := before, false;
      var paused := CheckPause(retryLimit, costCeiling);
      if paused {
        summary := summary.(pauseRequested := true);
        return;
      }
      CourseIsValid(retryLimit, costCeiling);
      var frontier := ReadyBatch(ids, table, retryLimit);
      if frontier == [] {
        NothingListed(table, retryLimit, frontier);
      } else {
        summary, more := NextBatch(frontier, retryLimit, costCeiling, tracker, summary);
      }
    }

    /** The while-loop of _execute_batch_loop. It ends because every batch uses up attempts. */
    method RunBatches(retryLimit: int, costCeiling: real) returns (summary: Summary)
      requires Valid()
      modifies this`table, this`status, this`start, this`trace, this`readBefore, env
      ensures start == old(table) && readBefore == old(env.log) && OnCourse(retryLimit, costCeiling)
      ensures Reports(summary, trace, costCeiling)
      ensures !summary.Interrupted() ==> OutOfWork(table, retryLimit, trace)
      ensures status == StatusAfter(old(status), summary)
    {
      var tracker := new FailureTracker();
      start, trace, readBefore := table, [], env.log;
      assert readBefore + [] == readBefore;
      summary := Summary(0, 0, 0, false, false, false);
      var more := true;
      while more
        invariant fresh(tracker) && Looping(retryLimit, costCeiling, tracker, summary, more)
        invariant start == old(table) && readBefore == old(env.log)
        invariant status == StatusAfter(old(status), summary)
        decreases more, TotalLeft(ids, start, retryLimit) - |AttemptsIn(trace)|
      {
        summary, more := Turn(retryLimit, costCeiling, tracker, summary);
        CourseIsValid(retryLimit, costCeiling);
      }
    }

    /** The batch loop, to the end of its skip pass. The course is lawful and ends at a stop
        or for want of work, and there only; the table is what its attempts have made of the
        first one, each started on a deliverable ready at that moment; after an end for want
        of work, what is stuck has been skipped as well. */
    method Run(retryLimit: int, costCeiling: real) returns (summary: Summary)
      requires Valid()
      modifies this`table, this`status, this`start, this`trace, this`readBefore, env
      ensures Valid() && start == old(table)
      ensures CourseOf(start, retryLimit, trace, costCeiling, summary, table)
      ensures StartedReady(start, AttemptsIn(trace), retryLimit)
      ensures env.log == old(env.log) + ReadingsOf(trace)
      ensures status == if summary.thresholdExceeded && old(status) != ProjectCompleted && old(status) != Aborted
                        then Suspended else old(status)
    {
      summary := RunBatches(retryLimit, costCeiling);
      CourseIsValid(retryLimit, costCeiling);
      if !summary.Interrupted() {
        SkipStuck(retryLimit);
      }
    }
  }

  lemma NothingListed(t: Table, retryLimit: int, frontier: seq<Id>)
    requires ReadyList(t, retryLimit, frontier) && frontier == []
    ensures NothingReady(t, retryLimit)
  {
  }

  /** What suspend_project makes of a status. */
  function Halted(status: ProjectStatus): ProjectStatus
  {
    if status == ProjectCompleted || status == Aborted then status else Suspended
  }

  function StatusAfter(status: ProjectStatus, summary: Summary): ProjectStatus
  {
    if summary.thresholdExceeded then Halted(status) else status
  }
}
