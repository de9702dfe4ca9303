/** The stage loop: stages in manifest order, each behind a close gate, resumed across sessions. */
module Stages {
  import opened Ids
  import opened Deliverables
  import opened Scheduler
  import opened Completion

  datatype Schedule = PerDeliverable | PerBatch | PerTaskgroup | PerStage

  datatype ValidatorDef = ValidatorDef(name: Id, schedule: Schedule, required: bool)

  datatype Stage = Stage(name: Id, validators: seq<ValidatorDef>)

  datatype Manifest = Manifest(stages: seq<Stage>, validators: seq<ValidatorDef>)

  datatype Result = Result(name: Id, passed: bool)

  function StageValidators(stages: seq<Stage>): (r: seq<ValidatorDef>)
    ensures forall s, v :: s in stages && v in s.validators ==> v in r
    ensures forall v :: v in r ==> exists s :: s in stages && v in s.validators
  {
    if stages == [] then []
    else
      assert stages == [stages[0]] + stages[1..];
      stages[0].validators + StageValidators(stages[1..])
  }

  function AllValidators(m: Manifest): (r: seq<ValidatorDef>)
    ensures forall v :: v in r <==> v in m.validators || exists s :: s in m.stages && v in s.validators
  {
    m.validators + StageValidators(m.stages)
  }

  /** What the manifest's own validation guarantees: no name is used twice. */
  ghost predicate ValidManifest(m: Manifest)
  {
    && (forall i, j :: 0 <= i < j < |m.stages| ==> m.stages[i].name != m.stages[j].name)
    && forall v, w :: v in AllValidators(m) && w in AllValidators(m) && v.name == w.name ==> v == w
  }

  // ----- Running validators

  /** The answers read for these results. */
  function AnswersOf(results: seq<Result>): seq<Reading>
  {
    if results == [] then []
    else
      var last := results[|results| - 1];
      AnswersOf(results[..|results| - 1]) + [ValidatorAnswered(last.name, last.passed)]
  }

  function NamesOf(results: seq<Result>): seq<Id>
  {
    if results == [] then [] else NamesOf(results[..|results| - 1]) + [results[|results| - 1].name]
  }

  /** The names of the validators on a schedule, in order. */
  function ScheduledNames(validators: seq<ValidatorDef>, schedule: Schedule): seq<Id>
  {
    if validators == [] then []
    else
      var front, last := ScheduledNames(validators[..|validators| - 1], schedule), validators[|validators| - 1];
      if last.schedule == schedule then front + [last.name] else front
  }

  /** One result for each validator on the schedule, in order. */
  ghost predicate ScheduledResults(m: Manifest, schedule: Schedule, results: seq<Result>)
  {
    NamesOf(results) == ScheduledNames(AllValidators(m), schedule)
  }

  lemma {:induction false} NamesAt(results: seq<Result>)
    ensures |NamesOf(results)| == |results|
    ensures forall i :: 0 <= i < |results| ==> NamesOf(results)[i] == results[i].name
  {
    if results != [] { NamesAt(results[..|results| - 1]); }
  }

  lemma {:induction false} ScheduledMember(validators: seq<ValidatorDef>, schedule: Schedule, n: Id)
    ensures n in ScheduledNames(validators, schedule) <==>
            exists v :: v in validators && v.schedule == schedule && v.name == n
  {
    if validators != [] {
      var front, last := validators[..|validators| - 1], validators[|validators| - 1];
      assert validators == front + [last];
      ScheduledMember(front, schedule, n);
      if last.schedule == schedule && last.name == n { assert last in validators; }
    }
  }

  method RunScheduledValidators(m: Manifest, schedule: Schedule, env: Environment) returns (results: seq<Result>)
    modifies env
    ensures ScheduledResults(m, schedule, results)
    ensures env.log == old(env.log) + AnswersOf(results)
  {
    results := [];
    assert env.log + [] == env.log;
    var all := AllValidators(m);
    for i := 0 to |all|
      invariant NamesOf(results) == ScheduledNames(all[..i], schedule)
      invariant env.log == old(env.log) + AnswersOf(results)
    {
      assert all[..i + 1][..i] == all[..i];
      if all[i].schedule == schedule {
        var passed := env.Evaluate(all[i].name);
        assert (results + [Result(all[i].name, passed)])[..|results|] == results;
        results := results + [Result(all[i].name, passed)];
      }
    }
    assert all[..|all|] == all;
  }

  // ----- The close gate

  /** The last result under a name, as `matching[-1].passed` reads it. */
  function LastResult(results: seq<Result>, name: Id): Option<bool>
  {
    if results == [] then None
    else if results[|results| - 1].name == name then Some(results[|results| - 1].passed)
    else LastResult(results[..|results| - 1], name)
  }

  /** By position: there is such a result, and none of that name after it. */
  ghost predicate LastSays(results: seq<Result>, name: Id, passed: bool)
  {
    exists i :: 0 <= i < |results| && results[i] == Result(name, passed)
                && forall j :: i < j < |results| ==> results[j].name != name
  }

  lemma LastSaysAppend(results: seq<Result>, last: Result, name: Id, p: bool)
    ensures LastSays(results + [last], name, p) <==>
            if last.name == name then last.passed == p else LastSays(results, name, p)
  {
    var more := results + [last];
    assert more[|results|] == last;
    if last.name != name && LastSays(results, name, p) {
      var i :| 0 <= i < |results| && results[i] == Result(name, p)
               && forall j :: i < j < |results| ==> results[j].name != name;
      assert more[i] == results[i];
    }
    if last.name != name && LastSays(more, name, p) {
      var i :| 0 <= i < |more| && more[i] == Result(name, p) && forall j :: i < j < |more| ==> more[j].name != name;
      assert results[i] == more[i];
      assert forall j :: i < j < |results| ==> results[j] == more[j];
    }
  }

  lemma {:induction false} LastResultExactly(results: seq<Result>, name: Id)
    ensures forall p :: LastResult(results, name) == Some(p) <==> LastSays(results, name, p)
    ensures LastResult(results, name) == None <==> forall r :: r in results ==> r.name != name
  {
    if results != [] {
      var front, last := results[..|results| - 1], results[|results| - 1];
      assert results == front + [last];
      LastResultExactly(front, name);
      LastSaysAppend(front, last, name, true);
      LastSaysAppend(front, last, name, false);
    }
  }

  datatype Failure =
    | NoStatuses
    | Outstanding(count: nat)
    | PendingEscalations(count: nat)
    | NotEvaluated(name: Id)
    | ValidatorFailed(name: Id)

  /** The first stage of that name. */
  function StageNamed(stages: seq<Stage>, name: Id): (r: Option<Stage>)
    ensures r.Some? ==> r.value.name == name
    ensures r.Some? ==> exists i :: 0 <= i < |stages| && stages[i] == r.value
                                    && forall j :: 0 <= j < i ==> stages[j].name != name
    ensures r.None? ==> forall s :: s in stages ==> s.name != name
  {
    if stages == [] then None
    else
      assert stages == [stages[0]] + stages[1..];
      if stages[0].name == name then Some(stages[0]) else StageNamed(stages[1..], name)
  }

  lemma NamedByItself(m: Manifest, stage: Stage)
    requires ValidManifest(m) && stage in m.stages
    ensures StageNamed(m.stages, stage.name) == Some(stage)
  {
    var found := StageNamed(m.stages, stage.name).value;
    var i, j :| 0 <= i < |m.stages| && m.stages[i] == found && 0 <= j < |m.stages| && m.stages[j] == stage;
    assert i == j;
  }

  /** _find_stage. */
  method FindStage(m: Manifest, name: Id) returns (stage: Option<Stage>)
    ensures stage == StageNamed(m.stages, name)
  {
    for i := 0 to |m.stages|
      invariant StageNamed(m.stages, name) == StageNamed(m.stages[i..], name)
    {
      if m.stages[i].name == name {
        return Some(m.stages[i]);
      }
      assert m.stages[i..][1..] == m.stages[i + 1..];
    }
    stage := None;
  }

  predicate Gating(v: ValidatorDef)
  {
    v.required && v.schedule != PerStage
  }

  ghost predicate ValidatorsPassed(validators: seq<ValidatorDef>, results: seq<Result>)
  {
    forall v :: v in validators && v.required
                && (v.schedule == PerDeliverable || v.schedule == PerBatch || v.schedule == PerTaskgroup) ==>
      LastSays(results, v.name, true)
  }

  /** A current stage that is not set, or not in the manifest, demands no validators. */
  ghost predicate GatePasses(m: Manifest, current: Option<Id>, statuses: Option<map<Id, Status>>, escalations: nat,
                             results: seq<Result>)
  {
    m.stages == [] ||
    (&& statuses.Some? && (forall d :: d in statuses.value ==> Terminal(statuses.value[d]))
     && escalations == 0
     && (current.Some? && StageNamed(m.stages, current.value).Some? ==>
           ValidatorsPassed(StageNamed(m.stages, current.value).value.validators, results)))
  }

  /** One of the validators is required, runs before the stage ends, has this name, and has
      not been evaluated, or failed when it last was. */
  ghost predicate Missed(validators: seq<ValidatorDef>, results: seq<Result>, f: Failure)
  {
    exists v :: v in validators && v.required
                && (v.schedule == PerDeliverable || v.schedule == PerBatch || v.schedule == PerTaskgroup)
                && ((f == NotEvaluated(v.name) && forall r :: r in results ==> r.name != v.name)
                    || (f == ValidatorFailed(v.name) && LastSays(results, v.name, false)))
  }

  /** The reasons the gate gives. */
  ghost predicate Reason(m: Manifest, current: Option<Id>, statuses: Option<map<Id, Status>>, escalations: nat,
                         results: seq<Result>, f: Failure)
  {
    match f
    case NoStatuses => statuses.None?
    case Outstanding(n) =>
      statuses.Some? && n > 0 && n == |set d | d in statuses.value && !Terminal(statuses.value[d])|
    case PendingEscalations(n) => n == escalations > 0
    case _ =>
      && current.Some? && StageNamed(m.stages, current.value).Some?
      && Missed(StageNamed(m.stages, current.value).value.validators, results, f)
  }

  /** verify_taskgroup_completion. */
  method VerifyTaskgroupCompletion(m: Manifest, current: Option<Id>, statuses: Option<map<Id, Status>>,
                                   escalations: nat, results: seq<Result>)
    returns (passed: bool, failures: seq<Failure>)
    ensures passed <==> GatePasses(m, current, statuses, escalations, results)
    ensures passed <==> failures == []
    ensures m.stages != [] ==>
              forall f :: f in failures <==> Reason(m, current, statuses, escalations, results, f)
  {
    failures := [];
    if m.stages == [] {
      return true, [];
    }
    if statuses.None? {
      failures := failures + [NoStatuses];
    } else {
      var (done, incomplete) := CheckDeliverableStatuses(statuses.value);
      if !done {
        failures := failures + [Outstanding(|incomplete|)];
      }
    }
    if escalations > 0 {
      failures := failures + [PendingEscalations(escalations)];
    }
    if current.Some? {
      var stage := FindStage(m, current.value);
      if stage.Some? {
        var more := CheckValidators(stage.value.validators, results);
        failures := failures + more;
      }
    }
    passed := failures == [];
  }

  method CheckValidators(validators: seq<ValidatorDef>, results: seq<Result>) returns (failures: seq<Failure>)
    ensures failures == [] <==> ValidatorsPassed(validators, results)
    ensures forall f :: f in failures <==> Missed(validators, results, f)
  {
    failures := [];
    for i := 0 to |validators|
      invariant failures == [] <==> ValidatorsPassed(validators[..i], results)
      invariant forall f :: f in failures <==> Missed(validators[..i], results, f)
    {
      var v := validators[i];
      assert validators[..i + 1] == validators[..i] + [v];
      LastResultExactly(results, v.name);
      if Gating(v) {
        match LastResult(results, v.name) {
          case None => failures := failures + [NotEvaluated(v.name)];
          case Some(ok) =>
            if !ok {
              failures := failures + [ValidatorFailed(v.name)];
            }
        }
      }
    }
    assert validators[..|validators|] == validators;
  }

  /** The stage loop hands the gate only the results of the TaskGroup schedule, while the
      gate also demands those of the earlier schedules. So the gate opens exactly when
      everything is terminal, nothing is escalated, every required TaskGroup validator of
      the stage passed, and the stage has no required validator on an earlier schedule. */
  lemma GateOpensExactly(m: Manifest, stage: Stage, statuses: map<Id, Status>, escalations: nat, results: seq<Result>)
    requires ValidManifest(m) && stage in m.stages
    requires ScheduledResults(m, PerTaskgroup, results)
    ensures GatePasses(m, Some(stage.name), Some(statuses), escalations, results) <==>
            && (forall d :: d in statuses ==> Terminal(statuses[d]))
            && escalations == 0
            && (forall v :: v in stage.validators && v.required ==>
                  v.schedule == PerStage || (v.schedule == PerTaskgroup && LastSays(results, v.name, true)))
  {
    NamedByItself(m, stage);
    forall v | v in stage.validators && v.required && v.schedule != PerTaskgroup && v.schedule != PerStage
      ensures !LastSays(results, v.name, true)
    {
      assert v in AllValidators(m);
      assert forall w :: w in AllValidators(m) && w.schedule == PerTaskgroup ==> w.name != v.name;
      NamesAt(results);
      ScheduledMember(AllValidators(m), PerTaskgroup, v.name);
      assert forall i :: 0 <= i < |results| ==> NamesOf(results)[i] != v.name;
    }
  }

  // ----- The stage loop

  datatype StageStatus = StagePending | StageActive | StageCompleted | StageFailed

  type StageRows = map<Id, StageStatus>

  predicate IsCompleted(rows: StageRows, name: Id)
  {
    name in rows && rows[name] == StageCompleted
  }

  /** Exactly the first n stages of the manifest are completed. */
  ghost predicate CompletedPrefix(m: Manifest, rows: StageRows, n: nat)
  {
    && n <= |m.stages|
    && forall i :: 0 <= i < |m.stages| ==>
         (m.stages[i].name in rows && rows[m.stages[i].name] == StageCompleted <==> i < n)
  }

  /** What the gate saw when it let a stage close. */
  datatype Closing = Closing(stage: Stage, statuses: map<Id, Status>, escalations: nat, results: seq<Result>)

  ghost predicate Opened(m: Manifest, c: Closing)
  {
    GatePasses(m, Some(c.stage.name), Some(c.statuses), c.escalations, c.results)
  }

  ghost predicate ProperClosing(m: Manifest, c: Closing)
  {
    ScheduledResults(m, PerTaskgroup, c.results) && Opened(m, c)
  }

  /** Exactly the first n stages are completed, and each was closed through the gate. */
  ghost predicate ClosedPrefix(m: Manifest, rows: StageRows, closings: seq<Closing>, n: nat)
  {
    && CompletedPrefix(m, rows, n) && |closings| == n
    && forall i {:trigger ClosedAt(m, closings, i)} :: 0 <= i < n ==> ClosedAt(m, closings, i)
  }

  ghost predicate ClosedAt(m: Manifest, closings: seq<Closing>, i: nat)
    requires i < |m.stages| && i < |closings|
  {
    closings[i].stage == m.stages[i] && ProperClosing(m, closings[i])
  }

  lemma OpenStageKeeps(m: Manifest, rows: StageRows, closings: seq<Closing>, n: nat)
    requires ValidManifest(m) && ClosedPrefix(m, rows, closings, n) && n < |m.stages|
    ensures ClosedPrefix(m, rows[m.stages[n].name := StageActive], closings, n)
  {
  }

  lemma ClosedStageExtends(m: Manifest, rows: StageRows, closings: seq<Closing>, n: nat, c: Closing)
    requires ValidManifest(m) && ClosedPrefix(m, rows, closings, n) && n < |m.stages|
    requires c.stage == m.stages[n] && ProperClosing(m, c)
    ensures ClosedPrefix(m, rows[m.stages[n].name := StageCompleted], closings + [c], n + 1)
  {
    forall i | 0 <= i < n + 1 ensures ClosedAt(m, closings + [c], i) {
      if i < n { assert ClosedAt(m, closings, i); }
    }
  }

  class StageLoop {
    const manifest: Manifest
    const batch: BatchLoop
    var rows: StageRows
    ghost var closings: seq<Closing>
    ghost var completedStages: nat

    /** Completed stages are always a prefix of the manifest's stages, and each was closed
        through the gate. */
    ghost predicate Valid()
      reads this, batch
    {
      && batch.Valid() && ValidManifest(manifest)
      && ClosedPrefix(manifest, rows, closings, completedStages)
    }

    constructor (manifest: Manifest, batch: BatchLoop)
      requires batch.Valid() && ValidManifest(manifest)
      ensures Valid() && this.manifest == manifest && this.batch == batch && rows == map[]
    {
      this.manifest, this.batch, rows, closings, completedStages := manifest, batch, map[], [], 0;
    }

    /** Run one stage that is not completed yet: its batch loop on the deliverables as they
        are, then its close gate on the deliverables as the loop has left them. */
    method RunStage(i: nat, retryLimit: int, costCeiling: real) returns (closed: bool, ghost run: StageRun)
      requires Valid() && i == completedStages < |manifest.stages|
      modifies this, batch, batch.env
      ensures Valid() && ProperRun(manifest, run, retryLimit, costCeiling)
      ensures run.stage == manifest.stages[i] && run.before == old(batch.table) && run.after == batch.table
      ensures closed == run.closed && closings == old(closings) + ClosingsOf([run])
      ensures completedStages == old(completedStages) + if closed then 1 else 0
      ensures rows == old(rows)[manifest.stages[i].name := if closed then StageCompleted else StageActive]
      ensures batch.status == StatusAfter(old(batch.status), run.summary)
      ensures batch.env.log == old(batch.env.log) + ReadingsIn(run)
    {
      ghost var before := batch.table;
      var name := manifest.stages[i].name;
      OpenStageKeeps(manifest, rows, closings, i);
      rows := rows[name := StageActive];
      var summary := batch.Run(retryLimit, costCeiling);
      assert old(rows)[name := StageActive][name := StageCompleted] == old(rows)[name := StageCompleted];
      ghost var trace, after, stage := batch.trace, batch.table, manifest.stages[i];
      if summary.Interrupted() {
        closed := false;
        assert ReadingsOf(trace) + [] == ReadingsOf(trace);
        run := StageRun(stage, before, trace, summary, after, false, Closing(stage, map[], 0, []));
      } else {
        ghost var seen;
        closed, seen := TryClose(i);
        Regroup(old(batch.env.log), ReadingsOf(trace), GateReadings(seen));
        run := StageRun(stage, before, trace, summary, after, closed, seen);
      }
      OneClosing(run);
    }

    /** The gate looked at the stage's own definition, the deliverables as they are now, and
        a fresh run of the TaskGroup validators. */
    ghost predicate SeenAtGate(i: nat, c: Closing)
      requires i < |manifest.stages|
      reads this, batch
    {
      && c.stage == manifest.stages[i] && c.statuses == StatusesOf(batch.table)
      && ScheduledResults(manifest, PerTaskgroup, c.results)
    }

    /** The TaskGroup close gate; only behind it is the stage marked completed. */
    method TryClose(i: nat) returns (closed: bool, ghost seen: Closing)
      requires Valid() && i == completedStages < |manifest.stages|
      modifies this, batch.env
      ensures Valid() && closings == if closed then old(closings) + [seen] else old(closings)
      ensures completedStages == old(completedStages) + if closed then 1 else 0
      ensures rows == if closed then old(rows)[manifest.stages[i].name := StageCompleted] else old(rows)
      ensures SeenAtGate(i, seen) && batch.env.log == old(batch.env.log) + GateReadings(seen)
      ensures closed <==> Opened(manifest, seen)
    {
      var stage := manifest.stages[i];
      var escalations := batch.env.PendingEscalationCount();
      var statuses := StatusesOf(batch.table);
      var results := RunScheduledValidators(manifest, PerTaskgroup, batch.env);
      var passed, _ := VerifyTaskgroupCompletion(manifest, Some(stage.name), Some(statuses), escalations, results);
      closed, seen := passed, Closing(stage, statuses, escalations, results);
      Regroup(old(batch.env.log), [EscalationsRead(escalations)], AnswersOf(results));
      if passed {
        ClosedStageExtends(manifest, rows, closings, i, seen);
        rows := rows[stage.name := StageCompleted];
        closings := closings + [seen];
        completedStages := completedStages + 1;
      }
    }

    /** One turn of a session at a stage that is not completed. */
    method AdvanceStage(ghost o: Origin, ghost runs0: seq<StageRun>, i: nat, retryLimit: int, costCeiling: real)
      returns (closed: bool, ghost runs: seq<StageRun>)
      requires Valid() && i == completedStages < |manifest.stages|
      requires SoFar(manifest, o, runs0, retryLimit, costCeiling, Here())
      modifies this, batch, batch.env
      ensures Valid() && completedStages == if closed then i + 1 else i
      ensures if closed then SoFar(manifest, o, runs, retryLimit, costCeiling, Here())
              else LeftOpen(manifest, o, runs, retryLimit, costCeiling, Here())
    {
      ghost var before := Here();
      ghost var run;
      closed, run := RunStage(i, retryLimit, costCeiling);
      runs := runs0 + [run];
      StageFollows(manifest, o, runs0, run, retryLimit, costCeiling, before, Here());
    }

    ghost function Here(): Origin
      reads this, batch, batch.env
    {
      Origin(completedStages, closings, batch.table, batch.status, batch.env.log)
    }

    /** One work session. It picks up at the first stage that is not completed and runs stage
        after stage, each on the deliverables the one before has left, until one does not
        close or all are completed; only then is the project marked completed. */
    method RunSession(retryLimit: int, costCeiling: real)
      returns (stagesCompleted: nat, projectCompleted: bool, ghost runs: seq<StageRun>)
      requires Valid()
      modifies this, batch, batch.env
      ensures Valid() && closings == old(closings) + ClosingsOf(runs)
      ensures SessionOf(manifest, old(completedStages), runs, old(batch.table), retryLimit, costCeiling, batch.table,
                        completedStages)
      ensures manifest.stages != [] ==> stagesCompleted == completedStages
      ensures projectCompleted <==> completedStages == |manifest.stages|
      ensures batch.status == StatusAtEnd(manifest, old(batch.status), runs, completedStages)
      ensures batch.env.log == old(batch.env.log) + AllReadings(runs)
    {
      runs := [];
      if manifest.stages == [] {
        return 0, true, [];
      }
      ghost var o := Here();
      stagesCompleted, projectCompleted := 0, false;
      for i := 0 to |manifest.stages|
        invariant Valid() && stagesCompleted == i <= completedStages
        invariant SoFar(manifest, o, runs, retryLimit, costCeiling, Here())
        invariant i < completedStages ==> runs == []
      {
        if IsCompleted(rows, manifest.stages[i].name) {
          stagesCompleted := stagesCompleted + 1;
        } else {
          var closed;
          closed, runs := AdvanceStage(o, runs, i, retryLimit, costCeiling);
          if !closed {
            return;
          }
          stagesCompleted := stagesCompleted + 1;
        }
      }
      projectCompleted := true;
      batch.status := ProjectCompleted;
    }

    /** A project marked completed has every stage completed, and no stage that cannot be. */
    ghost predicate HonestStatus()
      reads this, batch
    {
      batch.status == ProjectCompleted ==>
        && completedStages == |manifest.stages|
        && forall i :: 0 <= i < |manifest.stages| ==> !RequiresEarlierValidator(manifest.stages[i])
    }

    lemma EveryStageCanClose()
      requires Valid() && completedStages == |manifest.stages|
      ensures forall i :: 0 <= i < |manifest.stages| ==> !RequiresEarlierValidator(manifest.stages[i])
    {
      forall i | 0 <= i < |manifest.stages| ensures !RequiresEarlierValidator(manifest.stages[i]) {
        if RequiresEarlierValidator(manifest.stages[i]) { EarlierValidatorBlocksForever(this, i); }
      }
    }

    /** Any number of sessions, with anything in between but the project being completed by
        somebody else. Each session runs stages on the deliverables it finds, from the first
        stage that is not completed; after each the completed stages are a prefix of the
        manifest, never shorter than before; all closings there are come from these runs; and
        the project is marked completed only when that prefix is everything, which no stage
        with a required validator on an earlier schedule allows. */
    method RunSessions(visits: seq<Visit>) returns (ghost history: seq<Snapshot>)
      requires Valid() && HonestStatus()
      requires forall v :: v in visits ==> Possible(v)
      modifies this, batch, batch.env
      ensures Rested(old(Here()), visits, history)
    {
      ghost var o := Here();
      history := [];
      NothingVisited(manifest, o);
      ghost var done: seq<Visit> := [];
      for n := 0 to |visits|
        invariant done == visits[..n] && Rested(o, done, history)
      {
        var v := visits[n];
        history := NextVisit(o, done, history, v);
        done := done + [v];
      }
      assert done == visits;
    }

    /** What holds between two sessions. */
    ghost predicate Rested(o: Origin, visits: seq<Visit>, history: seq<Snapshot>)
      reads this, batch, batch.env
    {
      Valid() && HonestStatus() && Visited(manifest, o, visits, history, Here())
    }

    method NextVisit(ghost o: Origin, ghost visits: seq<Visit>, ghost history0: seq<Snapshot>, v: Visit)
      returns (ghost history: seq<Snapshot>)
      requires Rested(o, visits, history0)
      requires Possible(v)
      modifies this, batch, batch.env
      ensures Rested(o, visits + [v], history)
    {
      ghost var before := Here();
      ghost var now := RunVisit(v);
      VisitFollows(manifest, o, visits, history0, v, now, before, Here());
      history := history0 + [now];
    }

    /** One session, on what it finds. */
    method RunVisit(v: Visit) returns (ghost now: Snapshot)
      requires Valid() && HonestStatus() && Possible(v)
      modifies this, batch, batch.env
      ensures Valid() && HonestStatus() && closings == old(closings) + ClosingsOf(now.runs)
      ensures batch.env.log == old(batch.env.log) + AllReadings(now.runs)
      ensures VisitOf(manifest, old(completedStages), v, now)
      ensures now.completed == completedStages && now.rows == rows && now.status == batch.status
      ensures now.table == batch.table && Sound(manifest, now)
    {
      batch.ids, batch.table := v.ids, v.table;
      if v.status.Some? {
        batch.status := v.status.value;
      }
      var _, _, runs := RunSession(v.retryLimit, v.costCeiling);
      now := Snapshot(rows, completedStages, batch.status, batch.table, runs);
      if completedStages == |manifest.stages| {
        EveryStageCanClose();
      }
    }
  }

  // ----- The course of sessions

  /** One stage in one session: the deliverables before, the course of its batch loop and what
      that reported, the deliverables after, and what the gate saw if it was asked. */
  datatype StageRun = StageRun(
    stage: Stage,
    before: Table,
    trace: seq<Event>,
    summary: Summary,
    after: Table,
    closed: bool,
    seen: Closing)

  /** A stage closes exactly when its batch loop was not interrupted and the gate passed on
      the deliverables that loop has left. */
  ghost predicate ProperRun(m: Manifest, run: StageRun, retryLimit: int, costCeiling: real)
  {
    && CourseOf(run.before, retryLimit, run.trace, costCeiling, run.summary, run.after)
    && (!run.summary.Interrupted() ==>
          && run.seen.stage == run.stage && run.seen.statuses == StatusesOf(run.after)
          && ScheduledResults(m, PerTaskgroup, run.seen.results))
    && (run.closed <==> !run.summary.Interrupted() && Opened(m, run.seen))
  }

  function ClosingsOf(runs: seq<StageRun>): seq<Closing>
  {
    if runs == [] then []
    else
      var before, last := ClosingsOf(runs[..|runs| - 1]), runs[|runs| - 1];
      if last.closed then before + [last.seen] else before
  }

  /** What was read at the gate, and in a whole stage, session and history. */
  function GateReadings(seen: Closing): seq<Reading>
  {
    [EscalationsRead(seen.escalations)] + AnswersOf(seen.results)
  }

  function ReadingsIn(run: StageRun): seq<Reading>
  {
    ReadingsOf(run.trace) + if run.summary.Interrupted() then [] else GateReadings(run.seen)
  }

  function AllReadings(runs: seq<StageRun>): seq<Reading>
  {
    if runs == [] then [] else AllReadings(runs[..|runs| - 1]) + ReadingsIn(runs[|runs| - 1])
  }

  function AllRead(history: seq<Snapshot>): seq<Reading>
  {
    if history == [] then [] else AllRead(history[..|history| - 1]) + AllReadings(history[|history| - 1].runs)
  }

  lemma Regroup<T>(a: seq<T>, b: seq<T>, c: seq<T>)
    ensures (a + b) + c == a + (b + c)
  {
  }

  lemma OneClosing(run: StageRun)
    ensures ClosingsOf([run]) == if run.closed then [run.seen] else []
  {
    assert [run][..0] == [];
  }

  ghost predicate AllClosed(runs: seq<StageRun>)
  {
    forall run :: run in runs ==> run.closed
  }

  /** Runs of consecutive stages from the given one on, each but the last closed and each on
      the deliverables the one before has left. */
  ghost predicate Chain(m: Manifest, first: nat, runs: seq<StageRun>, start: Table, retryLimit: int, costCeiling: real,
                        end: Table)
  {
    if runs == [] then end == start
    else
      var front, last := runs[..|runs| - 1], runs[|runs| - 1];
      && first + |front| < |m.stages| && last.stage == m.stages[first + |front|]
      && AllClosed(front) && Chain(m, first, front, start, retryLimit, costCeiling, last.before)
      && ProperRun(m, last, retryLimit, costCeiling) && last.after == end
  }

  lemma ChainAppend(m: Manifest, first: nat, runs: seq<StageRun>, run: StageRun, start: Table, retryLimit: int,
                    costCeiling: real)
    requires AllClosed(runs) && Chain(m, first, runs, start, retryLimit, costCeiling, run.before)
    requires ProperRun(m, run, retryLimit, costCeiling)
    requires first + |runs| < |m.stages| && run.stage == m.stages[first + |runs|]
    ensures Chain(m, first, runs + [run], start, retryLimit, costCeiling, run.after)
    ensures AllClosed(runs + [run]) <==> run.closed
  {
    assert (runs + [run])[..|runs|] == runs && run in runs + [run];
  }

  lemma RecordsAppend(runs: seq<StageRun>, run: StageRun)
    ensures ClosingsOf(runs + [run]) == ClosingsOf(runs) + ClosingsOf([run])
    ensures AllReadings(runs + [run]) == AllReadings(runs) + ReadingsIn(run)
  {
    assert (runs + [run])[..|runs|] == runs;
    OneClosing(run);
  }

  /** Where a session stands: completed stages, closings, deliverables, status, readings. */
  datatype Origin = Origin(
    first: nat,
    closings: seq<Closing>,
    table: Table,
    status: ProjectStatus,
    read: seq<Reading>)

  /** From o to here a session has run these stages, and all have closed. */
  ghost predicate SoFar(m: Manifest, o: Origin, runs: seq<StageRun>, retryLimit: int, costCeiling: real, here: Origin)
  {
    && Chain(m, o.first, runs, o.table, retryLimit, costCeiling, here.table) && AllClosed(runs)
    && here.closings == o.closings + ClosingsOf(runs) && here.read == o.read + AllReadings(runs)
    && here.first == o.first + |runs| && here.status == o.status
  }

  /** From o to here a session has run these stages, and the last has not closed. */
  ghost predicate LeftOpen(m: Manifest, o: Origin, runs: seq<StageRun>, retryLimit: int, costCeiling: real,
                           here: Origin)
  {
    && SessionOf(m, o.first, runs, o.table, retryLimit, costCeiling, here.table, here.first)
    && here.closings == o.closings + ClosingsOf(runs) && here.read == o.read + AllReadings(runs)
    && runs != [] && here.status == StatusAfter(o.status, runs[|runs| - 1].summary)
  }

  lemma StageFollows(m: Manifest, o: Origin, runs: seq<StageRun>, run: StageRun, retryLimit: int, costCeiling: real,
                     before: Origin, here: Origin)
    requires SoFar(m, o, runs, retryLimit, costCeiling, before) && before.first < |m.stages|
    requires ProperRun(m, run, retryLimit, costCeiling) && run.stage == m.stages[before.first]
    requires run.before == before.table && run.after == here.table
    requires here.closings == before.closings + ClosingsOf([run]) && here.read == before.read + ReadingsIn(run)
    requires here.first == before.first + if run.closed then 1 else 0
    requires here.status == StatusAfter(before.status, run.summary)
    ensures run.closed ==> SoFar(m, o, runs + [run], retryLimit, costCeiling, here)
    ensures !run.closed ==> LeftOpen(m, o, runs + [run], retryLimit, costCeiling, here)
  {
    ChainAppend(m, o.first, runs, run, o.table, retryLimit, costCeiling);
    RecordsAppend(runs, run);
    Regroup(o.closings, ClosingsOf(runs), ClosingsOf([run]));
    Regroup(o.read, AllReadings(runs), ReadingsIn(run));
  }

  /** A session stops at the first stage that does not close, and nowhere else. */
  ghost predicate SessionOf(m: Manifest, first: nat, runs: seq<StageRun>, start: Table, retryLimit: int,
                            costCeiling: real,
                            end: Table, completed: nat)
  {
    && Chain(m, first, runs, start, retryLimit, costCeiling, end)
    && if AllClosed(runs) then completed == first + |runs| == |m.stages| else completed + 1 == first + |runs|
  }

  function StatusAtEnd(m: Manifest, status: ProjectStatus, runs: seq<StageRun>, completed: nat): ProjectStatus
  {
    if m.stages == [] then status
    else if completed == |m.stages| then ProjectCompleted
    else if runs == [] then status
    else StatusAfter(status, runs[|runs| - 1].summary)
  }

  /** What a session finds: the deliverables as they are now, a status somebody may have set
      since, and its own limits. */
  datatype Visit = Visit(
    ids: seq<Id>,
    table: Table,
    status: Option<ProjectStatus>,
    retryLimit: int,
    costCeiling: real)

  /** Every deliverable is listed, and nobody but the stage loop has completed the project. */
  ghost predicate Possible(v: Visit)
  {
    Lists(v.ids, v.table) && v.status != Some(ProjectCompleted)
  }

  /** The state after a session, and what the session ran. */
  datatype Snapshot = Snapshot(rows: StageRows, completed: nat, status: ProjectStatus, table: Table,
                               runs: seq<StageRun>)

  ghost predicate VisitOf(m: Manifest, first: nat, v: Visit, s: Snapshot)
  {
    SessionOf(m, first, s.runs, v.table, v.retryLimit, v.costCeiling, s.table, s.completed)
  }

  ghost predicate Sound(m: Manifest, s: Snapshot)
  {
    && CompletedPrefix(m, s.rows, s.completed)
    && (s.status == ProjectCompleted ==>
          && s.completed == |m.stages|
          && forall i :: 0 <= i < |m.stages| ==> !RequiresEarlierValidator(m.stages[i]))
    && (s.completed == |m.stages| && m.stages != [] ==> s.status == ProjectCompleted)
  }

  ghost predicate AllSound(m: Manifest, history: seq<Snapshot>)
  {
    forall s {:trigger Sound(m, s)} :: s in history ==> Sound(m, s)
  }

  function CompletedAfter(first: nat, history: seq<Snapshot>): nat
  {
    if history == [] then first else history[|history| - 1].completed
  }

  /** Each session takes up where the completed stages of the one before end. */
  ghost predicate History(m: Manifest, first: nat, visits: seq<Visit>, history: seq<Snapshot>)
  {
    && |history| == |visits|
    && forall k {:trigger VisitAt(m, first, visits, history, k)} ::
         0 <= k < |history| ==> VisitAt(m, first, visits, history, k)
  }

  ghost predicate VisitAt(m: Manifest, first: nat, visits: seq<Visit>, history: seq<Snapshot>, k: nat)
    requires k < |history| == |visits|
  {
    VisitOf(m, CompletedAfter(first, history[..k]), visits[k], history[k])
  }

  function AllClosings(history: seq<Snapshot>): seq<Closing>
  {
    if history == [] then []
    else AllClosings(history[..|history| - 1]) + ClosingsOf(history[|history| - 1].runs)
  }

  /** From o to here these sessions have been run on these visits. */
  ghost predicate Visited(m: Manifest, o: Origin, visits: seq<Visit>, history: seq<Snapshot>, here: Origin)
  {
    && History(m, o.first, visits, history) && AllSound(m, history)
    && here.closings == o.closings + AllClosings(history) && here.read == o.read + AllRead(history)
    && here.first == CompletedAfter(o.first, history)
  }

  lemma NothingVisited(m: Manifest, o: Origin)
    ensures Visited(m, o, [], [], o)
  {
  }

  lemma VisitFollows(m: Manifest, o: Origin, visits: seq<Visit>, history: seq<Snapshot>, v: Visit, s: Snapshot,
                     before: Origin, here: Origin)
    requires Visited(m, o, visits, history, before) && VisitOf(m, before.first, v, s) && Sound(m, s)
    requires here.closings == before.closings + ClosingsOf(s.runs) && here.read == before.read + AllReadings(s.runs)
    requires here.first == s.completed
    ensures Visited(m, o, visits + [v], history + [s], here)
  {
    HistoryAppend(m, o.first, visits, history, v, s);
    Regroup(o.closings, AllClosings(history), ClosingsOf(s.runs));
    Regroup(o.read, AllRead(history), AllReadings(s.runs));
  }

  lemma HistoryAppend(m: Manifest, first: nat, visits: seq<Visit>, history: seq<Snapshot>, v: Visit, s: Snapshot)
    requires History(m, first, visits, history) && VisitOf(m, CompletedAfter(first, history), v, s)
    ensures History(m, first, visits + [v], history + [s])
    ensures AllClosings(history + [s]) == AllClosings(history) + ClosingsOf(s.runs)
    ensures AllRead(history + [s]) == AllRead(history) + AllReadings(s.runs)
  {
    var more := history + [s];
    assert more[..|history|] == history;
    forall k | 0 <= k < |more| ensures VisitAt(m, first, visits + [v], more, k) {
      if k < |history| {
        assert more[..k] == history[..k] && more[k] == history[k];
        assert VisitAt(m, first, visits, history, k);
      }
    }
  }

  predicate RequiresEarlierValidator(stage: Stage)
  {
    exists v :: v in stage.validators && v.required && (v.schedule == PerDeliverable || v.schedule == PerBatch)
  }

  /** A stage with a required per-deliverable or per-batch validator is never closed, in any
      state any number of sessions can reach, and so the project is never completed either. */
  lemma EarlierValidatorBlocksForever(loop: StageLoop, i: nat)
    requires loop.Valid() && i < |loop.manifest.stages| && RequiresEarlierValidator(loop.manifest.stages[i])
    ensures loop.completedStages <= i
    ensures !IsCompleted(loop.rows, loop.manifest.stages[i].name)
  {
    if i < loop.completedStages {
      var c := loop.closings[i];
      assert ClosedAt(loop.manifest, loop.closings, i);
      GateOpensExactly(loop.manifest, c.stage, c.statuses, c.escalations, c.results);
    }
  }

  // ----- The shipped manifest

  function AutoCodeNames(): seq<Id>
  {
    [ Id("spec_completeness"), Id("design_consistency"), Id("dependency_validation"),
      Id("lint_check"), Id("test_suite"), Id("code_review"), Id("regression_tests"),
      Id("integration_tests"), Id("architecture_conformance"), Id("final_approval"),
      Id("deliverable_status_check")]
  }

  /** The validators of app/workflows/auto-code/WORKFLOW.yaml under names n: one for each of
      the first three stages, four for build, three for integrate, one for the workflow. */
  function AutoCodeValidators(n: seq<Id>): seq<ValidatorDef>
    requires |n| == 11
  {
    [ ValidatorDef(n[0], PerStage, true), ValidatorDef(n[1], PerStage, true), ValidatorDef(n[2], PerStage, true),
      ValidatorDef(n[3], PerDeliverable, true), ValidatorDef(n[4], PerDeliverable, true),
      ValidatorDef(n[5], PerDeliverable, true), ValidatorDef(n[6], PerBatch, true),
      ValidatorDef(n[7], PerStage, true), ValidatorDef(n[8], PerStage, false), ValidatorDef(n[9], PerStage, true),
      ValidatorDef(n[10], PerStage, true)]
  }

  /** The stages of that file over its validators. */
  function FiveStages(vs: seq<ValidatorDef>): Manifest
    requires |vs| == 11
  {
    Manifest(
      [ Stage(Id("shape"), vs[0..1]), Stage(Id("design"), vs[1..2]), Stage(Id("plan"), vs[2..3]),
        Stage(Id("build"), vs[3..7]), Stage(Id("integrate"), vs[7..10])],
      vs[10..])
  }

  /** Length and first letter tell the names apart. */
  lemma AutoCodeNamesDiffer()
    ensures |AutoCodeNames()| == 11 && Distinct(AutoCodeNames())
  {
    var n := AutoCodeNames();
    var keys := [17115, 18100, 21100, 10108, 10116, 11099, 16114, 17105, 24097, 14102, 24100];
    assert forall i :: 0 <= i < |n| ==> |n[i].text| * 1000 + n[i].text[0] as int == keys[i];
    assert forall i, j :: 0 <= i < j < |keys| ==> keys[i] != keys[j];
  }

  lemma StageNamesDiffer(vs: seq<ValidatorDef>)
    requires |vs| == 11
    ensures var s := FiveStages(vs).stages;
            forall i, j :: 0 <= i < j < |s| ==> s[i].name != s[j].name
  {
    var s := FiveStages(vs).stages;
    var letters := ['s', 'd', 'p', 'b', 'i'];
    assert forall i :: 0 <= i < 5 ==> s[i].name.text != [] && s[i].name.text[0] == letters[i];
  }

  lemma OnlyThese(vs: seq<ValidatorDef>, v: ValidatorDef)
    requires |vs| == 11 && v in AllValidators(FiveStages(vs))
    ensures v in vs
  {
    var m := FiveStages(vs);
    if v !in m.validators {
      var s :| s in m.stages && v in s.validators;
    }
  }

  lemma FiveStagesValid(vs: seq<ValidatorDef>)
    requires |vs| == 11 && forall i, j :: 0 <= i < j < |vs| ==> vs[i].name != vs[j].name
    ensures ValidManifest(FiveStages(vs))
  {
    var m := FiveStages(vs);
    StageNamesDiffer(vs);
    forall v, w | v in AllValidators(m) && w in AllValidators(m) && v.name == w.name ensures v == w {
      OnlyThese(vs, v);
      OnlyThese(vs, w);
    }
  }

  lemma FourthStageStaysOpen(vs: seq<ValidatorDef>, statuses: map<Id, Status>, results: seq<Result>)
    requires |vs| == 11 && vs[3].required && vs[3].schedule == PerDeliverable
    requires ValidManifest(FiveStages(vs)) && ScheduledResults(FiveStages(vs), PerTaskgroup, results)
    ensures !GatePasses(FiveStages(vs), Some(Id("build")), Some(statuses), 0, results)
  {
    var build := FiveStages(vs).stages[3];
    assert build.validators[0] == vs[3];
    GateOpensExactly(FiveStages(vs), build, statuses, 0, results);
  }

  lemma FourthStageNeverCloses(loop: StageLoop, vs: seq<ValidatorDef>)
    requires |vs| == 11 && vs[3].required && vs[3].schedule == PerDeliverable
    requires loop.Valid() && loop.manifest == FiveStages(vs)
    ensures loop.completedStages <= 3 < |loop.manifest.stages|
  {
    assert FiveStages(vs).stages[3].validators[0] == vs[3];
    EarlierValidatorBlocksForever(loop, 3);
  }

  lemma AutoCodeIsValid(vs: seq<ValidatorDef>)
    requires vs == AutoCodeValidators(AutoCodeNames())
    ensures ValidManifest(FiveStages(vs)) && vs[3] == ValidatorDef(Id("lint_check"), PerDeliverable, true)
  {
    AutoCodeNamesDiffer();
    var n := AutoCodeNames();
    assert forall i :: 0 <= i < 11 ==> vs[i].name == n[i];
    FiveStagesValid(vs);
  }

  /** The build stage of the shipped manifest stays open even when every deliverable is
      finished, nothing is escalated and every result is a pass. */
  lemma BuildStageStaysOpen(vs: seq<ValidatorDef>, t: Table, retryLimit: int, results: seq<Result>)
    requires vs == AutoCodeValidators(AutoCodeNames())
    requires Finished(t, retryLimit)
    requires ScheduledResults(FiveStages(vs), PerTaskgroup, results) && forall r :: r in results ==> r.passed
    ensures ValidManifest(FiveStages(vs))
    ensures !GatePasses(FiveStages(vs), Some(Id("build")), Some(StatusesOf(t)), 0, results)
  {
    AutoCodeIsValid(vs);
    FourthStageStaysOpen(vs, StatusesOf(t), results);
  }

  /** So no project run from it ever completes more than its first three stages. */
  lemma AutoCodeNeverCompletes(vs: seq<ValidatorDef>, loop: StageLoop)
    requires vs == AutoCodeValidators(AutoCodeNames())
    requires loop.Valid() && loop.manifest == FiveStages(vs)
    ensures loop.completedStages <= 3 < |loop.manifest.stages|
  {
    AutoCodeIsValid(vs);
    FourthStageNeverCloses(loop, vs);
  }

  // ----- What a completed stage has gone through

  /** The stage was closed on deliverables that its own batch loop had left terminal, with
      nothing escalated. */
  ghost predicate ClosedTerminal(m: Manifest, stage: Stage, run: StageRun, retryLimit: int, costCeiling: real)
  {
    && run.stage == stage && run.closed && ProperRun(m, run, retryLimit, costCeiling)
    && !run.summary.Interrupted() && run.seen.escalations == 0
    && forall d :: d in run.after ==> Terminal(run.after[d].status)
  }

  lemma ChainLast(m: Manifest, first: nat, runs: seq<StageRun>, start: Table, retryLimit: int, costCeiling: real,
                  end: Table)
    requires Chain(m, first, runs, start, retryLimit, costCeiling, end) && runs != []
    ensures var front, last := runs[..|runs| - 1], runs[|runs| - 1];
            && first + |front| < |m.stages| && last.stage == m.stages[first + |front|]
            && ProperRun(m, last, retryLimit, costCeiling) && AllClosed(front)
            && Chain(m, first, front, start, retryLimit, costCeiling, last.before)
            && last.after == end
  {
  }

  lemma {:induction false} ChainAt(m: Manifest, first: nat, runs: seq<StageRun>, start: Table, retryLimit: int,
                                   costCeiling: real, end: Table, k: nat)
    requires Chain(m, first, runs, start, retryLimit, costCeiling, end) && k < |runs|
    ensures first + k < |m.stages| && runs[k].stage == m.stages[first + k]
    ensures ProperRun(m, runs[k], retryLimit, costCeiling)
  {
    ChainLast(m, first, runs, start, retryLimit, costCeiling, end);
    var n := |runs| - 1;
    if k < n {
      var front := runs[..n];
      assert front[k] == runs[k];
      ChainAt(m, first, front, start, retryLimit, costCeiling, runs[n].before, k);
    }
  }

  lemma {:induction false} ChainLinks(m: Manifest, first: nat, runs: seq<StageRun>, start: Table, retryLimit: int,
                                      costCeiling: real, end: Table, k: nat)
    requires Chain(m, first, runs, start, retryLimit, costCeiling, end) && k + 1 < |runs|
    ensures runs[k].closed && runs[k + 1].before == runs[k].after
  {
    ChainLast(m, first, runs, start, retryLimit, costCeiling, end);
    var n := |runs| - 1;
    var front := runs[..n];
    assert front[k] == runs[k] && front[k] in front;
    if k + 1 < n {
      assert front[k + 1] == runs[k + 1];
      ChainLinks(m, first, front, start, retryLimit, costCeiling, runs[n].before, k);
    } else {
      ChainLast(m, first, front, start, retryLimit, costCeiling, runs[n].before);
    }
  }

  lemma ClosedRunIsTerminal(m: Manifest, run: StageRun, retryLimit: int, costCeiling: real)
    requires ProperRun(m, run, retryLimit, costCeiling) && run.closed && m.stages != []
    ensures ClosedTerminal(m, run.stage, run, retryLimit, costCeiling)
  {
    forall d | d in run.after ensures Terminal(run.after[d].status) {
      assert d in StatusesOf(run.after);
    }
  }

  /** In any number of sessions, every stage that got completed was closed in one of them, by
      a run of its own batch loop that left every deliverable terminal. */
  lemma {:induction false} CompletedMeansTerminal(m: Manifest, first: nat, visits: seq<Visit>, history: seq<Snapshot>,
                                                  i: nat)
    returns (k: nat, j: nat)
    requires History(m, first, visits, history) && first <= i < CompletedAfter(first, history)
    ensures k < |history| && j < |history[k].runs| && i < |m.stages|
    ensures ClosedTerminal(m, m.stages[i], history[k].runs[j], visits[k].retryLimit, visits[k].costCeiling)
    decreases |history|
  {
    var n := |history| - 1;
    assert VisitAt(m, first, visits, history, n);
    if i < CompletedAfter(first, history[..n]) {
      HistoryFront(m, first, visits, history);
      k, j := CompletedMeansTerminal(m, first, visits[..n], history[..n], i);
    } else {
      k := n;
      j := CompletedInVisit(m, CompletedAfter(first, history[..n]), visits[n], history[n], i);
    }
  }

  lemma CompletedInVisit(m: Manifest, first: nat, v: Visit, s: Snapshot, i: nat) returns (j: nat)
    requires VisitOf(m, first, v, s) && first <= i < s.completed
    ensures j < |s.runs| && i < |m.stages|
    ensures ClosedTerminal(m, m.stages[i], s.runs[j], v.retryLimit, v.costCeiling)
  {
    j := i - first;
    ChainAt(m, first, s.runs, v.table, v.retryLimit, v.costCeiling, s.table, j);
    if j + 1 < |s.runs| { ChainLinks(m, first, s.runs, v.table, v.retryLimit, v.costCeiling, s.table, j); }
    ClosedRunIsTerminal(m, s.runs[j], v.retryLimit, v.costCeiling);
  }

  lemma HistoryFront(m: Manifest, first: nat, visits: seq<Visit>, history: seq<Snapshot>)
    requires History(m, first, visits, history) && history != []
    ensures History(m, first, visits[..|visits| - 1], history[..|history| - 1])
  {
    var front, before := history[..|history| - 1], visits[..|visits| - 1];
    forall k | 0 <= k < |front| ensures VisitAt(m, first, before, front, k) {
      assert front[..k] == history[..k] && front[k] == history[k];
      assert VisitAt(m, first, visits, history, k);
    }
  }

  /** And the other way: once nothing is outstanding and nothing escalated, a stage whose
      required validators all run per stage, or per TaskGroup and pass, does close. */
  lemma FinishedStageCloses(m: Manifest, stage: Stage, t: Table, retryLimit: int, results: seq<Result>)
    requires ValidManifest(m) && stage in m.stages && ScheduledResults(m, PerTaskgroup, results)
    requires Finished(t, retryLimit)
    requires forall v :: v in stage.validators && v.required ==>
               v.schedule == PerStage || (v.schedule == PerTaskgroup && LastSays(results, v.name, true))
    ensures GatePasses(m, Some(stage.name), Some(StatusesOf(t)), 0, results)
  {
    GateOpensExactly(m, stage, StatusesOf(t), 0, results);
  }
}
