/** Pausing and resuming projects: the lifecycle operations, each taken as one step, among
    the other steps that change a project's status. */
module Lifecycle {
  import opened Ids
  import opened Deliverables
  import opened Dependents
  import opened Scheduler
  import opened Completion

  const DIRECTOR_PAUSE := "director_pause"

  datatype Job = Job(project: Id, resolution: Option<string>)

  /** Project rows in creation order, pause flags, the Director's own flag, the queue of
      work sessions, and the deliverables of each project. */
  datatype World = World(
    projects: seq<Id>,
    status: map<Id, ProjectStatus>,
    flags: map<Id, string>,
    director: Option<string>,
    queue: seq<Job>,
    tables: map<Id, Table>)

  ghost predicate Valid(w: World)
  {
    Distinct(w.projects) && forall p :: p in w.projects <==> p in w.status
  }

  datatype Operation =
    // app/workers/lifecycle.py
    | PauseProject(project: Id, reason: Option<string>)
    | ResumeProject(project: Id, resolution: Option<string>)
    | AbortProject(project: Id)
    | PauseDirector(reason: Option<string>)
    | ResumeDirector
    | PauseAllProjects(reason: Option<string>)
    | ResumeAllProjects
    | ApplyResolution(project: Id)
    // elsewhere
    | OverridePause(project: Id)
    | OverrideResume(project: Id)
    | Suspend(project: Id)
    | Activate(project: Id)
    | Complete(project: Id)
    | FlagExpires(project: Id)
    | ResolveApproval(project: Id, resolution: Option<string>)

  /** `reason or default`: an empty reason counts as none. */
  function ReasonOr(reason: Option<string>, default: string): string
  {
    if reason.Some? && reason.value != "" then reason.value else default
  }

  function With(w: World, s: ProjectStatus): set<Id>
  {
    set p | p in w.status && w.status[p] == s
  }

  function DirectorFlagged(w: World): set<Id>
  {
    set p | p in w.flags && w.flags[p] == DIRECTOR_PAUSE
  }

  predicate Is(w: World, p: Id, s: ProjectStatus)
  {
    p in w.status && w.status[p] == s
  }

  predicate Over(s: ProjectStatus)
  {
    s == ProjectCompleted || s == Aborted
  }

  /** Give every project of a set one status. */
  function SetStatus(w: World, ps: set<Id>, s: ProjectStatus): map<Id, ProjectStatus>
  {
    map p | p in w.status :: if p in ps then s else w.status[p]
  }

  /** Give every project of a set one pause flag. */
  function SetFlags(flags: map<Id, string>, ps: set<Id>, value: string): map<Id, string>
  {
    map p | p in flags.Keys + ps :: if p in ps then value else flags[p]
  }

  function Selected(projects: seq<Id>, ps: set<Id>): (r: seq<Id>)
    ensures forall p :: p in r <==> p in projects && p in ps
    ensures Distinct(projects) ==> Distinct(r)
  {
    if projects == [] then []
    else
      var r := Selected(projects[1..], ps);
      assert projects == [projects[0]] + projects[1..];
      DistinctCons(projects);
      if projects[0] in ps then
        DistinctCons([projects[0]] + r);
        [projects[0]] + r
      else r
  }

  /** The projects with one status, in row order. */
  function Query(w: World, s: ProjectStatus): (found: seq<Id>)
    requires Valid(w)
    ensures Distinct(found) && Elems(found) == With(w, s)
  {
    Selected(w.projects, With(w, s))
  }

  function Sessions(ps: seq<Id>): (r: seq<Job>)
    ensures |r| == |ps| && forall i :: 0 <= i < |ps| ==> r[i] == Job(ps[i], None)
  {
    seq(|ps|, i requires 0 <= i < |ps| => Job(ps[i], None))
  }

  /** Failed deliverables become pending again, with all their retries. */
  function Retried(t: Table): Table
  {
    map d | d in t :: if t[d].status == Failed then t[d].(status := Pending, retryCount := 0) else t[d]
  }

  /** The whole new state each operation leaves. */
  function Next(w: World, op: Operation): World
  {
    match op
    case PauseProject(p, reason) =>
      if !Is(w, p, Active) then w
      else w.(status := w.status[p := Paused], flags := w.flags[p := ReasonOr(reason, "user_initiated")])
    case ResumeProject(p, resolution) =>
      if !Is(w, p, Paused) then w
      else
        w.(status := w.status[p := Active], flags := w.flags - {p},
           queue := w.queue + [Job(p, if resolution == Some("") then None else resolution)])
    case AbortProject(p) =>
      if p !in w.status || Over(w.status[p]) then w else w.(status := w.status[p := Aborted])
    case PauseDirector(reason) =>
      w.(director := Some(ReasonOr(reason, "user_initiated")),
         flags := SetFlags(w.flags, With(w, Active), DIRECTOR_PAUSE))
    case ResumeDirector =>
      var resumed := With(w, Paused) * DirectorFlagged(w);
      w.(director := None, status := SetStatus(w, resumed, Active),
         flags := w.flags - (DirectorFlagged(w) * (With(w, Paused) + With(w, Active))),
         queue := w.queue + Sessions(Selected(w.projects, resumed)))
    case PauseAllProjects(reason) =>
      w.(status := SetStatus(w, With(w, Active), Paused),
         flags := SetFlags(w.flags, With(w, Active), ReasonOr(reason, "system_pause")))
    case ResumeAllProjects =>
      w.(status := SetStatus(w, With(w, Paused), Active), flags := w.flags - With(w, Paused),
         queue := w.queue + Sessions(Selected(w.projects, With(w, Paused))))
    case ApplyResolution(p) =>
      if p !in w.status then w
      else
        w.(status := if w.status[p] == Suspended then w.status[p := Active] else w.status,
           tables := if p in w.tables then w.tables[p := Retried(w.tables[p])] else w.tables,
           queue := w.queue + [Job(p, None)])
    case OverridePause(p) => if Is(w, p, Active) then w.(status := w.status[p := Paused]) else w
    case OverrideResume(p) => if Is(w, p, Paused) then w.(status := w.status[p := Active]) else w
    case Suspend(p) => if p in w.status && !Over(w.status[p]) then w.(status := w.status[p := Suspended]) else w
    case Activate(p) =>
      if Is(w, p, Shaping) then w.(status := w.status[p := Active], queue := w.queue + [Job(p, None)]) else w
    case Complete(p) => if p in w.status then w.(status := w.status[p := ProjectCompleted]) else w
    case FlagExpires(p) => w.(flags := w.flags - {p})
    case ResolveApproval(p, resolution) => w.(queue := w.queue + [Job(p, resolution)])
  }

  predicate InLifecycleFile(op: Operation)
  {
    || op.PauseProject? || op.ResumeProject? || op.AbortProject? || op.PauseDirector? || op.ResumeDirector?
    || op.PauseAllProjects? || op.ResumeAllProjects? || op.ApplyResolution?
  }

  // ----- The operations, step by step

  class Service {
    var world: World

    constructor (world: World)
      ensures this.world == world
    {
      this.world := world;
    }

    method PauseProjectTask(p: Id, reason: Option<string>) returns (ok: bool)
      modifies this
      ensures world == Next(old(world), PauseProject(p, reason)) && OthersUntouched(old(world), world, p)
      ensures ok <==> Is(old(world), p, Active)
      ensures world.queue == old(world).queue && world.tables == old(world).tables
      ensures ok ==> p in world.flags && Explains(world.flags[p], reason, "user_initiated")
      ensures !ok ==> world == old(world)
      ensures ok && Honest(PauseProject(p, reason)) ==> PausedByUser(world, p)
    {
      if p !in world.status || world.status[p] != Active {
        return false;
      }
      world := world.(status := world.status[p := Paused]);
      world := world.(flags := world.flags[p := ReasonOr(reason, "user_initiated")]);
      ok := true;
    }

    method ResumeProjectTask(p: Id, resolution: Option<string>) returns (ok: bool)
      modifies this
      ensures world == Next(old(world), ResumeProject(p, resolution)) && OthersUntouched(old(world), world, p)
      ensures ok <==> Is(old(world), p, Paused)
      ensures ok ==> Is(world, p, Active) && p !in world.flags
      ensures if ok then OneSessionMore(old(world), world, p) else world == old(world)
      ensures ok ==> world.queue[|old(world).queue|].resolution ==
                     if resolution.None? || resolution.value == "" then None else resolution
      ensures world.tables == old(world).tables
    {
      if p !in world.status || world.status[p] != Paused {
        return false;
      }
      world := world.(status := world.status[p := Active]);
      world := world.(flags := world.flags - {p});
      if resolution.Some? && resolution.value != "" {
        world := world.(queue := world.queue + [Job(p, resolution)]);
      } else {
        world := world.(queue := world.queue + [Job(p, None)]);
      }
      ok := true;
    }

    method AbortProjectTask(p: Id) returns (ok: bool)
      modifies this
      ensures world == Next(old(world), AbortProject(p)) && OthersUntouched(old(world), world, p)
      ensures ok <==> p in old(world).status && !Over(old(world).status[p])
      ensures p in world.status ==> world.status[p] == if ok then Aborted else old(world).status[p]
      ensures !ok && p in world.status ==> world.status[p] == ProjectCompleted || world.status[p] == Aborted
      ensures world.flags == old(world).flags
      ensures world.queue == old(world).queue && world.tables == old(world).tables
    {
      if p !in world.status || Over(world.status[p]) {
        return false;
      }
      world := world.(status := world.status[p := Aborted]);
      ok := true;
    }

    method SetFlag(ps: seq<Id>, value: string)
      modifies this
      ensures world == old(world).(flags := SetFlags(old(world).flags, Elems(ps), value))
    {
      ghost var before := world;
      assert SetFlags(world.flags, {}, value) == world.flags;
      for i := 0 to |ps|
        invariant world == before.(flags := SetFlags(before.flags, Elems(ps[..i]), value))
      {
        assert Elems(ps[..i + 1]) == Elems(ps[..i]) + {ps[i]};
        FlagOneMore(before.flags, Elems(ps[..i]), ps[i], value);
        world := world.(flags := world.flags[ps[i] := value]);
      }
      assert ps[..|ps|] == ps;
    }

    method AssignStatus(ps: seq<Id>, s: ProjectStatus)
      requires forall p :: p in ps ==> p in world.status
      modifies this
      ensures world == old(world).(status := SetStatus(old(world), Elems(ps), s))
    {
      ghost var before := world;
      assert world.status == SetStatus(before, {}, s);
      for i := 0 to |ps|
        invariant world == before.(status := SetStatus(before, Elems(ps[..i]), s))
      {
        assert Elems(ps[..i + 1]) == Elems(ps[..i]) + {ps[i]};
        AssignOneMore(before, Elems(ps[..i]), ps[i], s);
        world := world.(status := world.status[ps[i] := s]);
      }
      assert ps[..|ps|] == ps;
    }

    /** Drop the flag of each project and enqueue one session for it. */
    method ClearAndEnqueue(ps: seq<Id>)
      modifies this
      ensures world == old(world).(flags := old(world).flags - Elems(ps), queue := old(world).queue + Sessions(ps))
    {
      ghost var before := world;
      assert before.queue + Sessions([]) == before.queue;
      for i := 0 to |ps|
        invariant world == before.(flags := before.flags - Elems(ps[..i]), queue := before.queue + Sessions(ps[..i]))
      {
        assert Elems(ps[..i + 1]) == Elems(ps[..i]) + {ps[i]};
        assert Sessions(ps[..i + 1]) == Sessions(ps[..i]) + [Job(ps[i], None)];
        world := world.(flags := world.flags - {ps[i]}, queue := world.queue + [Job(ps[i], None)]);
      }
      assert ps[..|ps|] == ps;
    }

    method PauseDirectorTask(reason: Option<string>) returns (flagged: seq<Id>)
      requires Valid(world)
      modifies this
      ensures world == Next(old(world), PauseDirector(reason))
      ensures forall p :: p in flagged <==> Is(old(world), p, Active)
    {
      world := world.(director := Some(ReasonOr(reason, "user_initiated")));
      flagged := Query(world, Active);
      SetFlag(flagged, DIRECTOR_PAUSE);
    }

    method PauseAllProjectsTask(reason: Option<string>) returns (paused: seq<Id>)
      requires Valid(world)
      modifies this
      ensures world == Next(old(world), PauseAllProjects(reason))
      ensures forall p :: p in paused <==> Is(old(world), p, Active)
    {
      paused := Query(world, Active);
      AssignStatus(paused, Paused);
      SetFlag(paused, ReasonOr(reason, "system_pause"));
    }

    method ResumeAllProjectsTask() returns (resumed: seq<Id>)
      requires Valid(world)
      modifies this
      ensures world == Next(old(world), ResumeAllProjects)
      ensures forall p :: p in resumed <==> Is(old(world), p, Paused)
    {
      resumed := Query(world, Paused);
      AssignStatus(resumed, Active);
      ClearAndEnqueue(resumed);
    }

    /** Only paused projects whose flag is the Director's are resumed; then the Director's
        flags of active projects are cleared as well. */
    method ResumeDirectorTask() returns (resumed: seq<Id>)
      requires Valid(world)
      modifies this
      ensures world == Next(old(world), ResumeDirector)
      ensures forall p :: p in resumed <==> p in With(old(world), Paused) * DirectorFlagged(old(world))
    {
      ghost var before := world;
      world := world.(director := None);
      var paused := Query(world, Paused);
      resumed := Selected(paused, DirectorFlagged(world));
      SelectedTwice(world.projects, With(world, Paused), DirectorFlagged(world));
      assert Elems(resumed) == With(world, Paused) * DirectorFlagged(world);
      AssignStatus(resumed, Active);
      ClearAndEnqueue(resumed);
      ghost var reactivated := world;
      var active := Query(world, Active);
      ClearDirectorFlags(active);
      FlagsCleared(before, reactivated, world.flags);
    }

    method ClearDirectorFlags(ps: seq<Id>)
      modifies this
      ensures world == old(world).(flags := old(world).flags - (Elems(ps) * DirectorFlagged(old(world))))
    {
      ghost var before := world;
      assert before.flags - (Elems([]) * DirectorFlagged(before)) == before.flags;
      for i := 0 to |ps|
        invariant world == before.(flags := before.flags - (Elems(ps[..i]) * DirectorFlagged(before)))
      {
        assert Elems(ps[..i + 1]) == Elems(ps[..i]) + {ps[i]};
        if ps[i] in world.flags && world.flags[ps[i]] == DIRECTOR_PAUSE {
          world := world.(flags := world.flags - {ps[i]});
        }
        assert world.flags == before.flags - (Elems(ps[..i + 1]) * DirectorFlagged(before));
      }
      assert ps[..|ps|] == ps;
    }

    /** The failed deliverables are pending again, with all their retries. */
    method RetryFailed(ids: seq<Id>, t: Table) returns (t': Table, retried: seq<Id>)
      requires Lists(ids, t)
      ensures t' == Retried(t)
      ensures Distinct(retried) && forall d :: d in retried <==> d in t && t[d].status == Failed
    {
      var failed := Selected(ids, set d | d in t && t[d].status == Failed);
      t', retried := t, [];
      for i := 0 to |failed|
        invariant t' == RetriedAmong(t, failed[..i]) && retried == failed[..i]
      {
        assert failed[..i + 1] == failed[..i] + [failed[i]];
        RetriedOneMore(t, failed[..i], failed[i]);
        t' := t'[failed[i] := t'[failed[i]].(status := Pending, retryCount := 0)];
        retried := retried + [failed[i]];
      }
      assert failed[..|failed|] == failed;
    }

    /** A suspended project becomes active; none of its deliverables stays failed, each that
        was has all its retries again and is named in the answer; one session is enqueued. */
    method ApplyResolutionToProject(p: Id, ids: seq<Id>) returns (ok: bool, retried: seq<Id>)
      requires p in world.tables ==> Lists(ids, world.tables[p])
      modifies this
      ensures world == Next(old(world), ApplyResolution(p)) && OthersUntouched(old(world), world, p)
      ensures ok <==> p in old(world).status
      ensures if ok then OneSessionMore(old(world), world, p) else world == old(world)
      ensures ok && p in world.tables ==>
                forall d :: d in retried <==> d in world.tables[p] && old(world).tables[p][d].status == Failed
      ensures ok && p in world.tables ==>
                forall d :: d in world.tables[p] ==> world.tables[p][d].status != Failed
      ensures ok ==> world.status[p] == if old(world).status[p] == Suspended then Active else old(world).status[p]
      ensures world.flags == old(world).flags
    {
      retried := [];
      if p !in world.status {
        return false, [];
      }
      if world.status[p] == Suspended {
        world := world.(status := world.status[p := Active]);
      }
      if p in world.tables {
        var t;
        t, retried := RetryFailed(ids, world.tables[p]);
        world := world.(tables := world.tables[p := t]);
      }
      world := world.(queue := world.queue + [Job(p, None)]);
      ok := true;
    }

    /** One job of the worker, or a step taken elsewhere. */
    method Perform(op: Operation)
      requires Valid(world)
      modifies this
      ensures Valid(world) && world == Next(old(world), op)
    {
      ValidAfter(world, op);
      match op {
        case PauseProject(p, reason) => var _ := PauseProjectTask(p, reason);
        case ResumeProject(p, resolution) => var _ := ResumeProjectTask(p, resolution);
        case AbortProject(p) => var _ := AbortProjectTask(p);
        case PauseDirector(reason) => var _ := PauseDirectorTask(reason);
        case ResumeDirector => var _ := ResumeDirectorTask();
        case PauseAllProjects(reason) => var _ := PauseAllProjectsTask(reason);
        case ResumeAllProjects => var _ := ResumeAllProjectsTask();
        case ApplyResolution(p) =>
          var ids := ListSorted(if p in world.tables then (set d | d in world.tables[p]) else {});
          var _, _ := ApplyResolutionToProject(p, ids);
        case _ => world := Next(world, op);
      }
    }

    /** The worker performs its jobs one after another, so that what holds of every run of the
        one-step descriptions holds of the tasks. */
    method Serve(ops: seq<Operation>)
      requires Valid(world)
      modifies this
      ensures Valid(world) && world == Run(old(world), ops)
    {
      for i := 0 to |ops|
        invariant Valid(world) && Run(world, ops[i..]) == Run(old(world), ops)
      {
        assert ops[i..][0] == ops[i] && ops[i..][1..] == ops[i + 1..];
        Perform(ops[i]);
      }
    }
  }

  function RetriedAmong(t: Table, ids: seq<Id>): Table
  {
    map d | d in t :: if d in ids then t[d].(status := Pending, retryCount := 0) else t[d]
  }

  lemma RetriedOneMore(t: Table, ids: seq<Id>, d: Id)
    requires d in t
    ensures d in RetriedAmong(t, ids)
    ensures var t' := RetriedAmong(t, ids);
            RetriedAmong(t, ids + [d]) == t'[d := t'[d].(status := Pending, retryCount := 0)]
  {
  }

  // ----- What one project's operation leaves alone

  ghost predicate OthersUntouched(w: World, w': World, p: Id)
  {
    && w'.projects == w.projects && w'.director == w.director && w'.status.Keys == w.status.Keys
    && (forall q :: q in w.status && q != p ==> w'.status[q] == w.status[q])
    && (forall q :: q != p ==> (q in w'.flags <==> q in w.flags))
    && (forall q :: q in w.flags && q != p ==> w'.flags[q] == w.flags[q])
    && w'.tables.Keys == w.tables.Keys
    && (forall q :: q in w.tables && q != p ==> w'.tables[q] == w.tables[q])
    && w.queue <= w'.queue
  }

  ghost predicate OneSessionMore(w: World, w': World, p: Id)
  {
    |w'.queue| == |w.queue| + 1 && w.queue <= w'.queue && w'.queue[|w.queue|].project == p
  }

  /** Paused, and not flagged in a way the Director would undo. */
  ghost predicate PausedByUser(w: World, p: Id)
  {
    Is(w, p, Paused) && p !in DirectorFlagged(w)
  }

  /** The operations that move a paused project out of that state by what they are for. */
  predicate Moves(op: Operation, p: Id)
  {
    match op
    case ResumeProject(q, _) => q == p
    case AbortProject(q) => q == p
    case OverrideResume(q) => q == p
    case Suspend(q) => q == p
    case Complete(q) => q == p
    case ResumeAllProjects => true
    case _ => false
  }

  function JobsOf(queue: seq<Job>, p: Id): nat
  {
    if queue == [] then 0
    else JobsOf(queue[..|queue| - 1], p) + if queue[|queue| - 1].project == p then 1 else 0
  }

  /** The steps that ask for a session of a paused project: a resolution applied to it, or an
      approval item of it resolved. */
  predicate Asks(op: Operation, p: Id)
  {
    op == ApplyResolution(p) || (op.ResolveApproval? && op.project == p)
  }

  function Asked(ops: seq<Operation>, p: Id): nat
  {
    if ops == [] then 0 else (if Asks(ops[0], p) then 1 else 0) + Asked(ops[1..], p)
  }

  /** After a successful pause the project stays paused through everything that happens to
      other projects and to the Director, until somebody moves it out of that state; and the
      sessions enqueued for it are as many as were asked for by resolving its queue items. */
  lemma {:induction false} PauseLasts(w: World, ops: seq<Operation>, p: Id)
    requires PausedByUser(w, p) && forall op :: op in ops ==> Honest(op) && !Moves(op, p)
    ensures PausedByUser(Run(w, ops), p)
    ensures JobsOf(Run(w, ops).queue, p) == JobsOf(w.queue, p) + Asked(ops, p)
    decreases |ops|
  {
    if ops != [] {
      StaysPaused(w, ops[0], p);
      SessionsAsked(w, ops[0], p);
      PauseLasts(Next(w, ops[0]), ops[1..], p);
    }
  }

  lemma StaysPaused(w: World, op: Operation, p: Id)
    requires PausedByUser(w, p) && Honest(op) && !Moves(op, p)
    ensures PausedByUser(Next(w, op), p)
  {
  }

  lemma SessionsAsked(w: World, op: Operation, p: Id)
    requires PausedByUser(w, p) && !Moves(op, p)
    ensures JobsOf(Next(w, op).queue, p) == JobsOf(w.queue, p) + if Asks(op, p) then 1 else 0
  {
    match op {
      case ResumeProject(q, resolution) =>
        JobsAppend(w.queue, Job(q, if resolution == Some("") then None else resolution), p);
      case ResumeDirector =>
        NoJobAmong(w.queue, Selected(w.projects, With(w, Paused) * DirectorFlagged(w)), p);
      case ApplyResolution(q) => JobsAppend(w.queue, Job(q, None), p);
      case Activate(q) => JobsAppend(w.queue, Job(q, None), p);
      case ResolveApproval(q, resolution) => JobsAppend(w.queue, Job(q, resolution), p);
      case _ =>
    }
  }

  lemma JobsAppend(queue: seq<Job>, job: Job, p: Id)
    ensures JobsOf(queue + [job], p) == JobsOf(queue, p) + if job.project == p then 1 else 0
  {
    assert (queue + [job])[..|queue|] == queue;
  }

  lemma {:induction false} NoJobAmong(queue: seq<Job>, ps: seq<Id>, p: Id)
    requires p !in ps
    ensures JobsOf(queue + Sessions(ps), p) == JobsOf(queue, p)
  {
    if ps == [] {
      assert queue + Sessions(ps) == queue;
    } else {
      var n := |ps| - 1;
      var all := queue + Sessions(ps);
      assert all[..|all| - 1] == queue + Sessions(ps[..n]);
      NoJobAmong(queue, ps[..n], p);
    }
  }

  /** Pausing and resuming a project gives back its status, costs it its flag and starts one
      session with the resolution handed in. */
  lemma PauseThenResume(w: World, p: Id, reason: Option<string>, resolution: Option<string>)
    requires Is(w, p, Active)
    ensures Run(w, [PauseProject(p, reason), ResumeProject(p, resolution)]) ==
            w.(flags := w.flags - {p},
               queue := w.queue + [Job(p, if resolution == Some("") then None else resolution)])
  {
    var pause, resume := PauseProject(p, reason), ResumeProject(p, resolution);
    RunTwo(w, pause, resume);
    assert w.status[p := Paused][p := Active] == w.status;
    assert w.flags[p := ReasonOr(reason, "user_initiated")] - {p} == w.flags - {p};
  }

  /** An aborted project is never heard of again: whatever the operations of the file do, its
      status stays. */
  lemma AbortIsFinal(w: World, p: Id, ops: seq<Operation>)
    requires p in w.status && !Over(w.status[p]) && forall op :: op in ops ==> op != Complete(p)
    ensures Is(Run(Next(w, AbortProject(p)), ops), p, Aborted)
  {
    StaysAborted(Next(w, AbortProject(p)), p, ops);
  }

  lemma {:induction false} StaysAborted(w: World, p: Id, ops: seq<Operation>)
    requires Is(w, p, Aborted) && forall op :: op in ops ==> op != Complete(p)
    ensures Is(Run(w, ops), p, Aborted)
    decreases |ops|
  {
    if ops != [] {
      assert ops[0] in ops && forall op :: op in ops[1..] ==> op in ops;
      StaysAborted(Next(w, ops[0]), p, ops[1..]);
    }
  }

  /** After a resolution the batch loop can go on from the project's table as it can from any
      table it left: each deliverable that had failed can be attempted retryLimit + 1 times
      again, and nothing else has changed. */
  lemma ResolutionIsResumable(w: World, p: Id, retryLimit: nat)
    requires p in w.status && p in w.tables && Resumable(w.tables[p], retryLimit)
    ensures var t, t' := w.tables[p], Next(w, ApplyResolution(p)).tables[p];
            && Resumable(t', retryLimit) && SameProject(t, t') && KeepsSatisfied(t, t')
            && forall d :: d in t ==>
                 if t[d].status == Failed then
                   t'[d].status == Pending && t'[d].retryCount == 0 && Left(t'[d], retryLimit) == retryLimit + 1
                 else t'[d] == t[d]
  {
  }

  lemma FlagOneMore(flags: map<Id, string>, ps: set<Id>, p: Id, value: string)
    ensures SetFlags(flags, ps, value)[p := value] == SetFlags(flags, ps + {p}, value)
  {
  }

  lemma AssignOneMore(w: World, ps: set<Id>, p: Id, s: ProjectStatus)
    requires p in w.status
    ensures SetStatus(w, ps, s)[p := s] == SetStatus(w, ps + {p}, s)
  {
  }

  /** Clearing the flags of the resumed and then the Director's flags of the active projects. */
  lemma FlagsCleared(before: World, middle: World, flags: map<Id, string>)
    requires var resumed := With(before, Paused) * DirectorFlagged(before);
             && middle.status == SetStatus(before, resumed, Active)
             && middle.flags == before.flags - resumed
             && flags == middle.flags - (With(middle, Active) * DirectorFlagged(middle))
    ensures flags == before.flags - (DirectorFlagged(before) * (With(before, Paused) + With(before, Active)))
  {
  }

  lemma {:induction false} SelectedTwice(projects: seq<Id>, a: set<Id>, b: set<Id>)
    ensures Selected(Selected(projects, a), b) == Selected(projects, a * b)
  {
    if projects != [] {
      SelectedTwice(projects[1..], a, b);
      if projects[0] in a {
        var r := Selected(projects[1..], a);
        assert ([projects[0]] + r)[1..] == r;
      }
    }
  }

  // ----- The operations, project by project

  /** The reason given, or the default when there is none or it is empty. */
  ghost predicate Explains(text: string, reason: Option<string>, default: string)
  {
    if reason.None? || reason == Some("") then text == default else Some(text) == reason
  }

  /** One position comes before the other among the rows. */
  ghost predicate RowsBefore(projects: seq<Id>, p: Id, q: Id)
  {
    exists a, b :: 0 <= a < b < |projects| && projects[a] == p && projects[b] == q
  }

  ghost predicate InRowOrder(projects: seq<Id>, s: seq<Id>)
  {
    forall i, j {:trigger RowsBefore(projects, s[i], s[j])} :: 0 <= i < j < |s| ==> RowsBefore(projects, s[i], s[j])
  }

  lemma RowsBeforeInRest(projects: seq<Id>, p: Id, q: Id)
    requires projects != []
    ensures RowsBefore(projects[1..], p, q) ==> RowsBefore(projects, p, q)
    ensures p == projects[0] && q in projects[1..] ==> RowsBefore(projects, p, q)
  {
    var rest := projects[1..];
    if RowsBefore(rest, p, q) {
      var a, b :| 0 <= a < b < |rest| && rest[a] == p && rest[b] == q;
      assert projects[a + 1] == p && projects[b + 1] == q;
    }
    if p == projects[0] && q in rest {
      var b :| 0 <= b < |rest| && rest[b] == q;
      assert projects[b + 1] == q;
    }
  }

  lemma {:induction false} SelectedInOrder(projects: seq<Id>, ps: set<Id>)
    ensures InRowOrder(projects, Selected(projects, ps))
  {
    if projects != [] {
      var rest := projects[1..];
      var t := Selected(rest, ps);
      SelectedInOrder(rest, ps);
      var r := if projects[0] in ps then [projects[0]] + t else t;
      var shift := |r| - |t|;
      forall i, j | 0 <= i < j < |r| ensures RowsBefore(projects, r[i], r[j]) {
        RowsBeforeInRest(projects, r[i], r[j]);
        assert r[j] == t[j - shift] && t[j - shift] in t;
        if i >= shift { assert RowsBefore(rest, t[i - shift], t[j - shift]); }
      }
    }
  }

  /** Pausing the Director flags exactly the active projects and does nothing else to any. */
  lemma DirectorPaused(w: World, reason: Option<string>)
    ensures var w' := Next(w, PauseDirector(reason));
            && w'.status == w.status && w'.queue == w.queue && w'.tables == w.tables && w'.projects == w.projects
            && w'.director.Some? && Explains(w'.director.value, reason, "user_initiated")
            && (forall p :: Is(w, p, Active) ==> p in w'.flags && w'.flags[p] == "director_pause")
            && (forall p :: !Is(w, p, Active) ==> (p in w'.flags <==> p in w.flags))
            && (forall p :: !Is(w, p, Active) && p in w.flags ==> w'.flags[p] == w.flags[p])
  {
  }

  /** Pausing all projects pauses and flags exactly the active ones. */
  lemma AllPaused(w: World, reason: Option<string>)
    ensures var w' := Next(w, PauseAllProjects(reason));
            && w'.queue == w.queue && w'.tables == w.tables && w'.projects == w.projects && w'.director == w.director
            && w'.status.Keys == w.status.Keys
            && (forall p :: p in w.status ==> w'.status[p] == if w.status[p] == Active then Paused else w.status[p])
            && (forall p :: Is(w, p, Active) ==> p in w'.flags && Explains(w'.flags[p], reason, "system_pause"))
            && (forall p :: !Is(w, p, Active) ==> (p in w'.flags <==> p in w.flags))
            && (forall p :: !Is(w, p, Active) && p in w.flags ==> w'.flags[p] == w.flags[p])
  {
  }

  /** Resuming all projects makes exactly the paused ones active, drops their flags, and
      enqueues one session for each, in row order. */
  lemma AllResumed(w: World)
    requires Valid(w)
    ensures var w' := Next(w, ResumeAllProjects);
            && w'.tables == w.tables && w'.projects == w.projects && w'.director == w.director
            && w'.status.Keys == w.status.Keys
            && (forall p :: p in w.status ==> w'.status[p] == if w.status[p] == Paused then Active else w.status[p])
            && (forall p :: p in w'.flags <==> p in w.flags && !Is(w, p, Paused))
            && (forall p :: p in w'.flags ==> w'.flags[p] == w.flags[p])
            && Enqueues(w, w', With(w, Paused))
  {
    SessionsEnqueued(w, With(w, Paused));
  }

  /** One session for each of the projects, in row order, behind what was queued. */
  ghost predicate Enqueues(w: World, w': World, ps: set<Id>)
  {
    && w.queue <= w'.queue
    && (forall i :: |w.queue| <= i < |w'.queue| ==> w'.queue[i] == Job(w'.queue[i].project, None))
    && (forall p :: p in ps <==> exists i :: |w.queue| <= i < |w'.queue| && w'.queue[i].project == p)
    && forall i, j {:trigger RowsBefore(w.projects, w'.queue[i].project, w'.queue[j].project)} ::
         |w.queue| <= i < j < |w'.queue| ==> RowsBefore(w.projects, w'.queue[i].project, w'.queue[j].project)
  }

  lemma SessionsEnqueued(w: World, ps: set<Id>)
    requires Valid(w) && ps <= w.status.Keys
    ensures Enqueues(w, w.(queue := w.queue + Sessions(Selected(w.projects, ps))), ps)
  {
    var r := Selected(w.projects, ps);
    var queue := w.queue + Sessions(r);
    assert |queue| == |w.queue| + |r|;
    SelectedInOrder(w.projects, ps);
    forall p | p in ps ensures exists i :: |w.queue| <= i < |queue| && queue[i].project == p {
      assert p in r;
      var i :| 0 <= i < |r| && r[i] == p;
      assert queue[|w.queue| + i].project == p;
    }
    forall i | |w.queue| <= i < |queue| ensures queue[i] == Job(r[i - |w.queue|], None) && queue[i].project in ps {
      assert r[i - |w.queue|] in r;
    }
    forall i, j | |w.queue| <= i < j < |queue| ensures RowsBefore(w.projects, queue[i].project, queue[j].project) {
      assert RowsBefore(w.projects, r[i - |w.queue|], r[j - |w.queue|]);
    }
  }

  // ----- Who paused a project

  /** The step that put a paused project into that state. */
  datatype PausedBy = ByPause | ByOverride

  type History = map<Id, PausedBy>

  /** History only watches: it records which step made each paused project paused. */
  ghost function Watch(w: World, h: History, op: Operation): History
  {
    var w' := Next(w, op);
    map p | p in w'.status && w'.status[p] == Paused ::
      if Is(w, p, Paused) && p in h then h[p]
      else if op.OverridePause? then ByOverride
      else ByPause
  }

  /** No reason handed in by a user is the Director's own marker. */
  predicate Honest(op: Operation)
  {
    && (op.PauseProject? || op.PauseAllProjects? ==> op.reason != Some(DIRECTOR_PAUSE))
  }

  /** A project paused by pause_project or pause_all_projects never carries the Director's flag. */
  ghost predicate FlagsTellWho(w: World, h: History)
  {
    && (forall p :: p in h <==> Is(w, p, Paused))
    && forall p :: p in h && h[p] == ByPause ==> p !in DirectorFlagged(w)
  }

  lemma ValidAfter(w: World, op: Operation)
    requires Valid(w)
    ensures Valid(Next(w, op)) && Next(w, op).projects == w.projects
  {
  }

  lemma StepKeepsFlags(w: World, h: History, op: Operation)
    requires FlagsTellWho(w, h) && Honest(op)
    ensures FlagsTellWho(Next(w, op), Watch(w, h, op))
  {
  }

  ghost function Run(w: World, ops: seq<Operation>): World
    decreases |ops|
  {
    if ops == [] then w else Run(Next(w, ops[0]), ops[1..])
  }

  ghost function RunHistory(w: World, h: History, ops: seq<Operation>): History
    decreases |ops|
  {
    if ops == [] then h else RunHistory(Next(w, ops[0]), Watch(w, h, ops[0]), ops[1..])
  }

  lemma {:induction false} RunsKeepFlags(w: World, h: History, ops: seq<Operation>)
    requires FlagsTellWho(w, h) && forall op :: op in ops ==> Honest(op)
    ensures FlagsTellWho(Run(w, ops), RunHistory(w, h, ops))
    decreases |ops|
  {
    if ops != [] {
      StepKeepsFlags(w, h, ops[0]);
      RunsKeepFlags(Next(w, ops[0]), Watch(w, h, ops[0]), ops[1..]);
    }
  }

  /** In every run, resuming the Director never reactivates a project that was paused by
      pause_project or pause_all_projects. */
  lemma DirectorRespectsPauses(w: World, h: History, ops: seq<Operation>, p: Id)
    requires FlagsTellWho(w, h) && forall op :: op in ops ==> Honest(op)
    requires p in RunHistory(w, h, ops) && RunHistory(w, h, ops)[p] == ByPause
    ensures var now := Run(w, ops);
            Is(now, p, Paused) && Is(Next(now, ResumeDirector), p, Paused)
  {
    RunsKeepFlags(w, h, ops);
  }

  /** So the only projects it can reactivate are those paused by an override while flagged;
      as long as nobody overrides, it reactivates nothing at all. */
  lemma {:induction false} WithoutOverrideNothingResumes(w: World, ops: seq<Operation>)
    requires With(w, Paused) * DirectorFlagged(w) == {}
    requires forall op :: op in ops ==> Honest(op) && !op.OverridePause?
    ensures var now := Run(w, ops);
            && With(now, Paused) * DirectorFlagged(now) == {}
            && Next(now, ResumeDirector).status == now.status
            && Next(now, ResumeDirector).queue == now.queue
    decreases |ops|
  {
    if ops == [] {
      NobodyResumes(w);
    } else {
      StepFlagsNobodyPaused(w, ops[0]);
      WithoutOverrideNothingResumes(Next(w, ops[0]), ops[1..]);
    }
  }

  lemma StepFlagsNobodyPaused(w: World, op: Operation)
    requires With(w, Paused) * DirectorFlagged(w) == {}
    requires Honest(op) && !op.OverridePause?
    ensures With(Next(w, op), Paused) * DirectorFlagged(Next(w, op)) == {}
  {
  }

  lemma NobodyResumes(w: World)
    requires With(w, Paused) * DirectorFlagged(w) == {}
    ensures Next(w, ResumeDirector).status == w.status && Next(w, ResumeDirector).queue == w.queue
  {
    assert Selected(w.projects, {}) == [] by {
      if Selected(w.projects, {}) != [] {
        assert Selected(w.projects, {})[0] in Selected(w.projects, {});
      }
    }
  }

  /** An override of a flagged project is resumed by the Director, with one session. */
  lemma OverriddenIsResumed(w: World, p: Id)
    requires Valid(w) && Is(w, p, Active)
    ensures var now := Run(w, [PauseDirector(None), OverridePause(p), ResumeDirector]);
            && Is(now, p, Active)
            && |w.queue| <= |now.queue| && Job(p, None) in now.queue[|w.queue|..]
  {
    var w1 := Next(w, PauseDirector(None));
    var w2 := Next(w1, OverridePause(p));
    assert Is(w2, p, Paused) && p in DirectorFlagged(w2) && w2.queue == w.queue;
    ValidAfter(w, PauseDirector(None));
    ValidAfter(w1, OverridePause(p));
    DirectorResumed(w2);
    assert Flagged(w2, p);
    EnqueuedFor(w2, Next(w2, ResumeDirector), (set q | q in w2.status && Flagged(w2, q)), p);
    RunThree(w, PauseDirector(None), OverridePause(p), ResumeDirector);
  }

  lemma EnqueuedFor(w: World, w': World, ps: set<Id>, p: Id)
    requires Enqueues(w, w', ps) && p in ps
    ensures Job(p, None) in w'.queue[|w.queue|..]
  {
    var i :| |w.queue| <= i < |w'.queue| && w'.queue[i].project == p;
    assert w'.queue[|w.queue|..][i - |w.queue|] == Job(p, None);
  }

  lemma RunTwo(w: World, a: Operation, b: Operation)
    ensures Run(w, [a, b]) == Next(Next(w, a), b)
  {
    assert [a, b][1..] == [b] && [b][1..] == [];
    assert Run(w, [a, b]) == Run(Next(w, a), [b]);
    assert Run(Next(w, a), [b]) == Run(Next(Next(w, a), b), []);
  }

  lemma RunThree(w: World, a: Operation, b: Operation, c: Operation)
    ensures Run(w, [a, b, c]) == Next(Next(Next(w, a), b), c)
  {
    assert [a, b, c][1..] == [b, c];
    assert Run(w, [a, b, c]) == Run(Next(w, a), [b, c]);
    RunTwo(Next(w, a), b, c);
  }

  /** With the marker as a user's reason the promise fails: the pause is undone. */
  lemma DishonestReasonIsResumed(w: World, p: Id)
    requires Is(w, p, Active)
    ensures Is(Run(w, [PauseProject(p, Some(DIRECTOR_PAUSE)), ResumeDirector]), p, Active)
  {
    RunTwo(w, PauseProject(p, Some(DIRECTOR_PAUSE)), ResumeDirector);
  }

  // ----- What resuming the Director leaves

  /** No active or paused project still carries the Director's flag; exactly the paused
      projects that carried it are active now, and no other status changed; no other flag is
      dropped; each resumed project got exactly one session, in row order, and nothing else was
      enqueued. */
  lemma DirectorResumed(w: World)
    requires Valid(w)
    ensures var w' := Next(w, ResumeDirector);
            && w'.director == None && w'.tables == w.tables && w'.projects == w.projects
            && (forall p :: (Is(w', p, Active) || Is(w', p, Paused)) && p in w'.flags ==>
                  w'.flags[p] != "director_pause")
            && w'.status.Keys == w.status.Keys
            && (forall p :: p in w.status ==> w'.status[p] == if Flagged(w, p) then Active else w.status[p])
            && (forall p :: p in w'.flags ==> p in w.flags && w'.flags[p] == w.flags[p])
            && (forall p :: p in w.flags && p !in w'.flags ==>
                  w.flags[p] == "director_pause" && (Is(w, p, Paused) || Is(w, p, Active)))
            && Enqueues(w, w', set p | p in w.status && Flagged(w, p))
  {
    var resumed := set p | p in w.status && Flagged(w, p);
    assert resumed == With(w, Paused) * DirectorFlagged(w);
    SessionsEnqueued(w, resumed);
  }

  /** Paused while carrying the Director's flag. */
  ghost predicate Flagged(w: World, p: Id)
  {
    Is(w, p, Paused) && p in w.flags && w.flags[p] == "director_pause"
  }

  /** No operation of the file takes a project out of COMPLETED or ABORTED. */
  lemma FinishedStaysFinished(w: World, op: Operation, p: Id)
    requires InLifecycleFile(op) && p in w.status && (w.status[p] == ProjectCompleted || w.status[p] == Aborted)
    ensures p in Next(w, op).status && Next(w, op).status[p] == w.status[p]
  {
  }
}
