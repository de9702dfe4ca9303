/** The manage_dependencies tool and the breadth-first search that guards it. */
module Dependencies {
  import opened Ids
  import opened Graphs

  datatype Row = Row(project: Option<Id>, dependsOn: seq<Id>)

  type Rows = map<Id, Row>

  datatype Action = Add | Remove | Query

  datatype Call = Call(action: Action, source: Id, target: Option<Id>)

  datatype Response =
    | InvalidInput
    | SourceNotFound
    | TargetNotFound
    | NoSuchDependency
    | CycleDetected(cycle: seq<Id>)
    | AlreadyPresent(dependsOn: seq<Id>)
    | Done(dependsOn: seq<Id>)

  /** The deliverables of one project, as the tool loads them. */
  function ProjectGraph(rows: Rows, project: Option<Id>): (g: Graph)
    ensures forall d :: d in g <==> d in rows && rows[d].project == project
    ensures forall a, b :: Edge(g, a, b) <==> a in rows && rows[a].project == project && b in rows[a].dependsOn
  {
    map d | d in rows && rows[d].project == project :: rows[d].dependsOn
  }

  /** All deliverables of all projects together. */
  function WholeGraph(rows: Rows): (g: Graph)
    ensures g.Keys == rows.Keys && forall a, b :: Edge(g, a, b) <==> a in rows && b in rows[a].dependsOn
  {
    map d | d in rows :: rows[d].dependsOn
  }

  /** list.remove: drops the first occurrence. */
  function RemoveFirst(s: seq<Id>, x: Id): (r: seq<Id>)
    ensures forall y :: y in r ==> y in s
    ensures forall y :: y in s && y != x ==> y in r
    ensures Distinct(s) ==> Distinct(r) && x !in r
  {
    if s == [] then []
    else
      assert s == [s[0]] + s[1..];
      DistinctCons(s);
      if s[0] == x then s[1..]
      else
        var r := [s[0]] + RemoveFirst(s[1..], x);
        DistinctCons(r);
        r
  }

  /** By position: the first place at which x stands is taken out. */
  lemma {:induction false} RemoveFirstExactly(s: seq<Id>, x: Id) returns (k: nat)
    requires x in s
    ensures k < |s| && s[k] == x && x !in s[..k] && RemoveFirst(s, x) == s[..k] + s[k + 1..]
  {
    if s[0] == x {
      k := 0;
    } else {
      assert s == [s[0]] + s[1..];
      var j := RemoveFirstExactly(s[1..], x);
      k := j + 1;
      assert s[..k] == [s[0]] + s[1..][..j] && s[k + 1..] == s[1..][j + 1..];
    }
  }

  method Enqueue(queue0: seq<Id>, deps: seq<Id>, visited: set<Id>) returns (queue: seq<Id>)
    ensures forall x :: x in queue <==> x in queue0 || (x in deps && x !in visited)
  {
    queue := queue0;
    for i := 0 to |deps|
      invariant forall x :: x in queue <==> x in queue0 || (x in deps[..i] && x !in visited)
    {
      assert deps[..i + 1] == deps[..i] + [deps[i]];
      if deps[i] !in visited {
        queue := queue + [deps[i]];
      }
    }
    assert deps[..|deps|] == deps;
  }

  /** Breadth-first search from the target along dependencies, looking for the source. */
  method DetectCycle(g: Graph, source: Id, target: Id) returns (cycle: Option<seq<Id>>)
    ensures cycle.Some? <==> Reach(g, target, source)
    ensures cycle.Some? ==> cycle.value == [source, target, source]
  {
    var visited: set<Id> := {};
    var queue := [target];
    ghost var all := Nodes(g) + {target};
    ReachSelf(g, target);
    while queue != []
      invariant target in visited || target in queue
      invariant source !in visited
      invariant forall x :: x in visited || x in queue ==> x in all && Reach(g, target, x)
      invariant forall a, b :: a in visited && Edge(g, a, b) ==> b in visited || b in queue
      decreases all - visited, |queue|
    {
      var node := queue[0];
      assert queue == [node] + queue[1..];
      queue := queue[1..];
      if node == source {
        return Some([source, target, source]);
      }
      if node !in visited {
        visited := visited + {node};
        var deps := if node in g then g[node] else [];
        forall x | x in deps ensures x in all && Reach(g, target, x) {
          ReachThenEdge(g, target, node, x);
        }
        queue := Enqueue(queue, deps, visited);
      }
    }
    if Reach(g, target, source) {
      ClosedReach(g, visited, target, source);
    }
    cycle := None;
  }

  /** What one call answers and what it leaves in the table: the edge-insertion
      guard is stated here by reachability, not by a search. */
  ghost function Answer(rows: Rows, call: Call): (Response, Rows)
  {
    if call.action != Query && call.target.None? then (InvalidInput, rows)
    else if call.source !in rows then (SourceNotFound, rows)
    else
      var row := rows[call.source];
      if call.action == Query then (Done(row.dependsOn), rows)
      else
        var t := call.target.value;
        if call.action == Add then
          if t !in rows then (TargetNotFound, rows)
          else if t in row.dependsOn then (AlreadyPresent(row.dependsOn), rows)
          else if Reach(ProjectGraph(rows, row.project), t, call.source) then
            (CycleDetected([call.source, t, call.source]), rows)
          else
            var deps := row.dependsOn + [t];
            (Done(deps), rows[call.source := row.(dependsOn := deps)])
        else if t !in row.dependsOn then (NoSuchDependency, rows)
        else
          var deps := RemoveFirst(row.dependsOn, t);
          (Done(deps), rows[call.source := row.(dependsOn := deps)])
  }

  /** Only an ADD or REMOVE that is carried out changes the table, and only the source's list. */
  lemma AnswerSays(rows: Rows, call: Call)
    ensures var (response, after) := Answer(rows, call);
            && after.Keys == rows.Keys
            && (forall d :: d in rows && d != call.source ==> after[d] == rows[d])
            && (forall d :: d in rows ==> after[d].project == rows[d].project)
            && (after != rows ==> call.action != Query && response.Done?)
  {
  }

  lemma QuerySays(rows: Rows, s: Id, target: Option<Id>)
    ensures var (response, after) := Answer(rows, Call(Query, s, target));
            after == rows && response == if s in rows then Done(rows[s].dependsOn) else SourceNotFound
  {
  }

  lemma IncompleteCallSays(rows: Rows, call: Call)
    requires call.action != Query && (call.target.None? || call.source !in rows)
    ensures Answer(rows, call) == (if call.target.None? then InvalidInput else SourceNotFound, rows)
  {
  }

  /** ADD appends the target, unless it is missing, listed already, or refused. */
  lemma AddSays(rows: Rows, s: Id, t: Id)
    requires s in rows
    ensures var (response, after) := Answer(rows, Call(Add, s, Some(t)));
            var deps := rows[s].dependsOn;
            if t !in rows then after == rows && response == TargetNotFound
            else if t in deps then after == rows && response == AlreadyPresent(deps)
            else if response.CycleDetected? then after == rows && response.cycle == [s, t, s]
            else response == Done(deps + [t]) && after[s].dependsOn == deps + [t]
  {
  }

  /** REMOVE takes out one entry, the first, unless there is none. */
  lemma RemoveSays(rows: Rows, s: Id, t: Id)
    requires s in rows
    ensures var (response, after) := Answer(rows, Call(Remove, s, Some(t)));
            var deps := rows[s].dependsOn;
            if t !in deps then after == rows && response == NoSuchDependency
            else response == Done(after[s].dependsOn)
                 && exists k: nat :: k < |deps| && deps[k] == t && t !in deps[..k]
                                     && after[s].dependsOn == deps[..k] + deps[k + 1..]
  {
    if t in rows[s].dependsOn {
      var k := RemoveFirstExactly(rows[s].dependsOn, t);
    }
  }

  class DependencyStore {
    var rows: Rows

    constructor (rows: Rows)
      ensures this.rows == rows
    {
      this.rows := rows;
    }

    method ManageDependencies(call: Call) returns (response: Response)
      modifies this
      ensures (response, rows) == Answer(old(rows), call)
    {
      if call.action != Query && call.target.None? {
        return InvalidInput;
      }
      if call.source !in rows {
        return SourceNotFound;
      }
      var row := rows[call.source];
      if call.action == Query {
        return Done(row.dependsOn);
      }
      var target := call.target.value;
      if call.action == Add {
        if target !in rows {
          return TargetNotFound;
        }
        if target in row.dependsOn {
          return AlreadyPresent(row.dependsOn);
        }
        var cycle := DetectCycle(ProjectGraph(rows, row.project), call.source, target);
        if cycle.Some? {
          return CycleDetected(cycle.value);
        }
        rows := rows[call.source := row.(dependsOn := row.dependsOn + [target])];
        return Done(rows[call.source].dependsOn);
      }
      if target !in row.dependsOn {
        return NoSuchDependency;
      }
      rows := rows[call.source := row.(dependsOn := RemoveFirst(row.dependsOn, target))];
      response := Done(rows[call.source].dependsOn);
    }
  }

  // ----- Inserting one edge

  /** The graph with one more dependency at the end of the source's list. */
  function WithEdge(g: Graph, s: Id, t: Id): (h: Graph)
    requires s in g
    ensures forall a, b :: Edge(h, a, b) <==> Edge(g, a, b) || (a == s && b == t)
  {
    g[s := g[s] + [t]]
  }

  lemma {:induction false} PathWithEdge(g: Graph, s: Id, t: Id, p: seq<Id>, a: Id, b: Id)
    requires s in g && IsPath(WithEdge(g, s, t), p, a, b)
    ensures Reach(g, a, b) || (Reach(g, a, s) && Reach(g, t, b))
  {
    if |p| == 1 {
      ReachSelf(g, a);
    } else {
      var c := p[0 + 1];
      assert Edge(WithEdge(g, s, t), p[0], c);
      PathWithEdge(g, s, t, p[1..], c, b);
      if Edge(g, a, c) {
        ReachEdge(g, a, c);
        if Reach(g, c, b) {
          ReachTransitive(g, a, c, b);
        } else {
          ReachTransitive(g, a, c, s);
        }
      } else {
        ReachSelf(g, a);
      }
    }
  }

  /** On an acyclic graph the guard refuses exactly the edges that would close a cycle. */
  lemma EdgeClosesCycle(g: Graph, s: Id, t: Id)
    requires s in g && !HasCycle(g)
    ensures HasCycle(WithEdge(g, s, t)) <==> Reach(g, t, s)
  {
    var h := WithEdge(g, s, t);
    if Reach(g, t, s) {
      ReachMonotone(g, h, t, s);
      assert Edge(h, s, t);
      assert Depends(h, s, s);
    } else if HasCycle(h) {
      var a :| Depends(h, a, a);
      var c :| Edge(h, a, c) && Reach(h, c, a);
      var p :| IsPath(h, p, c, a);
      PathWithEdge(g, s, t, p, c, a);
      if Edge(g, a, c) {
        if Reach(g, c, a) {
          assert Depends(g, a, a);
        } else {
          ReachEdge(g, a, c);
          ReachTransitive(g, t, a, c);
          ReachTransitive(g, t, c, s);
        }
      }
      assert false;
    }
  }

  // ----- Every run of the tool

  ghost predicate Sound(rows: Rows)
  {
    && (forall p :: !HasCycle(ProjectGraph(rows, p)))
    && forall d :: d in rows ==> Distinct(rows[d].dependsOn)
  }

  lemma AnswerKeepsSound(rows: Rows, call: Call)
    requires Sound(rows)
    ensures Sound(Answer(rows, call).1)
  {
    var (response, after) := Answer(rows, call);
    if after != rows {
      var row := rows[call.source];
      var t := call.target.value;
      forall p ensures !HasCycle(ProjectGraph(after, p)) {
        var g, h := ProjectGraph(rows, p), ProjectGraph(after, p);
        assert !HasCycle(g);
        if p == row.project && call.action == Add {
          EdgeClosesCycle(g, call.source, t);
          assert h == WithEdge(g, call.source, t);
        } else {
          forall a, b | Edge(h, a, b) ensures Edge(g, a, b) {
          }
          CycleMonotone(h, g);
        }
      }
      if call.action == Add {
        DistinctAppend(row.dependsOn, t);
      }
    }
  }

  ghost function Replay(rows: Rows, calls: seq<Call>): Rows
  {
    if calls == [] then rows else Replay(Answer(rows, calls[0]).1, calls[1..])
  }

  /** Whatever sequence of calls is made, no project's own graph ever gets a cycle and no
      dependency list ever gets a repeated entry. */
  lemma {:induction false} EveryRunStaysSound(rows: Rows, calls: seq<Call>)
    requires Sound(rows)
    ensures Sound(Replay(rows, calls))
  {
    if calls != [] {
      AnswerKeepsSound(rows, calls[0]);
      EveryRunStaysSound(Answer(rows, calls[0]).1, calls[1..]);
    }
  }

  /** In a sound table an ADD of a new edge between existing deliverables is refused
      exactly when it would put a cycle into the source's project. */
  lemma RefusedExactlyWhenCyclic(rows: Rows, s: Id, t: Id)
    requires Sound(rows) && s in rows && t in rows && t !in rows[s].dependsOn
    ensures var g := ProjectGraph(rows, rows[s].project);
            Answer(rows, Call(Add, s, Some(t))).0.CycleDetected? <==> HasCycle(WithEdge(g, s, t))
  {
    EdgeClosesCycle(ProjectGraph(rows, rows[s].project), s, t);
  }

  /** ADD then REMOVE of the same new dependency restores the table. */
  lemma AddThenRemove(rows: Rows, s: Id, t: Id)
    requires s in rows && t !in rows[s].dependsOn
    ensures var (response, after) := Answer(rows, Call(Add, s, Some(t)));
            response.Done? ==> Answer(after, Call(Remove, s, Some(t))).1 == rows
  {
    var (response, after) := Answer(rows, Call(Add, s, Some(t)));
    if response.Done? {
      RemoveLast(rows[s].dependsOn, t);
      assert rows == rows[s := rows[s]];
    }
  }

  lemma {:induction false} RemoveLast(s: seq<Id>, x: Id)
    requires x !in s
    ensures RemoveFirst(s + [x], x) == s
  {
    if s != [] {
      assert s + [x] == [s[0]] + (s[1..] + [x]);
      RemoveLast(s[1..], x);
    }
  }

  // ----- Across projects

  ghost predicate StaysInProject(rows: Rows)
  {
    forall d, t :: d in rows && t in rows[d].dependsOn && t in rows ==> rows[t].project == rows[d].project
  }

  lemma {:induction false} PathInProject(rows: Rows, p: seq<Id>, a: Id, b: Id)
    requires StaysInProject(rows) && a in rows && b in rows
    requires IsPath(WholeGraph(rows), p, a, b)
    ensures rows[a].project == rows[b].project
    ensures Reach(ProjectGraph(rows, rows[a].project), a, b)
  {
    var g := ProjectGraph(rows, rows[a].project);
    ReachSelf(g, a);
    if |p| > 1 {
      assert Edge(WholeGraph(rows), p[0], p[0 + 1]);
      assert p[1] in rows by {
        if |p| > 2 { assert Edge(WholeGraph(rows), p[1], p[1 + 1]); }
      }
      PathInProject(rows, p[1..], p[1], b);
      ReachEdge(g, a, p[1]);
      ReachTransitive(g, a, p[1], b);
    }
  }

  /** The guard sees one project at a time. When no dependency crosses projects that is
      enough: the whole table is acyclic iff each project is. */
  lemma AcyclicWithinProjects(rows: Rows)
    requires StaysInProject(rows)
    ensures !HasCycle(WholeGraph(rows)) <==> forall p :: !HasCycle(ProjectGraph(rows, p))
  {
    var w := WholeGraph(rows);
    forall p ensures HasCycle(ProjectGraph(rows, p)) ==> HasCycle(w) {
      CycleMonotone(ProjectGraph(rows, p), w);
    }
    if HasCycle(w) {
      var a :| Depends(w, a, a);
      var c :| Edge(w, a, c) && Reach(w, c, a);
      ReachFirst(w, c, a);
      var q :| IsPath(w, q, c, a);
      PathInProject(rows, q, c, a);
      var g := ProjectGraph(rows, rows[a].project);
      assert Depends(g, a, a) by { assert Edge(g, a, c); }
    }
  }

  /** Whether one accepted ADD keeps the whole table acyclic: exactly when its target does
      not reach its source along the dependencies of all projects together. */
  lemma AcceptedKeepsWhole(rows: Rows, s: Id, t: Id)
    requires !HasCycle(WholeGraph(rows)) && Answer(rows, Call(Add, s, Some(t))).0.Done?
    ensures HasCycle(WholeGraph(Answer(rows, Call(Add, s, Some(t))).1)) <==> Reach(WholeGraph(rows), t, s)
  {
    var w := WholeGraph(rows);
    EdgeClosesCycle(w, s, t);
    assert WholeGraph(Answer(rows, Call(Add, s, Some(t))).1) == WithEdge(w, s, t);
  }

  /** A guard over all projects would have let every accepted ADD of the run pass. */
  ghost predicate PassesWholeGuard(rows: Rows, calls: seq<Call>)
  {
    calls == [] ||
    var (response, after) := Answer(rows, calls[0]);
    && (calls[0].action == Add && response.Done? ==> !Reach(WholeGraph(rows), calls[0].target.value, calls[0].source))
    && PassesWholeGuard(after, calls[1..])
  }

  ghost predicate AcyclicThroughout(rows: Rows, calls: seq<Call>)
  {
    !HasCycle(WholeGraph(rows)) && (calls == [] || AcyclicThroughout(Answer(rows, calls[0]).1, calls[1..]))
  }

  /** The whole table stays acyclic through a run exactly when no accepted ADD closes a path
      over all projects. */
  lemma {:induction false} RunKeepsWhole(rows: Rows, calls: seq<Call>)
    requires !HasCycle(WholeGraph(rows))
    ensures AcyclicThroughout(rows, calls) <==> PassesWholeGuard(rows, calls)
  {
    if calls != [] {
      var call := calls[0];
      var (response, after) := Answer(rows, call);
      if call.action == Add && response.Done? {
        AcceptedKeepsWhole(rows, call.source, call.target.value);
      } else {
        CycleMonotone(WholeGraph(after), WholeGraph(rows));
      }
      if !HasCycle(WholeGraph(after)) {
        RunKeepsWhole(after, calls[1..]);
      }
    }
  }

  /** The call does not ask for a dependency on another project's deliverable. */
  predicate Local(rows: Rows, call: Call)
  {
    call.action == Add && call.source in rows && call.target.Some? && call.target.value in rows ==>
      rows[call.source].project == rows[call.target.value].project
  }

  /** As long as no ADD crosses projects, the project's guard is enough: every run leaves the
      whole table acyclic. */
  lemma {:induction false} LocalRunsStayAcyclic(rows: Rows, calls: seq<Call>)
    requires Sound(rows) && StaysInProject(rows)
    requires forall call :: call in calls ==> Local(rows, call)
    ensures Sound(Replay(rows, calls)) && StaysInProject(Replay(rows, calls))
    ensures !HasCycle(WholeGraph(Replay(rows, calls)))
  {
    if calls == [] {
      AcyclicWithinProjects(rows);
    } else {
      AnswerKeepsSound(rows, calls[0]);
      LocalKeepsProjects(rows, calls[0]);
      LocalRunsStayAcyclic(Answer(rows, calls[0]).1, calls[1..]);
    }
  }

  lemma LocalKeepsProjects(rows: Rows, call: Call)
    requires StaysInProject(rows) && Local(rows, call)
    ensures StaysInProject(Answer(rows, call).1)
    ensures forall other :: Local(rows, other) ==> Local(Answer(rows, call).1, other)
  {
  }

  /** Across projects it is not enough: two accepted ADDs make two deliverables of
      different projects depend on each other. */
  lemma CrossProjectCycleAccepted()
    ensures exists rows, calls ::
              && Sound(rows) && !HasCycle(WholeGraph(rows))
              && HasCycle(WholeGraph(Replay(rows, calls)))
  {
    var a, b := Id("a"), Id("b");
    assert a != b by { assert a.text[0] != b.text[0]; }
    var p, q := Some(a), Some(b);
    var rows: Rows := map[a := Row(p, []), b := Row(q, [])];
    UnconnectedIsSound(rows);
    BothAccepted(a, b);
    var calls := [Call(Add, a, Some(b)), Call(Add, b, Some(a))];
    assert Sound(rows) && !HasCycle(WholeGraph(rows)) && HasCycle(WholeGraph(Replay(rows, calls)));
  }

  lemma BothAccepted(a: Id, b: Id)
    requires a != b
    ensures var rows: Rows := map[a := Row(Some(a), []), b := Row(Some(b), [])];
            HasCycle(WholeGraph(Replay(rows, [Call(Add, a, Some(b)), Call(Add, b, Some(a))])))
  {
    var rows: Rows := map[a := Row(Some(a), []), b := Row(Some(b), [])];
    var rows1 := rows[a := Row(Some(a), [b])];
    var rows2 := rows1[b := Row(Some(b), [a])];
    var first, second := Call(Add, a, Some(b)), Call(Add, b, Some(a));
    assert Answer(rows, first).1 == rows1 by {
      NoEdgesNoReach(ProjectGraph(rows, Some(a)), b, a);
      assert [] + [b] == [b];
    }
    assert Answer(rows1, second).1 == rows2 by {
      NoEdgesNoReach(ProjectGraph(rows1, Some(b)), a, b);
      assert [] + [a] == [a];
    }
    assert Replay(rows, [first, second]) == rows2 by {
      assert [first, second][1..] == [second] && [second][1..] == [];
      assert Replay(rows1, [second]) == Replay(rows2, []);
    }
    MutualDependencyIsCycle(WholeGraph(rows2), a, b);
  }

  lemma MutualDependencyIsCycle(g: Graph, a: Id, b: Id)
    requires Edge(g, a, b) && Edge(g, b, a)
    ensures HasCycle(g)
  {
    ReachEdge(g, b, a);
    assert Depends(g, a, a);
  }

  lemma UnconnectedIsSound(rows: Rows)
    requires forall d :: d in rows ==> rows[d].dependsOn == []
    ensures Sound(rows) && !HasCycle(WholeGraph(rows))
  {
  }

  lemma NoEdgesNoReach(g: Graph, a: Id, b: Id)
    requires forall x, y :: !Edge(g, x, y)
    requires a != b
    ensures !Reach(g, a, b)
  {
    if Reach(g, a, b) {
      ReachFirst(g, a, b);
    }
  }
}
