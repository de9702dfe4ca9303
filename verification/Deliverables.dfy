/** The deliverables of one project and the choice of what can run next. */
module Deliverables {
  import opened Ids
  import opened Graphs

  datatype Status = Planned | Pending | InProgress | Completed | Failed | Skipped | Blocked

  datatype ProjectStatus = Shaping | Active | Paused | Suspended | ProjectCompleted | Aborted

  datatype Deliverable = Deliverable(
    status: Status,
    dependsOn: seq<Id>,
    retryCount: int,
    executionOrder: Option<int>)

  type Table = map<Id, Deliverable>

  /** A table as a query returns it: every row once, in some order. */
  ghost predicate Lists(ids: seq<Id>, t: Table)
  {
    Distinct(ids) && forall d :: d in ids <==> d in t
  }

  function DependencyGraph(t: Table): (g: Graph)
    ensures g.Keys == t.Keys && forall a, b :: Edge(g, a, b) <==> a in t && b in t[a].dependsOn
  {
    map d | d in t :: t[d].dependsOn
  }

  predicate Waiting(s: Status)
  {
    s == Planned || s == Pending
  }

  predicate Satisfying(s: Status)
  {
    s == Completed || s == Skipped
  }

  predicate Terminal(s: Status)
  {
    s == Completed || s == Failed || s == Skipped
  }

  /** The three sets of statuses, status by status. */
  lemma StatusTable()
    ensures Waiting(Planned) && Waiting(Pending) && !Waiting(InProgress) && !Waiting(Completed) && !Waiting(Failed)
    ensures !Waiting(Skipped) && !Waiting(Blocked)
    ensures Satisfying(Completed) && Satisfying(Skipped) && !Satisfying(Planned) && !Satisfying(Pending)
    ensures !Satisfying(InProgress) && !Satisfying(Failed) && !Satisfying(Blocked)
    ensures Terminal(Completed) && Terminal(Failed) && Terminal(Skipped) && !Terminal(Planned) && !Terminal(Pending)
    ensures !Terminal(InProgress) && !Terminal(Blocked)
  {
  }

  predicate Actionable(d: Deliverable, retryLimit: int)
  {
    Waiting(d.status) || (d.status == Failed && d.retryCount < retryLimit)
  }

  /** The dependency is a deliverable of the project that is completed or skipped. */
  predicate Satisfied(t: Table, dep: Id)
  {
    dep in t && Satisfying(t[dep].status)
  }

  ghost predicate DependenciesMet(t: Table, d: Id)
  {
    && d in t
    && forall dep :: dep in t[d].dependsOn ==> dep in t && (t[dep].status == Completed || t[dep].status == Skipped)
  }

  ghost predicate IsReady(t: Table, retryLimit: int, d: Id)
  {
    && d in t
    && (t[d].status == Planned || t[d].status == Pending || (t[d].status == Failed && t[d].retryCount < retryLimit))
    && DependenciesMet(t, d)
  }

  /** a runs no later than b: by execution order, where none counts as zero, then by id. */
  ghost predicate RunsBefore(t: Table, a: Id, b: Id)
  {
    && a in t && b in t
    && var x := if t[a].executionOrder.None? then 0 else t[a].executionOrder.value;
       var y := if t[b].executionOrder.None? then 0 else t[b].executionOrder.value;
       x < y || (x == y && Precedes(a.text, b.text))
  }

  lemma RanksAreExecutionOrders(t: Table, s: seq<Id>)
    requires forall d :: d in s ==> d in t
    ensures Sorted(ExecutionOrders(t), s) <==> forall i, j :: 0 <= i < j < |s| ==> RunsBefore(t, s[i], s[j])
  {
    forall i, j | 0 <= i < j < |s| ensures Leq(ExecutionOrders(t), s[i], s[j]) <==> RunsBefore(t, s[i], s[j]) {
      TextLeqExactly(s[i].text, s[j].text);
    }
  }

  /** The explicit execution orders; a deliverable without one counts as zero. */
  function ExecutionOrders(t: Table): Ranks
  {
    map d | d in t && t[d].executionOrder.Some? :: t[d].executionOrder.value
  }

  /** Exactly the ready deliverables, once each, by execution order and then id. */
  ghost predicate ReadyList(t: Table, retryLimit: int, batch: seq<Id>)
  {
    && Distinct(batch) && (forall d :: d in batch <==> IsReady(t, retryLimit, d))
    && forall i, j :: 0 <= i < j < |batch| ==> RunsBefore(t, batch[i], batch[j])
  }

  // ----- Computing the ready list

  method CountUnsatisfied(deps: seq<Id>, satisfied: set<Id>) returns (n: nat)
    ensures n == 0 <==> forall dep :: dep in deps ==> dep in satisfied
  {
    n := 0;
    for i := 0 to |deps|
      invariant n == 0 <==> forall dep :: dep in deps[..i] ==> dep in satisfied
    {
      assert deps[..i + 1] == deps[..i] + [deps[i]];
      if deps[i] !in satisfied {
        n := n + 1;
      }
    }
    assert deps[..|deps|] == deps;
  }

  method FindActionable(ids: seq<Id>, t: Table, retryLimit: int) returns (actionable: seq<Id>)
    requires Lists(ids, t)
    ensures Distinct(actionable)
    ensures forall d :: d in actionable <==> d in t && Actionable(t[d], retryLimit)
  {
    actionable := [];
    for i := 0 to |ids|
      invariant Distinct(actionable)
      invariant forall d :: d in actionable <==> d in ids[..i] && Actionable(t[d], retryLimit)
    {
      assert ids[i] !in ids[..i];
      if Actionable(t[ids[i]], retryLimit) {
        actionable := actionable + [ids[i]];
      }
      assert ids[..i + 1] == ids[..i] + [ids[i]];
    }
    assert ids[..|ids|] == ids;
  }

  method CountDegrees(actionable: seq<Id>, t: Table) returns (inDegree: map<Id, int>)
    requires forall d :: d in actionable ==> d in t
    ensures inDegree.Keys == Elems(actionable)
    ensures forall d :: d in actionable ==> (inDegree[d] == 0 <==> DependenciesMet(t, d))
  {
    var satisfied := set d | d in t && Satisfying(t[d].status);
    inDegree := map[];
    for i := 0 to |actionable|
      invariant inDegree.Keys == Elems(actionable[..i])
      invariant forall d :: d in actionable[..i] ==> (inDegree[d] == 0 <==> DependenciesMet(t, d))
    {
      var n := CountUnsatisfied(t[actionable[i]].dependsOn, satisfied);
      inDegree := inDegree[actionable[i] := n];
      assert actionable[..i + 1] == actionable[..i] + [actionable[i]];
    }
    assert actionable[..|actionable|] == actionable;
  }

  method FindFrontier(actionable: seq<Id>, inDegree: map<Id, int>) returns (frontier: seq<Id>)
    requires Distinct(actionable) && inDegree.Keys == Elems(actionable)
    ensures Distinct(frontier)
    ensures forall d :: d in frontier <==> d in actionable && inDegree[d] == 0
  {
    frontier := [];
    for i := 0 to |actionable|
      invariant Distinct(frontier)
      invariant forall d :: d in frontier <==> d in actionable[..i] && inDegree[d] == 0
    {
      assert actionable[i] !in actionable[..i];
      if inDegree[actionable[i]] == 0 {
        frontier := frontier + [actionable[i]];
      }
      assert actionable[..i + 1] == actionable[..i] + [actionable[i]];
    }
    assert actionable[..|actionable|] == actionable;
  }

  /** The in-degree computation the batch loop and select_ready_batch share. */
  method ReadyBatch(ids: seq<Id>, t: Table, retryLimit: int) returns (batch: seq<Id>)
    requires Lists(ids, t)
    ensures ReadyList(t, retryLimit, batch)
  {
    var actionable := FindActionable(ids, t, retryLimit);
    var inDegree := CountDegrees(actionable, t);
    var frontier := FindFrontier(actionable, inDegree);
    SortIdsSpec(ExecutionOrders(t), frontier);
    batch := SortIds(ExecutionOrders(t), frontier);
    RanksAreExecutionOrders(t, batch);
  }

  const MAX_DELIVERABLE_RETRIES := 3

  ghost function Unsatisfied(t: Table): set<Id>
  {
    set d | d in t && !Satisfying(t[d].status)
  }

  method CountRemaining(ids: seq<Id>, t: Table) returns (n: nat)
    requires Lists(ids, t)
    ensures n == |Unsatisfied(t)|
  {
    n := 0;
    ghost var open: seq<Id> := [];
    for i := 0 to |ids|
      invariant n == |open| && Distinct(open)
      invariant forall d :: d in open <==> d in ids[..i] && !Satisfying(t[d].status)
    {
      assert ids[i] !in ids[..i];
      if !Satisfying(t[ids[i]].status) {
        n := n + 1;
        open := open + [ids[i]];
      }
      assert ids[..i + 1] == ids[..i] + [ids[i]];
    }
    assert ids[..|ids|] == ids;
    ElemsCard(open);
    assert Elems(open) == Unsatisfied(t);
  }

  /** The select_ready_batch tool. */
  method SelectReadyBatch(ids: seq<Id>, t: Table) returns (batch: seq<Id>, totalReady: nat, totalRemaining: nat)
    requires Lists(ids, t)
    ensures ReadyList(t, MAX_DELIVERABLE_RETRIES, batch)
    ensures totalReady == |batch| && totalRemaining == |Unsatisfied(t)|
  {
    batch := ReadyBatch(ids, t, MAX_DELIVERABLE_RETRIES);
    totalReady := |batch|;
    totalRemaining := CountRemaining(ids, t);
  }

  // ----- What the ready list is worth

  /** The ready list is unique, so tool and loop agree whenever their limits do not tell
      apart a failed deliverable whose dependencies are met. */
  lemma ToolAndLoopAgree(t: Table, limit1: int, limit2: int, batch1: seq<Id>, batch2: seq<Id>)
    requires ReadyList(t, limit1, batch1) && ReadyList(t, limit2, batch2)
    ensures batch1 == batch2 <==>
            forall d :: d in t && t[d].status == Failed && DependenciesMet(t, d) ==>
              (t[d].retryCount < limit1 <==> t[d].retryCount < limit2)
  {
    if batch1 == batch2 {
      forall d | d in t && t[d].status == Failed && DependenciesMet(t, d)
        ensures t[d].retryCount < limit1 <==> t[d].retryCount < limit2
      {
        assert d in batch1 <==> IsReady(t, limit1, d);
        assert d in batch2 <==> IsReady(t, limit2, d);
      }
    } else if forall d :: d in t && t[d].status == Failed && DependenciesMet(t, d) ==>
                (t[d].retryCount < limit1 <==> t[d].retryCount < limit2) {
      forall d ensures d in batch1 <==> d in batch2 {
        assert IsReady(t, limit1, d) <==> IsReady(t, limit2, d);
      }
      RanksAreExecutionOrders(t, batch1);
      RanksAreExecutionOrders(t, batch2);
      SortedUnique(ExecutionOrders(t), batch1, batch2);
    }
  }

  /** On an acyclic closed table work is never stuck: if something is unsatisfied and all
      that is unsatisfied is actionable, something is ready. */
  lemma Progress(t: Table, retryLimit: int, batch: seq<Id>)
    requires !HasCycle(DependencyGraph(t)) && DependencyClosed(DependencyGraph(t))
    requires Unsatisfied(t) != {}
    requires forall d :: d in Unsatisfied(t) ==> Actionable(t[d], retryLimit)
    requires ReadyList(t, retryLimit, batch)
    ensures batch != []
  {
    var g := DependencyGraph(t);
    var open := Unsatisfied(t);
    if forall d :: d in open ==> !DependenciesMet(t, d) {
      forall d | d in open ensures HasSuccessorIn(g, open, d) {
        var dep :| dep in t[d].dependsOn && !Satisfied(t, dep);
        assert Edge(g, d, dep);
      }
      NoSinkMeansCycle(g, open);
      assert false;
    }
    var d :| d in open && DependenciesMet(t, d);
    assert IsReady(t, retryLimit, d);
    assert d in batch;
  }
}
