/** What a failure blocks: evaluate_failure_impact, and the deliverables the batch loop
    skips because they are stuck behind a permanent failure. */
module Dependents {
  import opened Ids
  import opened Graphs
  import opened Deliverables

  /** The dependencies of the eligible nodes only. */
  function Through(g: Graph, eligible: set<Id>): (h: Graph)
    ensures forall a, b :: Edge(h, a, b) <==> a in eligible && Edge(g, a, b)
  {
    map a | a in g && a in eligible :: g[a]
  }

  /** x is eligible and depends on one of the seeds through eligible nodes. */
  ghost predicate Behind(g: Graph, eligible: set<Id>, seeds: seq<Id>, x: Id)
  {
    exists s :: s in seeds && Depends(Through(g, eligible), x, s)
  }

  ghost predicate SpreadState(g: Graph, eligible: set<Id>, seeds: seq<Id>, start: set<Id>, found: set<Id>,
                              frontier: seq<Id>)
  {
    && start <= found
    && (forall x :: x in found ==> x in start || Behind(g, eligible, seeds, x))
    && (forall y :: y in frontier ==> y in seeds || y in found)
    && (forall a, b :: Edge(Through(g, eligible), a, b) && (b in found || b in seeds) ==> a in found || b in frontier)
  }

  lemma BehindStep(g: Graph, eligible: set<Id>, seeds: seq<Id>, current: Id, d: Id)
    requires d in g && d in eligible && current in g[d]
    requires current in seeds || Behind(g, eligible, seeds, current)
    ensures Behind(g, eligible, seeds, d)
  {
    var h := Through(g, eligible);
    assert Edge(h, d, current);
    if current in seeds {
      ReachSelf(h, current);
    } else {
      var s :| s in seeds && Depends(h, current, s);
      DependsReach(h, current, s);
    }
  }

  /** One pass over all deliverables for the node just popped. */
  method FindDirectDependents(ids: seq<Id>, g: Graph, eligible: set<Id>, current: Id, found0: set<Id>,
                              frontier0: seq<Id>)
    returns (found: set<Id>, frontier: seq<Id>)
    requires forall x :: x in ids <==> x in g
    ensures forall x :: x in found <==> x in found0 || (x in g && x in eligible && current in g[x])
    ensures forall x :: x in frontier <==> x in frontier0 || (x in found && x !in found0)
    ensures found == found0 ==> frontier == frontier0
    ensures found - found0 <= g.Keys
  {
    found, frontier := found0, frontier0;
    for i := 0 to |ids|
      invariant forall x :: x in found <==> x in found0 || (x in ids[..i] && x in eligible && current in g[x])
      invariant forall x :: x in frontier <==> x in frontier0 || (x in found && x !in found0)
      invariant found == found0 ==> frontier == frontier0
      invariant found0 <= found
    {
      var d := ids[i];
      assert ids[..i + 1] == ids[..i] + [d];
      if d !in found && d in eligible && current in g[d] {
        found := found + {d};
        frontier := frontier + [d];
      }
    }
    assert ids[..|ids|] == ids;
  }

  lemma SpreadStep(g: Graph, eligible: set<Id>, seeds: seq<Id>, start: set<Id>, found: set<Id>, frontier: seq<Id>,
                   found': set<Id>, frontier': seq<Id>)
    requires SpreadState(g, eligible, seeds, start, found, frontier) && frontier != []
    requires forall x :: x in start ==> x in seeds
    requires forall x :: x in found' <==>
               x in found || (x in g && x in eligible && frontier[|frontier| - 1] in g[x])
    requires forall x :: x in frontier' <==> x in frontier[..|frontier| - 1] || (x in found' && x !in found)
    ensures SpreadState(g, eligible, seeds, start, found', frontier')
  {
    var current := frontier[|frontier| - 1];
    assert frontier == frontier[..|frontier| - 1] + [current];
    assert current in frontier;
    forall x | x in found' && x !in found ensures Behind(g, eligible, seeds, x) {
      BehindStep(g, eligible, seeds, current, x);
    }
    forall a, b | Edge(Through(g, eligible), a, b) && (b in found' || b in seeds)
      ensures a in found' || b in frontier'
    {
      if b == current {
        assert a in found';
      }
    }
  }

  lemma SpreadComplete(g: Graph, eligible: set<Id>, seeds: seq<Id>, start: set<Id>, found: set<Id>)
    requires SpreadState(g, eligible, seeds, start, found, [])
    ensures forall x :: x in found <==> x in start || Behind(g, eligible, seeds, x)
  {
    var h := Through(g, eligible);
    var all := found + Elems(seeds);
    forall x | Behind(g, eligible, seeds, x) ensures x in found {
      var s :| s in seeds && Depends(h, x, s);
      var c :| Edge(h, x, c) && Reach(h, c, s);
      ClosedBackwards(h, all, c, s);
    }
  }

  /** The search both callers run: pop the last node, collect its direct dependents. */
  method Spread(ids: seq<Id>, g: Graph, eligible: set<Id>, start: set<Id>, seeds: seq<Id>) returns (found: set<Id>)
    requires forall x :: x in ids <==> x in g
    requires forall x :: x in start ==> x in seeds
    ensures forall x :: x in found <==> x in start || Behind(g, eligible, seeds, x)
  {
    found := start;
    var frontier := seeds;
    while frontier != []
      invariant SpreadState(g, eligible, seeds, start, found, frontier)
      decreases g.Keys - found, |frontier|
    {
      var current := frontier[|frontier| - 1];
      ghost var foundBefore, frontierBefore := found, frontier;
      frontier := frontier[..|frontier| - 1];
      found, frontier := FindDirectDependents(ids, g, eligible, current, found, frontier);
      SpreadStep(g, eligible, seeds, start, foundBefore, frontierBefore, found, frontier);
      if found != foundBefore {
        var d :| d in found && d !in foundBefore;
        assert d in g.Keys - foundBefore;
      }
    }
    SpreadComplete(g, eligible, seeds, start, found);
  }

  // ----- evaluate_failure_impact

  lemma {:induction false} TrimPath(g: Graph, f: Id, p: seq<Id>, a: Id)
    requires IsPath(g, p, a, f)
    ensures Reach(Through(g, g.Keys - {f}), a, f)
  {
    var h := Through(g, g.Keys - {f});
    if a == f {
      ReachSelf(h, f);
    } else {
      assert Edge(g, p[0], p[1]);
      TrimPath(g, f, p[1..], p[1]);
      ReachEdge(h, a, p[1]);
      ReachTransitive(h, a, p[1], f);
    }
  }

  /** Not passing the failed deliverable on the way loses no dependent of it. */
  lemma BehindFailure(g: Graph, f: Id, x: Id)
    ensures Behind(g, g.Keys - {f}, [f], x) <==> x != f && Depends(g, x, f)
  {
    var h := Through(g, g.Keys - {f});
    if Depends(h, x, f) {
      var c :| Edge(h, x, c) && Reach(h, c, f);
      ReachMonotone(h, g, c, f);
    }
    if x != f && Depends(g, x, f) {
      var c :| Edge(g, x, c) && Reach(g, c, f);
      var p :| IsPath(g, p, c, f);
      TrimPath(g, f, p, c);
      assert Edge(h, x, c);
    }
    assert f in [f];
  }

  method ListSorted(s: set<Id>) returns (r: seq<Id>)
    ensures Distinct(r) && Alphabetical(r) && forall x :: x in r <==> x in s
  {
    var rest, items := s, [];
    while rest != {}
      invariant Distinct(items) && rest <= s
      invariant forall x :: x in items <==> x in s && x !in rest
      decreases rest
    {
      var x :| x in rest;
      items := items + [x];
      rest := rest - {x};
    }
    SortIdsSpec(map[], items);
    r := SortIds(map[], items);
    SortedIsAlphabetical(r);
  }

  /** Blocked are exactly the other deliverables that depend on the failed one; independent
      are all remaining ones that can still run. Both are sorted and free of repetition. */
  method EvaluateFailureImpact(ids: seq<Id>, t: Table, failed: Id) returns (blocked: seq<Id>, independent: seq<Id>)
    requires Lists(ids, t)
    ensures Distinct(blocked) && Alphabetical(blocked) && Distinct(independent) && Alphabetical(independent)
    ensures forall x :: x in blocked <==> x != failed && Depends(DependencyGraph(t), x, failed)
    ensures forall x :: x in independent <==>
              x in t && x != failed && !Depends(DependencyGraph(t), x, failed) && !Terminal(t[x].status)
    ensures forall x :: x in t && x != failed && !Terminal(t[x].status) ==> (x in blocked <==> x !in independent)
  {
    var g := DependencyGraph(t);
    var eligible := (set x | x in t) - {failed};
    var found := Spread(ids, g, eligible, {}, [failed]);
    assert eligible == g.Keys - {failed};
    forall x ensures x in found <==> x != failed && Depends(g, x, failed) {
      BehindFailure(g, failed, x);
    }
    blocked := ListSorted(found);
    independent := ListSorted(set x | x in t && x != failed && x !in found && !Terminal(t[x].status));
  }

  // ----- Stuck behind a permanent failure

  predicate PermanentlyFailed(t: Table, retryLimit: int, d: Id)
  {
    d in t && t[d].status == Failed && t[d].retryCount >= retryLimit
  }

  function WaitingIds(t: Table): set<Id>
  {
    set d | d in t && Waiting(t[d].status)
  }

  /** d waits, and a chain of waiting deliverables leads from it to a permanent failure. */
  ghost predicate Stuck(t: Table, retryLimit: int, d: Id)
  {
    exists f :: PermanentlyFailed(t, retryLimit, f) && Depends(Through(DependencyGraph(t), WaitingIds(t)), d, f)
  }

  ghost predicate DirectlyStuck(t: Table, retryLimit: int, d: Id)
  {
    d in t && Waiting(t[d].status) && exists f :: f in t[d].dependsOn && PermanentlyFailed(t, retryLimit, f)
  }

  method FindDirectlyStuck(ids: seq<Id>, t: Table, retryLimit: int) returns (seeds: seq<Id>)
    requires Lists(ids, t)
    ensures forall d :: d in seeds <==> DirectlyStuck(t, retryLimit, d)
  {
    seeds := [];
    for i := 0 to |ids|
      invariant forall d :: d in seeds <==> d in ids[..i] && DirectlyStuck(t, retryLimit, d)
    {
      var d := ids[i];
      assert ids[..i + 1] == ids[..i] + [d];
      if Waiting(t[d].status) {
        var deps := t[d].dependsOn;
        var j := 0;
        while j < |deps| && !(!Satisfied(t, deps[j]) && PermanentlyFailed(t, retryLimit, deps[j]))
          invariant j <= |deps|
          invariant forall k :: 0 <= k < j ==> !PermanentlyFailed(t, retryLimit, deps[k])
        {
          j := j + 1;
        }
        if j < |deps| {
          assert deps[j] in deps && DirectlyStuck(t, retryLimit, d);
          seeds := seeds + [d];
        }
      }
    }
    assert ids[..|ids|] == ids;
  }

  lemma StuckBehindSeeds(t: Table, retryLimit: int, seeds: seq<Id>, d: Id)
    requires forall x :: x in seeds <==> DirectlyStuck(t, retryLimit, x)
    ensures Stuck(t, retryLimit, d) <==> d in seeds || Behind(DependencyGraph(t), WaitingIds(t), seeds, d)
  {
    var g, w := DependencyGraph(t), WaitingIds(t);
    var h := Through(g, w);
    if Stuck(t, retryLimit, d) {
      var f :| PermanentlyFailed(t, retryLimit, f) && Depends(h, d, f);
      var c :| Edge(h, d, c) && Reach(h, c, f);
      ReachLast(h, c, f);
      if c == f {
        assert DirectlyStuck(t, retryLimit, d);
      } else {
        var s :| Reach(h, c, s) && Edge(h, s, f);
        assert DirectlyStuck(t, retryLimit, s);
        assert Depends(h, d, s);
      }
    }
    if d in seeds {
      var f :| f in t[d].dependsOn && PermanentlyFailed(t, retryLimit, f);
      assert Edge(h, d, f);
      ReachSelf(h, f);
    } else if Behind(g, w, seeds, d) {
      var s :| s in seeds && Depends(h, d, s);
      var f :| f in t[s].dependsOn && PermanentlyFailed(t, retryLimit, f);
      assert Edge(h, s, f);
      DependsReach(h, d, s);
      ReachThenEdge(h, d, s, f);
    }
  }

  /** The seeds and the search of the batch loop's last step find exactly what is stuck. */
  method FindStuck(ids: seq<Id>, t: Table, retryLimit: int) returns (stuck: set<Id>)
    requires Lists(ids, t)
    ensures forall d :: d in stuck <==> Stuck(t, retryLimit, d)
  {
    var seeds := FindDirectlyStuck(ids, t, retryLimit);
    var g, w := DependencyGraph(t), WaitingIds(t);
    stuck := Spread(ids, g, w, (set x | x in seeds), seeds);
    forall d ensures d in stuck <==> Stuck(t, retryLimit, d) {
      StuckBehindSeeds(t, retryLimit, seeds, d);
    }
  }

  /** What stuck should mean: a waiting deliverable is stuck when it depends on a permanent
      failure or on something stuck. */
  ghost predicate StuckRule(t: Table, retryLimit: int, s: set<Id>)
  {
    forall d, dep ::
      d in t && Waiting(t[d].status) && dep in t[d].dependsOn && Blocking(t, retryLimit, s, dep) ==> d in s
  }

  ghost predicate Blocking(t: Table, retryLimit: int, s: set<Id>, dep: Id)
  {
    (dep in t && t[dep].status == Failed && t[dep].retryCount >= retryLimit) || dep in s
  }

  /** The skipped set obeys the rule and is contained in every set that does. */
  lemma StuckIsLeast(t: Table, retryLimit: int, stuck: set<Id>)
    requires forall d :: d in stuck <==> Stuck(t, retryLimit, d)
    ensures StuckRule(t, retryLimit, stuck)
    ensures forall s :: StuckRule(t, retryLimit, s) ==> stuck <= s
  {
    var h := Through(DependencyGraph(t), WaitingIds(t));
    forall d, dep |
      d in t && Waiting(t[d].status) && dep in t[d].dependsOn && Blocking(t, retryLimit, stuck, dep)
      ensures d in stuck
    {
      assert Edge(h, d, dep);
      if PermanentlyFailed(t, retryLimit, dep) {
        ReachSelf(h, dep);
        assert Depends(h, d, dep);
      } else {
        var f :| PermanentlyFailed(t, retryLimit, f) && Depends(h, dep, f);
        DependsReach(h, dep, f);
        assert Depends(h, d, f);
      }
    }
    forall s | StuckRule(t, retryLimit, s) ensures stuck <= s {
      forall d | d in stuck ensures d in s {
        StuckInsideRule(t, retryLimit, s, d);
      }
    }
  }

  lemma StuckInsideRule(t: Table, retryLimit: int, s: set<Id>, d: Id)
    requires StuckRule(t, retryLimit, s) && Stuck(t, retryLimit, d)
    ensures d in s
  {
    var h := Through(DependencyGraph(t), WaitingIds(t));
    var f :| PermanentlyFailed(t, retryLimit, f) && Depends(h, d, f);
    var c :| Edge(h, d, c) && Reach(h, c, f);
    var all := s + {f};
    forall x, y | Edge(h, x, y) && y in all ensures x in all {
      assert x in t && Waiting(t[x].status) && y in t[x].dependsOn && Blocking(t, retryLimit, s, y);
    }
    ClosedBackwards(h, all, c, f);
    assert d in t && Waiting(t[d].status) && c in t[d].dependsOn && Blocking(t, retryLimit, s, c);
  }

  /** d depends on a permanent failure: evaluate_failure_impact would name it blocked. */
  ghost predicate Impacted(t: Table, retryLimit: int, d: Id)
  {
    exists f :: PermanentlyFailed(t, retryLimit, f) && d != f && Depends(DependencyGraph(t), d, f)
  }

  /** What is skipped is always part of the failures' impact, and is all of it whenever
      every dependent of a permanent failure is still waiting. */
  lemma SkippedWithinImpact(t: Table, retryLimit: int, d: Id)
    ensures Stuck(t, retryLimit, d) ==> Impacted(t, retryLimit, d)
    ensures (forall x, f :: PermanentlyFailed(t, retryLimit, f) && x != f && Depends(DependencyGraph(t), x, f) ==>
               Waiting(t[x].status)) ==>
              (Stuck(t, retryLimit, d) <==> Impacted(t, retryLimit, d))
  {
    var g, w := DependencyGraph(t), WaitingIds(t);
    var h := Through(g, w);
    if Stuck(t, retryLimit, d) {
      var f :| PermanentlyFailed(t, retryLimit, f) && Depends(h, d, f);
      var c :| Edge(h, d, c) && Reach(h, c, f);
      ReachMonotone(h, g, c, f);
      assert Depends(g, d, f) && d != f;
    }
    if forall x, f :: PermanentlyFailed(t, retryLimit, f) && x != f && Depends(g, x, f) ==> Waiting(t[x].status) {
      if f :| PermanentlyFailed(t, retryLimit, f) && d != f && Depends(g, d, f) {
        BehindFailure(g, f, d);
        var k := Through(g, g.Keys - {f});
        var c :| Edge(k, d, c) && Reach(k, c, f);
        var p :| IsPath(k, p, c, f);
        WaitingPath(t, f, p, c);
        assert Edge(h, d, c) by { assert Waiting(t[d].status); }
        assert Depends(h, d, f);
      }
    }
  }

  /** All that is blocked is skipped exactly when every blocked deliverable is still waiting. */
  lemma SkippedIsImpact(t: Table, retryLimit: int)
    ensures (forall d :: Impacted(t, retryLimit, d) <==> Stuck(t, retryLimit, d)) <==>
            (forall d :: Impacted(t, retryLimit, d) ==> d in t && Waiting(t[d].status))
  {
    forall d ensures Stuck(t, retryLimit, d) ==> d in t && Waiting(t[d].status) {
      if Stuck(t, retryLimit, d) { StuckWaits(t, retryLimit, d); }
    }
    if forall d :: Impacted(t, retryLimit, d) ==> d in t && Waiting(t[d].status) {
      forall x, f | PermanentlyFailed(t, retryLimit, f) && x != f && Depends(DependencyGraph(t), x, f)
        ensures x in t && Waiting(t[x].status)
      {
        assert Impacted(t, retryLimit, x);
      }
      forall d ensures Impacted(t, retryLimit, d) <==> Stuck(t, retryLimit, d) {
        SkippedWithinImpact(t, retryLimit, d);
      }
    }
  }

  lemma StuckWaits(t: Table, retryLimit: int, d: Id)
    requires Stuck(t, retryLimit, d)
    ensures d in t && Waiting(t[d].status)
  {
    var f :| PermanentlyFailed(t, retryLimit, f) && Depends(Through(DependencyGraph(t), WaitingIds(t)), d, f);
  }

  lemma {:induction false} WaitingPath(t: Table, f: Id, p: seq<Id>, a: Id)
    requires IsPath(Through(DependencyGraph(t), DependencyGraph(t).Keys - {f}), p, a, f)
    requires forall x :: x != f && Depends(DependencyGraph(t), x, f) ==> x in t && Waiting(t[x].status)
    ensures Reach(Through(DependencyGraph(t), WaitingIds(t)), a, f)
  {
    var g := DependencyGraph(t);
    var k, h := Through(g, g.Keys - {f}), Through(g, WaitingIds(t));
    if |p| == 1 {
      ReachSelf(h, f);
    } else {
      assert Edge(k, p[0], p[1]);
      assert IsPath(k, p[1..], p[1], f);
      ReachMonotone(k, g, p[1], f);
      assert Depends(g, a, f);
      WaitingPath(t, f, p[1..], p[1]);
      ReachEdge(h, a, p[1]);
      ReachTransitive(h, a, p[1], f);
    }
  }
}
