/** DependencyResolverAgent._topological_sort: Kahn's algorithm with a sorted queue. */
module DependencyResolver {
  import opened Ids
  import opened Graphs

  /** The dependencies of a name that are themselves names, repetitions included. */
  function Inside(g: Graph, names: seq<Id>, n: Id): (r: seq<Id>)
    ensures forall d :: d in r <==> n in g && d in g[n] && d in names
  {
    KeepIn(if n in g then g[n] else [], set x | x in names)
  }

  /** The graph the resolver works on. */
  function NamedGraph(g: Graph, names: seq<Id>): Graph
  {
    map n | n in names :: Inside(g, names, n)
  }

  /** Some name lists one of the names at two places. */
  ghost predicate RepeatsDependency(g: Graph, names: seq<Id>)
  {
    exists n, i, j :: n in names && n in g && 0 <= i < j < |g[n]| && g[n][i] == g[n][j] && g[n][i] in names
  }

  lemma {:induction false} KeptTwice(s: seq<Id>, keep: set<Id>)
    ensures Distinct(KeepIn(s, keep)) <==> forall i, j :: 0 <= i < j < |s| && s[i] in keep ==> s[i] != s[j]
  {
    if s != [] {
      var t := s[1..];
      KeptTwice(t, keep);
      assert s == [s[0]] + t;
      DistinctCons([s[0]] + KeepIn(t, keep));
      assert ([s[0]] + KeepIn(t, keep))[1..] == KeepIn(t, keep);
      if s[0] in keep && s[0] in t {
        var j :| 0 <= j < |t| && t[j] == s[0];
        assert s[j + 1] == s[0];
      }
    }
  }

  ghost predicate ListsOnce(g: Graph, names: seq<Id>)
  {
    forall n :: n in names ==> Distinct(Inside(g, names, n))
  }

  lemma RepeatsExactly(g: Graph, names: seq<Id>)
    ensures RepeatsDependency(g, names) <==> !ListsOnce(g, names)
  {
    var keep := set x | x in names;
    forall n | n in names && n in g
      ensures Distinct(Inside(g, names, n)) <==>
              forall i, j :: 0 <= i < j < |g[n]| && g[n][i] in names ==> g[n][i] != g[n][j]
    {
      KeptTwice(g[n], keep);
    }
  }

  // ----- The lexicographic order on results

  ghost predicate DiffersAt(a: seq<Id>, b: seq<Id>, k: nat)
  {
    k < |a| && k < |b| && a[..k] == b[..k] && a[k] != b[k]
  }

  ghost predicate LexLeq(a: seq<Id>, b: seq<Id>)
  {
    a == b || exists k: nat :: DiffersAt(a, b, k) && Precedes(a[k].text, b[k].text)
  }

  lemma {:induction false} FirstDifference(a: seq<Id>, b: seq<Id>, from: nat) returns (k: nat)
    requires |a| == |b| && a != b && from <= |a| && a[..from] == b[..from]
    ensures DiffersAt(a, b, k)
    decreases |a| - from
  {
    assert from < |a| by {
      assert a == a[..|a|] && b == b[..|b|];
    }
    if a[from] != b[from] {
      k := from;
    } else {
      assert a[..from + 1] == a[..from] + [a[from]] && b[..from + 1] == b[..from] + [b[from]];
      k := FirstDifference(a, b, from + 1);
    }
  }

  // ----- What the loop takes, and when

  function Count(s: seq<Id>, n: Id): nat
  {
    multiset(s)[n]
  }

  /** By how much the sorted names have lowered the count of a name with these dependencies:
      every one of them that is a dependency is seen once for each time the name is listed. */
  ghost function Lowered(deps: seq<Id>, times: nat, sorted: seq<Id>): nat
  {
    if sorted == [] then 0
    else Lowered(deps, times, sorted[..|sorted| - 1]) + if sorted[|sorted| - 1] in deps then times else 0
  }

  /** How often a name may have been taken once its count has been lowered so far: without
      dependencies as often as it is listed, otherwise once when the count is used up. */
  ghost function QuotaAt(g: Graph, names: seq<Id>, n: Id, lowered: nat): nat
  {
    var deps := Inside(g, names, n);
    if n !in names then 0
    else if deps == [] then Count(names, n)
    else if lowered >= |deps| then 1
    else 0
  }

  ghost function Quota(g: Graph, names: seq<Id>, sorted: seq<Id>, n: Id): nat
  {
    QuotaAt(g, names, n, Lowered(Inside(g, names, n), Count(names, n), sorted))
  }

  /** A name that may come next. */
  ghost predicate Available(g: Graph, names: seq<Id>, sorted: seq<Id>, n: Id)
  {
    Count(sorted, n) < Quota(g, names, sorted, n)
  }

  /** The k-th sorted name was available when it was taken, and was the least that was. */
  ghost predicate TakenAt(g: Graph, names: seq<Id>, sorted: seq<Id>, k: nat)
    requires k < |sorted|
  {
    && Available(g, names, sorted[..k], sorted[k])
    && forall n :: Available(g, names, sorted[..k], n) ==> Precedes(sorted[k].text, n.text)
  }

  ghost predicate Greedy(g: Graph, names: seq<Id>, sorted: seq<Id>)
  {
    forall k {:trigger TakenAt(g, names, sorted, k)} :: 0 <= k < |sorted| ==> TakenAt(g, names, sorted, k)
  }

  /** The least available name is taken until none is available. */
  ghost predicate Course(g: Graph, names: seq<Id>, result: seq<Id>)
  {
    Greedy(g, names, result) && forall n :: !Available(g, names, result, n)
  }

  lemma {:induction false} LoweredGrows(deps: seq<Id>, times: nat, sorted: seq<Id>, k: nat)
    requires k <= |sorted|
    ensures Lowered(deps, times, sorted[..k]) <= Lowered(deps, times, sorted)
  {
    if k == |sorted| {
      assert sorted[..k] == sorted;
    } else {
      assert sorted[..|sorted| - 1][..k] == sorted[..k];
      LoweredGrows(deps, times, sorted[..|sorted| - 1], k);
    }
  }

  lemma GreedyFront(g: Graph, names: seq<Id>, sorted: seq<Id>, k: nat)
    requires Greedy(g, names, sorted) && k <= |sorted|
    ensures Greedy(g, names, sorted[..k])
  {
    forall j | 0 <= j < k ensures TakenAt(g, names, sorted[..k], j) {
      assert TakenAt(g, names, sorted, j);
      assert sorted[..k][..j] == sorted[..j];
    }
  }

  lemma CountAppend(s: seq<Id>, x: Id, n: Id)
    ensures Count(s + [x], n) == Count(s, n) + if x == n then 1 else 0
  {
    assert multiset(s + [x]) == multiset(s) + multiset{x};
  }

  lemma CountPositive(s: seq<Id>, n: Id)
    ensures n in s <==> Count(s, n) > 0
  {
    assert n in s <==> n in multiset(s);
  }

  lemma QuotaGrows(g: Graph, names: seq<Id>, sorted: seq<Id>, k: nat, n: Id)
    requires k <= |sorted|
    ensures Quota(g, names, sorted[..k], n) <= Quota(g, names, sorted, n) <= Count(names, n)
  {
    LoweredGrows(Inside(g, names, n), Count(names, n), sorted, k);
    CountPositive(names, n);
  }

  lemma TakenWithinQuota(g: Graph, names: seq<Id>, front: seq<Id>, x: Id, n: Id)
    requires Count(front, n) <= Quota(g, names, front, n) && Available(g, names, front, x)
    ensures Count(front + [x], n) <= Quota(g, names, front, n)
  {
    CountAppend(front, x, n);
  }

  lemma {:induction false} CountWithinQuota(g: Graph, names: seq<Id>, sorted: seq<Id>, n: Id)
    requires Greedy(g, names, sorted)
    ensures Count(sorted, n) <= Quota(g, names, sorted, n) <= Count(names, n)
  {
    if sorted == [] {
      QuotaGrows(g, names, sorted, 0, n);
    } else {
      var front, x := sorted[..|sorted| - 1], sorted[|sorted| - 1];
      GreedyFront(g, names, sorted, |sorted| - 1);
      CountWithinQuota(g, names, front, n);
      LastAvailable(g, names, sorted);
      TakenWithinQuota(g, names, front, x, n);
      assert sorted == front + [x];
      QuotaGrows(g, names, sorted, |sorted| - 1, n);
    }
  }

  lemma LastAvailable(g: Graph, names: seq<Id>, sorted: seq<Id>)
    requires Greedy(g, names, sorted) && sorted != []
    ensures Available(g, names, sorted[..|sorted| - 1], sorted[|sorted| - 1])
  {
    assert TakenAt(g, names, sorted, |sorted| - 1);
  }

  /** The course is determined by the graph and the names. */
  lemma CourseUnique(g: Graph, names: seq<Id>, a: seq<Id>, b: seq<Id>)
    requires Course(g, names, a) && Course(g, names, b)
    ensures a == b
  {
    if a != b {
      var k := Fork(a, b, 0);
      if k < |a| { NotLonger(g, names, a, b, k); } else { NotLonger(g, names, b, a, k); }
      assert TakenAt(g, names, a, k) && TakenAt(g, names, b, k);
      PlainLeq(a[k], b[k]);
      PlainLeq(b[k], a[k]);
      LeqAntisymmetric(map[], a[k], b[k]);
    }
  }

  lemma NotLonger(g: Graph, names: seq<Id>, a: seq<Id>, b: seq<Id>, k: nat)
    requires Greedy(g, names, a) && Course(g, names, b)
    requires k < |a| && k <= |b| && a[..k] == b[..k]
    ensures k < |b|
  {
    assert TakenAt(g, names, a, k);
    assert b[..|b|] == b;
  }

  /** The first position at which two sequences part. */
  lemma {:induction false} Fork(a: seq<Id>, b: seq<Id>, from: nat) returns (k: nat)
    requires a != b && from <= |a| && from <= |b| && a[..from] == b[..from]
    ensures k <= |a| && k <= |b| && a[..k] == b[..k] && (k < |a| || k < |b|)
    ensures k < |a| && k < |b| ==> a[k] != b[k]
    decreases |a| - from
  {
    if from == |a| || from == |b| || a[from] != b[from] {
      k := from;
      assert a[..|a|] == a && b[..|b|] == b;
    } else {
      assert a[..from + 1] == a[..from] + [a[from]] && b[..from + 1] == b[..from] + [b[from]];
      k := Fork(a, b, from + 1);
    }
  }

  // ----- The state of the loop

  function Max(a: int, b: int): int
  {
    if a < b then b else a
  }

  /** What the loop knows of one name whose count has been lowered so far: the count itself,
      and that the name has been taken or queued as often as it may. */
  ghost predicate Tracked(g: Graph, names: seq<Id>, inDeg: map<Id, int>, sorted: seq<Id>, queue: seq<Id>, n: Id,
                          lowered: nat)
  {
    && (n in names ==> n in inDeg && inDeg[n] == Max(0, |Inside(g, names, n)| - lowered))
    && Count(sorted, n) + Count(queue, n) == QuotaAt(g, names, n, lowered)
  }

  ghost predicate Settled(g: Graph, names: seq<Id>, inDeg: map<Id, int>, sorted: seq<Id>, queue: seq<Id>, n: Id)
  {
    Tracked(g, names, inDeg, sorted, queue, n, Lowered(Inside(g, names, n), Count(names, n), sorted))
  }

  ghost predicate SortState(g: Graph, names: seq<Id>, inDeg: map<Id, int>, sorted: seq<Id>, queue: seq<Id>)
  {
    && Greedy(g, names, sorted) && Sorted(map[], queue)
    && forall n {:trigger Settled(g, names, inDeg, sorted, queue, n)} :: Settled(g, names, inDeg, sorted, queue, n)
  }

  lemma InQueueMeansAvailable(g: Graph, names: seq<Id>, inDeg: map<Id, int>, sorted: seq<Id>, queue: seq<Id>, n: Id)
    requires SortState(g, names, inDeg, sorted, queue)
    ensures n in queue <==> Available(g, names, sorted, n)
    ensures n in queue ==> n in names
  {
    assert Settled(g, names, inDeg, sorted, queue, n);
    assert n in queue <==> n in multiset(queue);
  }

  lemma GreedyExtends(g: Graph, names: seq<Id>, inDeg: map<Id, int>, sorted: seq<Id>, queue: seq<Id>)
    requires SortState(g, names, inDeg, sorted, queue) && queue != []
    ensures Greedy(g, names, sorted + [queue[0]])
  {
    var next := sorted + [queue[0]];
    forall k | 0 <= k < |next| ensures TakenAt(g, names, next, k) {
      if k < |sorted| {
        assert next[..k] == sorted[..k];
        assert TakenAt(g, names, sorted, k);
      } else {
        assert next[..k] == sorted;
        InQueueMeansAvailable(g, names, inDeg, sorted, queue, queue[0]);
        forall n | Available(g, names, sorted, n) ensures Precedes(queue[0].text, n.text) {
          PlainLeq(queue[0], n);
          InQueueMeansAvailable(g, names, inDeg, sorted, queue, n);
          var j :| 0 <= j < |queue| && queue[j] == n;
          LeqTotal(map[], n, n);
        }
      }
    }
  }

  // ----- The inner loop

  /** How far a count is lowered when the node just taken has been compared with some names. */
  ghost function Level(g: Graph, names: seq<Id>, sorted: seq<Id>, node: Id, seen: seq<Id>, n: Id): nat
  {
    var deps := Inside(g, names, n);
    Lowered(deps, Count(names, n), sorted) + if node in deps then Count(seen, n) else 0
  }

  ghost predicate Underway(g: Graph, names: seq<Id>, seen: seq<Id>, inDeg: map<Id, int>, sorted: seq<Id>, node: Id,
                           queue: seq<Id>, n: Id)
  {
    Tracked(g, names, inDeg, sorted + [node], queue, n, Level(g, names, sorted, node, seen, n))
  }

  ghost predicate Visiting(g: Graph, names: seq<Id>, seen: seq<Id>, inDeg: map<Id, int>, sorted: seq<Id>, node: Id,
                           queue: seq<Id>)
  {
    && node in names && Sorted(map[], queue)
    && forall n {:trigger Underway(g, names, seen, inDeg, sorted, node, queue, n)} ::
         Underway(g, names, seen, inDeg, sorted, node, queue, n)
  }

  /** What one name of the inner loop changes. */
  predicate Hit(g: Graph, next: seq<Id>, node: Id, queue: seq<Id>, n: Id)
  {
    n in g && node in g[n] && n !in next && n !in queue
  }

  /** A name is hit exactly when it lists the node and its count is not used up. */
  lemma HitMeansOpen(g: Graph, names: seq<Id>, seen: seq<Id>, inDeg: map<Id, int>, sorted: seq<Id>, node: Id,
                     queue: seq<Id>, n: Id)
    requires n in names && node in names && Underway(g, names, seen, inDeg, sorted, node, queue, n)
    ensures Hit(g, sorted + [node], node, queue, n) <==>
            node in Inside(g, names, n) && Level(g, names, sorted, node, seen, n) < |Inside(g, names, n)|
  {
    var next := sorted + [node];
    assert n in next <==> n in multiset(next);
    assert n in queue <==> n in multiset(queue);
  }

  lemma VisitOthers(g: Graph, names: seq<Id>, seen: seq<Id>, inDeg: map<Id, int>, sorted: seq<Id>, node: Id,
                    queue: seq<Id>, n: Id, inDeg': map<Id, int>, queue': seq<Id>, m: Id)
    requires Underway(g, names, seen, inDeg, sorted, node, queue, m) && m != n
    requires m in inDeg ==> m in inDeg' && inDeg'[m] == inDeg[m]
    requires Count(queue', m) == Count(queue, m)
    ensures Underway(g, names, seen + [n], inDeg', sorted, node, queue', m)
  {
    assert Count(seen + [n], m) == Count(seen, m);
  }

  lemma VisitSelf(g: Graph, names: seq<Id>, seen: seq<Id>, inDeg: map<Id, int>, sorted: seq<Id>, node: Id,
                  queue: seq<Id>, n: Id, queue': seq<Id>)
    requires n in names && node in names && Underway(g, names, seen, inDeg, sorted, node, queue, n)
    requires Hit(g, sorted + [node], node, queue, n)
    requires n in inDeg && Count(queue', n) == Count(queue, n) + if inDeg[n] == 1 then 1 else 0
    ensures Underway(g, names, seen + [n], inDeg[n := inDeg[n] - 1], sorted, node, queue', n)
  {
    HitMeansOpen(g, names, seen, inDeg, sorted, node, queue, n);
    CountAppend(seen, n, n);
  }

  /** A name that is hit comes one step closer, and joins the queue when nothing is left. */
  lemma VisitHit(g: Graph, names: seq<Id>, seen: seq<Id>, inDeg: map<Id, int>, sorted: seq<Id>, node: Id,
                 queue: seq<Id>, n: Id)
    requires n in names && Visiting(g, names, seen, inDeg, sorted, node, queue)
    requires Hit(g, sorted + [node], node, queue, n)
    ensures n in inDeg
    ensures Visiting(g, names, seen + [n], inDeg[n := inDeg[n] - 1], sorted, node,
                     if inDeg[n] == 1 then SortIds(map[], queue + [n]) else queue)
  {
    assert Underway(g, names, seen, inDeg, sorted, node, queue, n);
    var inDeg' := inDeg[n := inDeg[n] - 1];
    var queue' := if inDeg[n] == 1 then SortIds(map[], queue + [n]) else queue;
    SortIdsSpec(map[], queue + [n]);
    forall m ensures Underway(g, names, seen + [n], inDeg', sorted, node, queue', m) {
      assert Underway(g, names, seen, inDeg, sorted, node, queue, m);
      CountAppend(queue, n, m);
      if m == n {
        VisitSelf(g, names, seen, inDeg, sorted, node, queue, n, queue');
      } else {
        VisitOthers(g, names, seen, inDeg, sorted, node, queue, n, inDeg', queue', m);
      }
    }
  }

  /** Any other name is left alone. */
  lemma VisitMiss(g: Graph, names: seq<Id>, seen: seq<Id>, inDeg: map<Id, int>, sorted: seq<Id>, node: Id,
                  queue: seq<Id>, n: Id)
    requires n in names && Visiting(g, names, seen, inDeg, sorted, node, queue)
    requires !Hit(g, sorted + [node], node, queue, n)
    ensures Visiting(g, names, seen + [n], inDeg, sorted, node, queue)
  {
    assert Underway(g, names, seen, inDeg, sorted, node, queue, n);
    HitMeansOpen(g, names, seen, inDeg, sorted, node, queue, n);
    forall m ensures Underway(g, names, seen + [n], inDeg, sorted, node, queue, m) {
      if m != n {
        assert Underway(g, names, seen, inDeg, sorted, node, queue, m);
        VisitOthers(g, names, seen, inDeg, sorted, node, queue, n, inDeg, queue, m);
      }
    }
  }

  ghost function Unseen(names: seq<Id>, sorted: seq<Id>, queue: seq<Id>): set<Id>
  {
    Elems(names) - Elems(sorted) - Elems(queue)
  }

  lemma EnqueueShrinks(names: seq<Id>, next: seq<Id>, queue: seq<Id>, n: Id)
    requires n in names && n !in next && n !in queue
    ensures Unseen(names, next, SortIds(map[], queue + [n])) < Unseen(names, next, queue)
  {
    var q := SortIds(map[], queue + [n]);
    SortIdsSpec(map[], queue + [n]);
    assert Elems(q) == Elems(queue) + {n};
    assert n in Unseen(names, next, queue);
  }

  /** The inner loop: every unsorted, unqueued name that lists the node comes one step closer. */
  method VisitDependents(g: Graph, names: seq<Id>, node: Id, inDeg0: map<Id, int>, ghost sorted: seq<Id>,
                         result: seq<Id>, queue0: seq<Id>)
    returns (inDeg: map<Id, int>, queue: seq<Id>)
    requires result == sorted + [node] && Visiting(g, names, [], inDeg0, sorted, node, queue0)
    ensures Visiting(g, names, names, inDeg, sorted, node, queue)
    ensures queue == queue0 || Unseen(names, result, queue) < Unseen(names, result, queue0)
  {
    inDeg, queue := inDeg0, queue0;
    for i := 0 to |names|
      invariant Visiting(g, names, names[..i], inDeg, sorted, node, queue)
      invariant queue == queue0 || Unseen(names, result, queue) < Unseen(names, result, queue0)
    {
      var name := names[i];
      assert names[..i + 1] == names[..i] + [name];
      if Hit(g, result, node, queue, name) {
        VisitHit(g, names, names[..i], inDeg, sorted, node, queue, name);
        inDeg := inDeg[name := inDeg[name] - 1];
        if inDeg[name] == 0 {
          EnqueueShrinks(names, result, queue, name);
          queue := SortIds(map[], queue + [name]);
        }
      } else {
        VisitMiss(g, names, names[..i], inDeg, sorted, node, queue, name);
      }
    }
    assert names[..|names|] == names;
  }

  // ----- The outer loop

  method CountInDegrees(g: Graph, names: seq<Id>) returns (inDeg: map<Id, int>)
    ensures inDeg == map n | n in names :: |Inside(g, names, n)|
  {
    inDeg := map n | n in names :: |Inside(g, names, n)|;
  }

  method InitialQueue(g: Graph, names: seq<Id>, inDeg: map<Id, int>) returns (queue: seq<Id>)
    requires inDeg == map n | n in names :: |Inside(g, names, n)|
    ensures SortState(g, names, inDeg, [], queue)
  {
    var zero: seq<Id> := [];
    for i := 0 to |names|
      invariant forall n :: Count(zero, n) == if Inside(g, names, n) == [] then Count(names[..i], n) else 0
    {
      assert names[..i + 1] == names[..i] + [names[i]];
      ghost var before := zero;
      if inDeg[names[i]] == 0 {
        zero := zero + [names[i]];
      }
      forall n ensures Count(zero, n) == if Inside(g, names, n) == [] then Count(names[..i + 1], n) else 0 {
        CountAppend(before, names[i], n);
        CountAppend(names[..i], names[i], n);
      }
    }
    assert names[..|names|] == names;
    queue := SortIds(map[], zero);
    SortIdsSpec(map[], zero);
    StartIsSettled(g, names, inDeg, zero, queue);
  }

  lemma StartIsSettled(g: Graph, names: seq<Id>, inDeg: map<Id, int>, zero: seq<Id>, queue: seq<Id>)
    requires inDeg == map n | n in names :: |Inside(g, names, n)|
    requires forall n :: Count(zero, n) == if Inside(g, names, n) == [] then Count(names, n) else 0
    requires multiset(queue) == multiset(zero) && Sorted(map[], queue)
    ensures SortState(g, names, inDeg, [], queue)
  {
    forall n ensures Settled(g, names, inDeg, [], queue, n) {
      NameAtStart(g, names, inDeg, zero, queue, n);
    }
  }

  lemma NameAtStart(g: Graph, names: seq<Id>, inDeg: map<Id, int>, zero: seq<Id>, queue: seq<Id>, n: Id)
    requires n in names ==> n in inDeg && inDeg[n] == |Inside(g, names, n)|
    requires Count(queue, n) == if Inside(g, names, n) == [] then Count(names, n) else 0
    ensures Settled(g, names, inDeg, [], queue, n)
  {
    CountPositive(names, n);
  }

  lemma TurnBegins(g: Graph, names: seq<Id>, inDeg: map<Id, int>, sorted: seq<Id>, queue: seq<Id>)
    requires SortState(g, names, inDeg, sorted, queue) && queue != []
    ensures Greedy(g, names, sorted + [queue[0]])
    ensures Visiting(g, names, [], inDeg, sorted, queue[0], queue[1..])
  {
    var node, next := queue[0], sorted + [queue[0]];
    GreedyExtends(g, names, inDeg, sorted, queue);
    InQueueMeansAvailable(g, names, inDeg, sorted, queue, node);
    assert queue == [node] + queue[1..];
    assert multiset(queue) == multiset{node} + multiset(queue[1..]);
    assert multiset(next) == multiset(sorted) + multiset{node};
    forall n ensures Underway(g, names, [], inDeg, sorted, node, queue[1..], n) {
      assert Settled(g, names, inDeg, sorted, queue, n);
    }
  }

  lemma TurnEnds(g: Graph, names: seq<Id>, inDeg: map<Id, int>, sorted: seq<Id>, node: Id, queue: seq<Id>)
    requires Greedy(g, names, sorted + [node]) && Visiting(g, names, names, inDeg, sorted, node, queue)
    ensures SortState(g, names, inDeg, sorted + [node], queue)
  {
    forall n ensures Settled(g, names, inDeg, sorted + [node], queue, n) {
      assert Underway(g, names, names, inDeg, sorted, node, queue, n);
      LevelAtEnd(g, names, sorted, node, n);
    }
  }

  lemma LevelAtEnd(g: Graph, names: seq<Id>, sorted: seq<Id>, node: Id, n: Id)
    ensures Level(g, names, sorted, node, names, n) ==
            Lowered(Inside(g, names, n), Count(names, n), sorted + [node])
  {
    assert (sorted + [node])[..|sorted|] == sorted;
  }

  /** One turn: take the head of the queue and visit its dependents. */
  method Turn(g: Graph, names: seq<Id>, inDeg0: map<Id, int>, sorted: seq<Id>, queue0: seq<Id>)
    returns (inDeg: map<Id, int>, result: seq<Id>, queue: seq<Id>)
    requires queue0 != [] && SortState(g, names, inDeg0, sorted, queue0)
    ensures SortState(g, names, inDeg, result, queue)
    ensures || Unseen(names, result, queue) < Unseen(names, sorted, queue0)
            || (Unseen(names, result, queue) == Unseen(names, sorted, queue0) && |queue| < |queue0|)
  {
    var node := queue0[0];
    TurnBegins(g, names, inDeg0, sorted, queue0);
    queue, result := queue0[1..], sorted + [node];
    TakeKeepsUnseen(names, sorted, queue0);
    inDeg, queue := VisitDependents(g, names, node, inDeg0, sorted, result, queue);
    TurnEnds(g, names, inDeg, sorted, node, queue);
  }

  lemma TakeKeepsUnseen(names: seq<Id>, sorted: seq<Id>, queue: seq<Id>)
    requires queue != []
    ensures Unseen(names, sorted + [queue[0]], queue[1..]) == Unseen(names, sorted, queue)
  {
  }

  /** The names contain no cycle and no name lists another twice. */
  ghost predicate Orderable(g: Graph, names: seq<Id>)
  {
    !HasCycle(NamedGraph(g, names)) && !RepeatsDependency(g, names)
  }

  /** No name depends on one that is listed more than once. */
  ghost predicate NeedsNoRepeated(g: Graph, names: seq<Id>)
  {
    forall n, d :: n in names && d in Inside(g, names, n) ==> Count(names, d) == 1
  }

  /** A name that is listed more than once depends on none of the names. */
  ghost predicate RepeatedAreFree(g: Graph, names: seq<Id>)
  {
    forall n :: n in names && Count(names, n) > 1 ==> Inside(g, names, n) == []
  }

  /** All names, each as often as it is listed, everywhere after all it depends on. */
  ghost predicate OrderOf(g: Graph, names: seq<Id>, t: seq<Id>)
  {
    && multiset(t) == multiset(names)
    && forall i, j :: 0 <= i < |t| && 0 <= j < |t| && t[i] in g && t[j] in g[t[i]] ==> j < i
  }

  /** The order respects the dependencies and no other such order comes before it. */
  ghost predicate LeastOrder(g: Graph, names: seq<Id>, order: seq<Id>)
  {
    OrderOf(g, names, order) && forall t :: OrderOf(g, names, t) ==> LexLeq(order, t)
  }

  /** Kahn's algorithm with a sorted queue. Whatever the names, the least available one is
      taken until none is, and the answer is what was taken if that is as long as the list. A
      repeated name with dependencies always makes it None. As long as no name depends on a
      repeated one, the answer is None exactly when the names contain a cycle, some name lists
      another twice or a repeated name has dependencies; otherwise it is the
      lexicographically least of all orders that respect the dependencies. */
  method TopologicalSort(names: seq<Id>, g: Graph) returns (order: Option<seq<Id>>)
    ensures exists result ::
              Course(g, names, result) && order == if |result| == |names| then Some(result) else None
    ensures !RepeatedAreFree(g, names) ==> order.None?
    ensures NeedsNoRepeated(g, names) ==> (order.Some? <==> Orderable(g, names) && RepeatedAreFree(g, names))
    ensures NeedsNoRepeated(g, names) && order.Some? ==> LeastOrder(g, names, order.value)
    ensures Distinct(names) ==> (order.Some? <==> Orderable(g, names))
    ensures Distinct(names) && order.Some? ==>
              LeastOrder(g, names, order.value) && DependenciesFirst(NamedGraph(g, names), order.value)
  {
    var inDeg := CountInDegrees(g, names);
    var queue := InitialQueue(g, names, inDeg);
    var result: seq<Id> := [];
    while queue != []
      invariant SortState(g, names, inDeg, result, queue)
      decreases Unseen(names, result, queue), |queue|
    {
      inDeg, result, queue := Turn(g, names, inDeg, result, queue);
    }
    order := if |result| == |names| then Some(result) else None;
    EmptyQueueEndsCourse(g, names, inDeg, result);
    SortDecides(g, names, result);
  }

  lemma EmptyQueueEndsCourse(g: Graph, names: seq<Id>, inDeg: map<Id, int>, result: seq<Id>)
    requires SortState(g, names, inDeg, result, [])
    ensures Course(g, names, result)
  {
    forall n ensures !Available(g, names, result, n) {
      InQueueMeansAvailable(g, names, inDeg, result, [], n);
    }
  }

  // ----- What the end of the course means

  lemma CourseCounts(g: Graph, names: seq<Id>, result: seq<Id>, n: Id)
    requires Course(g, names, result)
    ensures Count(result, n) == Quota(g, names, result, n) <= Count(names, n)
  {
    CountWithinQuota(g, names, result, n);
    assert !Available(g, names, result, n);
  }

  /** Comparing lengths tells whether every name has been taken as often as it is listed. */
  lemma LengthTellsAll(g: Graph, names: seq<Id>, result: seq<Id>)
    requires Course(g, names, result)
    ensures |result| == |names| <==> multiset(result) == multiset(names)
    ensures |result| == |names| <==> forall n :: n in names ==> Quota(g, names, result, n) == Count(names, n)
  {
    var a, b := multiset(result), multiset(names);
    forall n ensures a[n] <= b[n] && a[n] == Quota(g, names, result, n) {
      CourseCounts(g, names, result, n);
    }
    assert a <= b && |a| == |result| && |b| == |names|;
    assert |b - a| == |b| - |a| by { assert a * b == a && a - b == multiset{}; }
    assert a == b <==> b - a == multiset{};
    assert forall n :: n in names <==> n in b;
    if forall n :: n in names ==> Quota(g, names, result, n) == Count(names, n) {
      forall n ensures a[n] == b[n] {
        assert n in names || b[n] == 0;
      }
      assert a == b;
    }
  }

  lemma RepeatedNeverDone(g: Graph, names: seq<Id>, result: seq<Id>)
    requires Course(g, names, result) && !RepeatedAreFree(g, names)
    ensures |result| != |names|
  {
    var n :| n in names && Count(names, n) > 1 && Inside(g, names, n) != [];
    LengthTellsAll(g, names, result);
    assert Quota(g, names, result, n) <= 1;
  }

  // ----- Counting dependencies that occur once

  ghost function Pending(deps: seq<Id>, sorted: seq<Id>): int
  {
    |deps| - |Elems(deps) * Elems(sorted)|
  }

  lemma PendingZero(deps: seq<Id>, sorted: seq<Id>)
    ensures Pending(deps, sorted) >= 0
    ensures Pending(deps, sorted) == 0 <==> Distinct(deps) && forall d :: d in deps ==> d in sorted
  {
    var e, r := Elems(deps), Elems(sorted);
    ElemsCard(deps);
    Subcard(e * r, e);
    if d :| d in deps && d !in sorted {
      assert d in e && d !in e * r;
      Subcard(e * r, e - {d});
    } else {
      assert e * r == e;
    }
  }

  lemma PendingStep(deps: seq<Id>, sorted: seq<Id>, node: Id)
    requires node in deps ==> node !in sorted
    ensures Pending(deps, sorted + [node]) == Pending(deps, sorted) - if node in deps then 1 else 0
  {
    var e, r := Elems(deps), Elems(sorted);
    assert Elems(sorted + [node]) == r + {node};
    assert e * (r + {node}) == if node in deps then e * r + {node} else e * r;
  }

  lemma {:induction false} LoweredOnce(deps: seq<Id>, sorted: seq<Id>)
    requires forall d :: d in deps ==> Count(sorted, d) <= 1
    ensures Lowered(deps, 1, sorted) == |deps| - Pending(deps, sorted)
  {
    if sorted == [] {
      assert Elems(deps) * Elems(sorted) == {};
    } else {
      var front, last := sorted[..|sorted| - 1], sorted[|sorted| - 1];
      assert sorted == front + [last];
      forall d | d in deps ensures Count(front, d) <= 1 && (d == last ==> d !in front) {
        CountAppend(front, last, d);
        CountPositive(front, d);
      }
      LoweredOnce(deps, front);
      PendingStep(deps, front, last);
    }
  }

  /** When dependencies are not repeated, a name with dependencies may be taken exactly when
      all of them have been, provided it lists none twice. */
  lemma ReleasedExactly(g: Graph, names: seq<Id>, sorted: seq<Id>, n: Id)
    requires NeedsNoRepeated(g, names) && Greedy(g, names, sorted)
    requires n in names && Count(names, n) == 1 && Inside(g, names, n) != []
    ensures Quota(g, names, sorted, n) == 1 <==>
            Distinct(Inside(g, names, n)) && forall d :: d in Inside(g, names, n) ==> d in sorted
  {
    var deps := Inside(g, names, n);
    forall d | d in deps ensures Count(sorted, d) <= 1 {
      CountWithinQuota(g, names, sorted, d);
    }
    LoweredOnce(deps, sorted);
    PendingZero(deps, sorted);
  }

  // ----- Full length means an order

  lemma TwoPlaces(s: seq<Id>, j: nat, k: nat)
    requires j < k < |s| && s[j] == s[k]
    ensures Count(s, s[j]) >= 2
  {
    assert s == s[..k] + s[k..];
    assert multiset(s) == multiset(s[..k]) + multiset(s[k..]);
    assert s[..k][j] in multiset(s[..k]) && s[k..][0] in multiset(s[k..]);
  }

  lemma FullLengthRespects(g: Graph, names: seq<Id>, result: seq<Id>)
    requires NeedsNoRepeated(g, names) && Course(g, names, result) && |result| == |names|
    ensures OrderOf(g, names, result) && RepeatedAreFree(g, names) && ListsOnce(g, names)
  {
    LengthTellsAll(g, names, result);
    if !RepeatedAreFree(g, names) { RepeatedNeverDone(g, names, result); }
    forall n | n in names ensures Distinct(Inside(g, names, n)) {
      if Inside(g, names, n) != [] {
        assert n in multiset(names);
        ReleasedExactly(g, names, result, n);
      }
    }
    MultisetElems(result, names);
    forall i, j | 0 <= i < |result| && 0 <= j < |result| && result[i] in g && result[j] in g[result[i]]
      ensures j < i
    {
      assert result[j] in Inside(g, names, result[i]);
      TakenAfter(g, names, result, i, j);
    }
  }

  lemma TakenAfter(g: Graph, names: seq<Id>, result: seq<Id>, i: nat, j: nat)
    requires NeedsNoRepeated(g, names) && RepeatedAreFree(g, names) && Greedy(g, names, result)
    requires multiset(result) == multiset(names)
    requires i < |result| && j < |result| && result[j] in Inside(g, names, result[i])
    ensures j < i
  {
    var n := result[i];
    assert n in multiset(result) && n in names;
    GreedyFront(g, names, result, i);
    assert TakenAt(g, names, result, i);
    ReleasedExactly(g, names, result[..i], n);
    assert result[j] in result[..i];
    var k :| 0 <= k < i && result[k] == result[j];
    assert Count(names, result[j]) == 1;
    if j > k { TwoPlaces(result, k, j); }
  }

  function IndexOf(s: seq<Id>, x: Id): (i: nat)
    ensures i <= |s| && (x in s ==> i < |s| && s[i] == x)
  {
    if s == [] || s[0] == x then 0
    else
      assert s == [s[0]] + s[1..];
      1 + IndexOf(s[1..], x)
  }

  lemma OrderIsAcyclic(g: Graph, names: seq<Id>, t: seq<Id>)
    requires OrderOf(g, names, t)
    ensures !HasCycle(NamedGraph(g, names))
  {
    MultisetElems(t, names);
    RankedIsAcyclic(NamedGraph(g, names), map n | n in names :: IndexOf(t, n));
  }

  // ----- And the other way

  lemma LeftoverHasCycle(g: Graph, names: seq<Id>, result: seq<Id>)
    requires NeedsNoRepeated(g, names) && RepeatedAreFree(g, names) && ListsOnce(g, names)
    requires Course(g, names, result) && |result| != |names|
    ensures HasCycle(NamedGraph(g, names))
  {
    var h := NamedGraph(g, names);
    var rest := set n | n in names && n !in result;
    var left := SomethingLeft(g, names, result);
    assert left in rest;
    LeftoverIsClosed(g, names, result, rest);
    NoSinkMeansCycle(h, rest);
  }

  lemma LeftoverIsClosed(g: Graph, names: seq<Id>, result: seq<Id>, rest: set<Id>)
    requires NeedsNoRepeated(g, names) && RepeatedAreFree(g, names) && ListsOnce(g, names)
    requires Course(g, names, result) && forall n :: n in rest <==> n in names && n !in result
    ensures forall x {:trigger HasSuccessorIn(NamedGraph(g, names), rest, x)} ::
              x in rest ==> HasSuccessorIn(NamedGraph(g, names), rest, x)
  {
    forall x | x in rest ensures HasSuccessorIn(NamedGraph(g, names), rest, x) {
      LeftoverNeedsLeftover(g, names, result, rest, x);
    }
  }

  lemma SomethingLeft(g: Graph, names: seq<Id>, result: seq<Id>) returns (n: Id)
    requires RepeatedAreFree(g, names) && Course(g, names, result) && |result| != |names|
    ensures n in names && n !in result
  {
    LengthTellsAll(g, names, result);
    n :| n in names && Quota(g, names, result, n) != Count(names, n);
    CountPositive(names, n);
    CountPositive(result, n);
    CourseCounts(g, names, result, n);
  }

  lemma LeftoverNeedsLeftover(g: Graph, names: seq<Id>, result: seq<Id>, rest: set<Id>, x: Id)
    requires NeedsNoRepeated(g, names) && RepeatedAreFree(g, names) && ListsOnce(g, names)
    requires Course(g, names, result) && forall n :: n in rest <==> n in names && n !in result
    requires x in rest
    ensures HasSuccessorIn(NamedGraph(g, names), rest, x)
  {
    CountPositive(names, x);
    CountPositive(result, x);
    CourseCounts(g, names, result, x);
    ReleasedExactly(g, names, result, x);
    var d :| d in Inside(g, names, x) && d !in result;
    assert Edge(NamedGraph(g, names), x, d);
  }

  // ----- The least order

  /** Taking the least available name every time gives the least order of all. */
  lemma GreedyIsLeast(g: Graph, names: seq<Id>, result: seq<Id>)
    requires NeedsNoRepeated(g, names) && RepeatedAreFree(g, names) && ListsOnce(g, names)
    requires Greedy(g, names, result) && OrderOf(g, names, result)
    ensures LeastOrder(g, names, result)
  {
    forall t | OrderOf(g, names, t) ensures LexLeq(result, t) {
      MultisetElems(result, t);
      if result != t {
        var k := FirstDifference(result, t, 0);
        LeastAt(g, names, result, t, k);
      }
    }
  }

  lemma LeastAt(g: Graph, names: seq<Id>, result: seq<Id>, t: seq<Id>, k: nat)
    requires NeedsNoRepeated(g, names) && RepeatedAreFree(g, names) && ListsOnce(g, names)
    requires Greedy(g, names, result) && OrderOf(g, names, t) && DiffersAt(result, t, k)
    ensures Precedes(result[k].text, t[k].text)
  {
    GreedyFront(g, names, result, k);
    NextIsAvailable(g, names, t, k);
    assert TakenAt(g, names, result, k);
  }

  /** Every order takes only what is available. */
  lemma NextIsAvailable(g: Graph, names: seq<Id>, t: seq<Id>, k: nat)
    requires NeedsNoRepeated(g, names) && RepeatedAreFree(g, names) && ListsOnce(g, names)
    requires OrderOf(g, names, t) && k < |t| && Greedy(g, names, t[..k])
    ensures Available(g, names, t[..k], t[k])
  {
    var n := t[k];
    MultisetElems(t, names);
    CountBefore(t, k);
    CountPositive(names, n);
    if Inside(g, names, n) != [] {
      DependenciesBefore(g, names, t, k);
      ReleasedExactly(g, names, t[..k], n);
    }
  }

  lemma CountBefore(t: seq<Id>, k: nat)
    requires k < |t|
    ensures Count(t[..k], t[k]) < Count(t, t[k])
  {
    assert t == (t[..k] + [t[k]]) + t[k + 1..];
    assert multiset(t) == multiset(t[..k] + [t[k]]) + multiset(t[k + 1..]);
    CountAppend(t[..k], t[k], t[k]);
  }

  lemma DependenciesBefore(g: Graph, names: seq<Id>, t: seq<Id>, k: nat)
    requires OrderOf(g, names, t) && k < |t|
    ensures forall d :: d in Inside(g, names, t[k]) ==> d in t[..k]
  {
    MultisetElems(t, names);
    forall d | d in Inside(g, names, t[k]) ensures d in t[..k] {
      var j :| 0 <= j < |t| && t[j] == d;
      assert t[..k][j] == d;
    }
  }

  /** Comparing lengths decides whether the names can be ordered. */
  lemma SortDecides(g: Graph, names: seq<Id>, result: seq<Id>)
    requires Course(g, names, result)
    ensures !RepeatedAreFree(g, names) ==> |result| != |names|
    ensures NeedsNoRepeated(g, names) ==>
              (|result| == |names| <==> Orderable(g, names) && RepeatedAreFree(g, names))
    ensures NeedsNoRepeated(g, names) && |result| == |names| ==> LeastOrder(g, names, result)
    ensures Distinct(names) ==> (|result| == |names| <==> Orderable(g, names))
    ensures Distinct(names) && |result| == |names| ==>
              LeastOrder(g, names, result) && DependenciesFirst(NamedGraph(g, names), result)
  {
    RepeatsExactly(g, names);
    if !RepeatedAreFree(g, names) { RepeatedNeverDone(g, names, result); }
    if NeedsNoRepeated(g, names) {
      if |result| == |names| {
        FullLengthRespects(g, names, result);
        OrderIsAcyclic(g, names, result);
        GreedyIsLeast(g, names, result);
      } else if RepeatedAreFree(g, names) && ListsOnce(g, names) {
        LeftoverHasCycle(g, names, result);
      }
    }
    if Distinct(names) {
      DistinctIsUnrepeated(g, names);
      if |result| == |names| { OrderOfDistinct(g, names, result); }
    }
  }

  lemma DistinctIsUnrepeated(g: Graph, names: seq<Id>)
    requires Distinct(names)
    ensures NeedsNoRepeated(g, names) && RepeatedAreFree(g, names)
  {
    DistinctByMultiset(names);
  }

  lemma OrderOfDistinct(g: Graph, names: seq<Id>, t: seq<Id>)
    requires Distinct(names)
    ensures OrderOf(g, names, t) <==> DependenciesFirst(NamedGraph(g, names), t)
  {
    var h := NamedGraph(g, names);
    if OrderOf(g, names, t) {
      MultisetElems(t, names);
      DistinctByMultiset(names);
      DistinctByMultiset(t);
      forall i, b | 0 <= i < |t| && Edge(h, t[i], b) && b in h ensures b in t[..i] {
        var j :| 0 <= j < |t| && t[j] == b;
        assert t[..i][j] == b;
      }
    }
    if DependenciesFirst(h, t) {
      SameMembers(t, names);
      forall i, j | 0 <= i < |t| && 0 <= j < |t| && t[j] in Inside(g, names, t[i]) ensures j < i {
        assert Edge(h, t[i], t[j]) && t[j] in t[..i];
      }
    }
  }

  lemma SameMembers(a: seq<Id>, b: seq<Id>)
    requires Distinct(a) && Distinct(b) && forall x :: x in a <==> x in b
    ensures multiset(a) == multiset(b)
  {
    DistinctByMultiset(a);
    DistinctByMultiset(b);
    forall x ensures multiset(a)[x] == multiset(b)[x] {
      assert x in a <==> x in multiset(a);
      assert x in b <==> x in multiset(b);
    }
  }


  // ----- Names that are listed more than once

  lemma InsideTwo(g: Graph, names: seq<Id>, n: Id, x: Id, y: Id)
    requires n in g && g[n] == [x, y] && x in names && y in names
    ensures Inside(g, names, n) == [x, y]
  {
    var keep := set z | z in names;
    assert [x, y][1..] == [y] && [y][1..] == [];
    assert KeepIn([y], keep) == [y] + KeepIn([], keep);
    assert KeepIn([x, y], keep) == [x] + KeepIn([y], keep);
  }

  lemma LoweredByTwo(deps: seq<Id>, a: Id)
    requires a in deps
    ensures Lowered(deps, 1, []) == 0 && Lowered(deps, 1, [a]) == 1 && Lowered(deps, 1, [a, a]) == 2
    ensures forall more :: Lowered(deps, 1, [a, a] + more) >= 2
  {
    assert [a][..0] == [] && [a, a][..1] == [a];
    forall more ensures Lowered(deps, 1, [a, a] + more) >= 2 {
      assert ([a, a] + more)[..2] == [a, a];
      LoweredGrows(deps, 1, [a, a] + more, 2);
    }
  }

  /** The names could be ordered, and are answered, but not with an order. */
  ghost predicate AnsweredWrongly(g: Graph, names: seq<Id>, result: seq<Id>)
  {
    && Course(g, names, result) && |result| == |names|
    && Orderable(g, names) && RepeatedAreFree(g, names) && !OrderOf(g, names, result)
  }

  /** Names a, a, c, b where b needs a and c: once a has been taken twice, b is released. */
  lemma EarlyQuota(g: Graph, names: seq<Id>, a: Id, b: Id, c: Id)
    requires g == map[b := [a, c]] && names == [a, a, c, b] && a != b && b != c && a != c
    ensures forall s, n :: Quota(g, names, s, n) ==
              if n == a then 2 else if n == c then 1 else if n == b && Lowered([a, c], 1, s) >= 2 then 1 else 0
  {
    InsideTwo(g, names, b, a, c);
  }

  lemma EarlyStart(g: Graph, names: seq<Id>, result: seq<Id>, a: Id, b: Id, c: Id)
    requires g == map[b := [a, c]] && names == [a, a, c, b] && result == [a, a, b, c]
    requires a != b && b != c && a != c && Precedes(a.text, a.text) && Precedes(a.text, c.text)
    ensures TakenAt(g, names, result, 0) && TakenAt(g, names, result, 1)
  {
    EarlyQuota(g, names, a, b, c);
    LoweredByTwo([a, c], a);
    assert result[..0] == [] && result[..1] == [a];
  }

  lemma EarlyRelease(g: Graph, names: seq<Id>, result: seq<Id>, a: Id, b: Id, c: Id)
    requires g == map[b := [a, c]] && names == [a, a, c, b] && result == [a, a, b, c]
    requires a != b && b != c && a != c && Precedes(b.text, b.text) && Precedes(b.text, c.text)
    ensures TakenAt(g, names, result, 2)
  {
    EarlyQuota(g, names, a, b, c);
    LoweredByTwo([a, c], a);
    assert result[..2] == [a, a];
  }

  lemma EarlyEnd(g: Graph, names: seq<Id>, result: seq<Id>, a: Id, b: Id, c: Id)
    requires g == map[b := [a, c]] && names == [a, a, c, b] && result == [a, a, b, c]
    requires a != b && b != c && a != c && Precedes(c.text, c.text)
    ensures TakenAt(g, names, result, 3) && forall n :: !Available(g, names, result, n)
  {
    EarlyQuota(g, names, a, b, c);
    assert result[..3] == [a, a, b];
    forall n ensures Available(g, names, [a, a, b], n) ==> n == c {
      assert Quota(g, names, [a, a, b], n) <= Count([a, a, b], n) + if n == c then 1 else 0;
    }
    forall n ensures !Available(g, names, result, n) {
      assert Quota(g, names, result, n) <= Count(result, n);
    }
  }

  lemma EarlyOrder(g: Graph, names: seq<Id>, a: Id, b: Id, c: Id)
    requires g == map[b := [a, c]] && names == [a, a, c, b] && a != b && b != c && a != c
    ensures OrderOf(g, names, names) && RepeatedAreFree(g, names) && ListsOnce(g, names)
  {
    InsideTwo(g, names, b, a, c);
    assert forall n :: n != b ==> Inside(g, names, n) == [];
  }

  lemma EarlyDisorder(g: Graph, names: seq<Id>, result: seq<Id>, a: Id, b: Id, c: Id)
    requires g == map[b := [a, c]] && names == [a, a, c, b] && result == [a, a, b, c]
    ensures !OrderOf(g, names, result)
  {
    assert c in Inside(g, names, b) && b == result[2] && c == result[3];
  }

  lemma EarlyCourse(g: Graph, names: seq<Id>, result: seq<Id>, a: Id, b: Id, c: Id)
    requires g == map[b := [a, c]] && names == [a, a, c, b] && result == [a, a, b, c]
    requires a != b && b != c && a != c
    requires Precedes(a.text, c.text) && Precedes(b.text, c.text)
    ensures Course(g, names, result)
  {
    EarlyStart(g, names, result, a, b, c);
    EarlyRelease(g, names, result, a, b, c);
    EarlyEnd(g, names, result, a, b, c);
  }

  lemma ByFirstLetter(a: Id, b: Id)
    requires a.text != [] && b.text != [] && a.text[0] < b.text[0]
    ensures a != b && Precedes(a.text, a.text) && Precedes(a.text, b.text) && Precedes(b.text, b.text)
  {
    assert a.text[..0] == b.text[..0];
  }

  lemma EarlyAnswer(a: Id, b: Id, c: Id) returns (g: Graph, names: seq<Id>, result: seq<Id>)
    requires a.text != [] && b.text != [] && c.text != [] && a.text[0] < b.text[0] < c.text[0]
    ensures AnsweredWrongly(g, names, result)
  {
    g, names, result := map[b := [a, c]], [a, a, c, b], [a, a, b, c];
    ByFirstLetter(a, b);
    ByFirstLetter(b, c);
    ByFirstLetter(a, c);
    EarlyCourse(g, names, result, a, b, c);
    EarlyOrder(g, names, a, b, c);
    OrderIsAcyclic(g, names, names);
    EarlyDisorder(g, names, result, a, b, c);
  }

  /** An acyclic graph without repeated entries that is answered with a dependency after its
      dependent, because a name is listed twice. */
  lemma RepeatedNameReleasesEarly()
    ensures exists g, names, result :: AnsweredWrongly(g, names, result)
  {
    var g, names, result := EarlyAnswer(Id("a"), Id("b"), Id("c"));
  }

  /** Names a, a, b where b needs a and itself: taking a twice releases b. */
  lemma SelfishQuota(g: Graph, names: seq<Id>, a: Id, b: Id)
    requires g == map[b := [a, b]] && names == [a, a, b] && a != b
    ensures forall s, n :: Quota(g, names, s, n) ==
              if n == a then 2 else if n == b && Lowered([a, b], 1, s) >= 2 then 1 else 0
  {
    InsideTwo(g, names, b, a, b);
  }

  lemma SelfishCourse(g: Graph, a: Id, b: Id)
    requires g == map[b := [a, b]] && a != b && Precedes(a.text, a.text) && Precedes(b.text, b.text)
    ensures Course(g, [a, a, b], [a, a, b])
  {
    var names := [a, a, b];
    SelfishQuota(g, names, a, b);
    LoweredByTwo([a, b], a);
    assert names[..0] == [] && names[..1] == [a] && names[..2] == [a, a] && names == [a, a] + [b];
    assert TakenAt(g, names, names, 0) && TakenAt(g, names, names, 1) && TakenAt(g, names, names, 2);
  }

  /** A cycle that is answered all the same, for the same reason. */
  lemma RepeatedNameHidesCycle()
    ensures exists g, names, result ::
              Course(g, names, result) && |result| == |names| && HasCycle(NamedGraph(g, names))
  {
    var a, b := Id("a"), Id("b");
    ByFirstLetter(a, b);
    var g: Graph, names := map[b := [a, b]], [a, a, b];
    SelfishCourse(g, a, b);
    InsideTwo(g, names, b, a, b);
    var h := NamedGraph(g, names);
    assert h[b] == [a, b] && [a, b][1] == b;
    assert Edge(h, b, b);
    ReachSelf(h, b);
    assert Depends(h, b, b);
  }
}
