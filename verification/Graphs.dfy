/** Directed dependency graphs: one definition of path, dependency and cycle
    that every algorithm of the project is measured against. */
module Graphs {
  import opened Ids

  /** Each node with the nodes it depends on. A listed dependency need not be a node. */
  type Graph = map<Id, seq<Id>>

  predicate Edge(g: Graph, a: Id, b: Id)
  {
    a in g && b in g[a]
  }

  ghost predicate IsPath(g: Graph, p: seq<Id>, a: Id, b: Id)
  {
    && p != [] && p[0] == a && p[|p| - 1] == b
    && forall i, j :: 0 <= i < j < |p| && j == i + 1 ==> Edge(g, p[i], p[j])
  }

  /** b is reached from a by following zero or more dependency edges. */
  ghost predicate Reach(g: Graph, a: Id, b: Id)
  {
    exists p :: IsPath(g, p, a, b)
  }

  /** a depends on b, directly or transitively: at least one edge. */
  ghost predicate Depends(g: Graph, a: Id, b: Id)
  {
    exists c :: Edge(g, a, c) && Reach(g, c, b)
  }

  ghost predicate HasCycle(g: Graph)
  {
    exists a :: Depends(g, a, a)
  }

  /** Every listed dependency is itself a node. */
  ghost predicate DependencyClosed(g: Graph)
  {
    forall a, b :: Edge(g, a, b) ==> b in g
  }

  ghost predicate ClosedUnder(g: Graph, s: set<Id>)
  {
    forall a, b :: a in s && Edge(g, a, b) ==> b in s
  }

  ghost function Nodes(g: Graph): (s: set<Id>)
    ensures g.Keys <= s
    ensures forall a, b :: Edge(g, a, b) ==> b in s
  {
    g.Keys + set a, b | a in g && b in g[a] :: b
  }

  // ----- Reachability

  lemma ReachSelf(g: Graph, a: Id)
    ensures Reach(g, a, a)
  {
    assert IsPath(g, [a], a, a);
  }

  lemma ReachTransitive(g: Graph, a: Id, b: Id, c: Id)
    requires Reach(g, a, b) && Reach(g, b, c)
    ensures Reach(g, a, c)
  {
    var p :| IsPath(g, p, a, b);
    var q :| IsPath(g, q, b, c);
    var r := p + q[1..];
    forall i | 0 <= i < |r| - 1 ensures Edge(g, r[i], r[i + 1]) {
      if i >= |p| - 1 {
        assert r[i] == q[i - (|p| - 1)] && r[i + 1] == q[i + 1 - (|p| - 1)];
      }
    }
    assert IsPath(g, r, a, c);
  }

  lemma ReachEdge(g: Graph, a: Id, b: Id)
    requires Edge(g, a, b)
    ensures Reach(g, a, b)
  {
    assert IsPath(g, [a, b], a, b);
  }

  lemma DependsReach(g: Graph, a: Id, b: Id)
    requires Depends(g, a, b)
    ensures Reach(g, a, b)
  {
    var c :| Edge(g, a, c) && Reach(g, c, b);
    ReachEdge(g, a, c);
    ReachTransitive(g, a, c, b);
  }

  lemma ReachFirst(g: Graph, a: Id, b: Id)
    requires Reach(g, a, b)
    ensures a == b || Depends(g, a, b)
  {
    var p :| IsPath(g, p, a, b);
    if |p| > 1 {
      assert IsPath(g, p[1..], p[1], b);
    }
  }

  lemma ReachLast(g: Graph, a: Id, b: Id)
    requires Reach(g, a, b)
    ensures a == b || exists c :: Reach(g, a, c) && Edge(g, c, b)
  {
    var p :| IsPath(g, p, a, b);
    if |p| > 1 {
      var c := p[|p| - 2];
      assert IsPath(g, p[..|p| - 1], a, c);
      assert Edge(g, c, p[|p| - 2 + 1]);
    }
  }

  lemma ReachThenEdge(g: Graph, a: Id, b: Id, c: Id)
    requires Reach(g, a, b) && Edge(g, b, c)
    ensures Reach(g, a, c)
    ensures Depends(g, a, c)
  {
    ReachSelf(g, c);
    ReachFirst(g, a, b);
    if a != b {
      var d :| Edge(g, a, d) && Reach(g, d, b);
      ReachEdge(g, b, c);
      ReachTransitive(g, d, b, c);
    }
    DependsReach(g, a, c);
  }

  lemma {:induction false} PathStaysInside(g: Graph, s: set<Id>, p: seq<Id>, a: Id, b: Id)
    requires ClosedUnder(g, s) && a in s && IsPath(g, p, a, b)
    ensures forall x :: x in p ==> x in s
  {
    if |p| > 1 {
      assert Edge(g, p[0], p[0 + 1]);
      PathStaysInside(g, s, p[1..], p[1], b);
      assert p == [a] + p[1..];
    }
  }

  lemma ClosedReach(g: Graph, s: set<Id>, a: Id, b: Id)
    requires ClosedUnder(g, s) && a in s && Reach(g, a, b)
    ensures b in s
  {
    var p :| IsPath(g, p, a, b);
    PathStaysInside(g, s, p, a, b);
    assert p[|p| - 1] in p;
  }

  lemma {:induction false} PathComesFromInside(g: Graph, s: set<Id>, p: seq<Id>, a: Id, b: Id)
    requires forall x, y :: Edge(g, x, y) && y in s ==> x in s
    requires b in s && IsPath(g, p, a, b)
    ensures a in s
  {
    if |p| > 1 {
      assert Edge(g, p[0], p[1]);
      PathComesFromInside(g, s, p[1..], p[1], b);
    }
  }

  /** A set that contains every predecessor of its members contains all that reaches them. */
  lemma ClosedBackwards(g: Graph, s: set<Id>, a: Id, b: Id)
    requires forall x, y :: Edge(g, x, y) && y in s ==> x in s
    requires b in s && Reach(g, a, b)
    ensures a in s
  {
    var p :| IsPath(g, p, a, b);
    PathComesFromInside(g, s, p, a, b);
  }

  /** A larger set of edges reaches at least as much. */
  lemma ReachMonotone(g: Graph, h: Graph, a: Id, b: Id)
    requires forall x, y :: Edge(g, x, y) ==> Edge(h, x, y)
    requires Reach(g, a, b)
    ensures Reach(h, a, b)
  {
    var p :| IsPath(g, p, a, b);
    assert IsPath(h, p, a, b);
  }

  lemma CycleMonotone(g: Graph, h: Graph)
    requires forall x, y :: Edge(g, x, y) ==> Edge(h, x, y)
    ensures HasCycle(g) ==> HasCycle(h)
  {
    if HasCycle(g) {
      var a :| Depends(g, a, a);
      var c :| Edge(g, a, c) && Reach(g, c, a);
      ReachMonotone(g, h, c, a);
      assert Depends(h, a, a);
    }
  }

  // ----- Finite graphs: no sink, or no source, means a cycle

  ghost predicate HasSuccessorIn(g: Graph, s: set<Id>, x: Id)
  {
    exists y :: y in s && Edge(g, x, y)
  }

  ghost predicate HasPredecessorIn(g: Graph, s: set<Id>, x: Id)
  {
    exists y :: y in s && Edge(g, y, x)
  }

  lemma {:induction false} Walk(g: Graph, s: set<Id>, a: Id, n: nat) returns (p: seq<Id>)
    requires a in s
    requires forall x {:trigger HasSuccessorIn(g, s, x)} :: x in s ==> HasSuccessorIn(g, s, x)
    ensures |p| == n + 1 && IsPath(g, p, a, p[n])
    ensures forall x :: x in p ==> x in s
    decreases n
  {
    if n == 0 {
      p := [a];
    } else {
      assert HasSuccessorIn(g, s, a);
      var b :| b in s && Edge(g, a, b);
      var q := Walk(g, s, b, n - 1);
      p := [a] + q;
    }
  }

  lemma Pigeonhole(p: seq<Id>, s: set<Id>) returns (i: nat, j: nat)
    requires |p| > |s| && forall x :: x in p ==> x in s
    ensures i < j < |p| && p[i] == p[j]
  {
    ElemsCard(p);
    Subcard(Elems(p), s);
    i, j :| 0 <= i < j < |p| && p[i] == p[j];
  }

  lemma {:induction false} Subcard<T>(a: set<T>, b: set<T>)
    requires a <= b
    ensures |a| <= |b|
  {
    if a != {} {
      var x :| x in a;
      Subcard(a - {x}, b - {x});
    }
  }

  lemma EqualCard<T>(a: set<T>, b: set<T>)
    requires a <= b && |a| == |b|
    ensures a == b
  {
    if x :| x in b && x !in a {
      Subcard(a + {x}, b);
    }
  }

  lemma RepeatedNodeIsCycle(g: Graph, p: seq<Id>, i: nat, j: nat)
    requires p != [] && IsPath(g, p, p[0], p[|p| - 1])
    requires i < j < |p| && p[i] == p[j]
    ensures HasCycle(g)
  {
    var q := p[i + 1..j + 1];
    assert IsPath(g, q, p[i + 1], p[j]);
    assert Edge(g, p[i], p[i + 1]);
    assert Depends(g, p[i], p[i]);
  }

  /** A non-empty finite set in which every node has a successor contains a cycle. */
  lemma NoSinkMeansCycle(g: Graph, s: set<Id>)
    requires s != {}
    requires forall x {:trigger HasSuccessorIn(g, s, x)} :: x in s ==> HasSuccessorIn(g, s, x)
    ensures HasCycle(g)
  {
    var a :| a in s;
    var p := Walk(g, s, a, |s|);
    var i, j := Pigeonhole(p, s);
    RepeatedNodeIsCycle(g, p, i, j);
  }

  lemma {:induction false} WalkBack(g: Graph, s: set<Id>, b: Id, n: nat) returns (p: seq<Id>)
    requires b in s
    requires forall x {:trigger HasPredecessorIn(g, s, x)} :: x in s ==> HasPredecessorIn(g, s, x)
    ensures |p| == n + 1 && IsPath(g, p, p[0], b)
    ensures forall x :: x in p ==> x in s
    decreases n
  {
    if n == 0 {
      p := [b];
    } else {
      assert HasPredecessorIn(g, s, b);
      var a :| a in s && Edge(g, a, b);
      var q := WalkBack(g, s, a, n - 1);
      p := q + [b];
    }
  }

  /** A non-empty finite set in which every node has a predecessor contains a cycle. */
  lemma NoSourceMeansCycle(g: Graph, s: set<Id>)
    requires s != {}
    requires forall x {:trigger HasPredecessorIn(g, s, x)} :: x in s ==> HasPredecessorIn(g, s, x)
    ensures HasCycle(g)
  {
    var b :| b in s;
    var p := WalkBack(g, s, b, |s|);
    var i, j := Pigeonhole(p, s);
    RepeatedNodeIsCycle(g, p, i, j);
  }

  // ----- Orders that respect every dependency

  /** The order lists every node once, each after all its dependencies. */
  ghost predicate DependenciesFirst(g: Graph, order: seq<Id>)
  {
    && Distinct(order)
    && (forall x :: x in order <==> x in g)
    && forall i, b :: 0 <= i < |order| && Edge(g, order[i], b) && b in g ==> b in order[..i]
  }

  /** The order lists every node once, each before all its dependencies. */
  ghost predicate DependentsFirst(g: Graph, order: seq<Id>)
  {
    && Distinct(order)
    && (forall x :: x in order <==> x in g)
    && forall i, b :: 0 <= i < |order| && Edge(g, order[i], b) && b in g ==> b in order[i + 1..]
  }

  lemma {:induction false} RankDescends(g: Graph, rank: map<Id, int>, p: seq<Id>, a: Id, b: Id)
    requires IsPath(g, p, a, b) && a in rank && b in rank
    requires forall x, y :: Edge(g, x, y) ==> x in rank && (y in rank ==> rank[x] > rank[y])
    ensures rank[a] >= rank[b]
  {
    if |p| > 1 {
      assert Edge(g, p[0], p[0 + 1]);
      assert p[1] in rank by {
        if |p| > 2 { assert Edge(g, p[1], p[1 + 1]); }
      }
      RankDescends(g, rank, p[1..], p[1], b);
    }
  }

  /** A rank that drops along every edge between ranked nodes excludes cycles. */
  lemma RankedIsAcyclic(g: Graph, rank: map<Id, int>)
    requires forall x, y :: Edge(g, x, y) ==> x in rank && (y in rank ==> rank[x] > rank[y])
    ensures !HasCycle(g)
  {
    if HasCycle(g) {
      var a :| Depends(g, a, a);
      var c :| Edge(g, a, c) && Reach(g, c, a);
      ReachFirst(g, c, a);
      assert c in rank;
      var p :| IsPath(g, p, c, a);
      RankDescends(g, rank, p, c, a);
      assert false;
    }
  }

  lemma Positions(order: seq<Id>) returns (pos: map<Id, int>)
    requires Distinct(order)
    ensures forall x :: x in pos <==> x in order
    ensures forall i :: 0 <= i < |order| ==> pos[order[i]] == i
  {
    pos := map x | x in order :: var i :| 0 <= i < |order| && order[i] == x; i;
  }

  lemma DependenciesFirstIsAcyclic(g: Graph, order: seq<Id>)
    requires DependenciesFirst(g, order)
    ensures !HasCycle(g)
  {
    var pos := Positions(order);
    forall x, y | Edge(g, x, y)
      ensures x in pos && (y in pos ==> pos[x] > pos[y])
    {
      assert x in order;
      var i := pos[x];
      if y in pos {
        assert y in order[..i];
      }
    }
    RankedIsAcyclic(g, pos);
  }

  lemma DependentsFirstIsAcyclic(g: Graph, order: seq<Id>)
    requires DependentsFirst(g, order)
    ensures !HasCycle(g)
  {
    var pos := Positions(order);
    var rank := map x | x in pos :: -pos[x];
    forall x, y | Edge(g, x, y)
      ensures x in rank && (y in rank ==> rank[x] > rank[y])
    {
      assert x in order;
      var i := pos[x];
      if y in rank {
        assert y in order[i + 1..];
      }
    }
    RankedIsAcyclic(g, rank);
  }

  // ----- Restriction to a set of nodes

  function KeepIn(s: seq<Id>, keep: set<Id>): (r: seq<Id>)
    ensures forall x :: x in r <==> x in s && x in keep
    ensures Distinct(s) ==> Distinct(r)
    ensures |r| <= |s|
  {
    if s == [] then []
    else
      var r := KeepIn(s[1..], keep);
      assert s == [s[0]] + s[1..];
      DistinctCons(s);
      if s[0] in keep then
        DistinctCons([s[0]] + r);
        [s[0]] + r
      else r
  }

  /** What is kept, is kept in order and as often as it was there. */
  lemma {:induction false} KeepInConcat(a: seq<Id>, b: seq<Id>, keep: set<Id>)
    ensures KeepIn(a + b, keep) == KeepIn(a, keep) + KeepIn(b, keep)
    ensures forall x :: KeepIn([x], keep) == if x in keep then [x] else []
    ensures KeepIn([], keep) == []
  {
    forall x ensures KeepIn([x], keep) == if x in keep then [x] else [] {
      assert [x][1..] == [];
    }
    if a == [] {
      assert a + b == b;
    } else {
      assert a + b == [a[0]] + (a[1..] + b);
      KeepInConcat(a[1..], b, keep);
    }
  }

  /** The subgraph on the nodes in `keep`. */
  function Restrict(g: Graph, keep: set<Id>): (h: Graph)
    ensures forall a, b :: Edge(h, a, b) <==> Edge(g, a, b) && a in keep && b in keep
  {
    map a | a in g && a in keep :: KeepIn(g[a], keep)
  }
}
