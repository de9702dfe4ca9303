/** query_dependency_graph: the focus on one deliverable's component and the
    iterative three-colour search for a cycle. */
module CycleQuery {
  import opened Ids
  import opened Graphs

  type EdgeList = seq<(Id, Id)>

  datatype Color = White | Gray | Black

  /** The graph an edge list stands for. */
  function EdgeGraph(edges: EdgeList): (g: Graph)
    ensures forall a, b :: Edge(g, a, b) <==> (a, b) in edges
  {
    if edges == [] then map[]
    else
      var n := |edges| - 1;
      var g := EdgeGraph(edges[..n]);
      var (a, b) := edges[n];
      assert edges == edges[..n] + [(a, b)];
      g[a := Targets(g, a) + [b]]
  }

  function Targets(g: Graph, a: Id): seq<Id>
  {
    if a in g then g[a] else []
  }

  // ----- The depth-first search

  // The stack of (node, next child index) pairs is kept as two sequences of equal
  // length, `path` and `idx`, with the top at the end.

  /** The gray nodes are exactly the stack, and each entry has an edge to the one above it. */
  ghost predicate GrayPath(g: Graph, color: map<Id, Color>, path: seq<Id>)
  {
    && Distinct(path)
    && (forall x :: x in path <==> x in color && color[x] == Gray)
    && forall i, j :: 0 <= i < j < |path| && j == i + 1 ==> Edge(g, path[i], path[j])
  }

  ghost predicate InRange(g: Graph, path: seq<Id>, idx: seq<nat>)
  {
    |idx| == |path| && forall i :: 0 <= i < |path| ==> idx[i] <= |Targets(g, path[i])|
  }

  /** A neighbour a stack entry has already passed has been discovered, and does not
      sit at or below that entry: otherwise the search would have stopped there. */
  ghost predicate Explored(g: Graph, color: map<Id, Color>, path: seq<Id>, idx: seq<nat>)
    requires InRange(g, path, idx)
  {
    forall i, k :: 0 <= i < |path| && 0 <= k < idx[i] ==> Passed(color, path[..i + 1], Targets(g, path[i])[k])
  }

  ghost predicate Passed(color: map<Id, Color>, below: seq<Id>, x: Id)
  {
    x in color ==> color[x] != White && x !in below
  }

  /** Black nodes are closed under edges and numbered in the order they were finished. */
  ghost predicate Finished(g: Graph, color: map<Id, Color>, rank: map<Id, int>, count: int)
  {
    && (forall x :: x in rank <==> x in color && color[x] == Black)
    && (forall x :: x in rank ==> rank[x] < count)
    && forall x, y :: x in rank && Edge(g, x, y) && y in color ==> y in rank && rank[x] > rank[y]
  }

  ghost predicate Searching(g: Graph, color: map<Id, Color>, path: seq<Id>, idx: seq<nat>)
  {
    GrayPath(g, color, path) && InRange(g, path, idx) && Explored(g, color, path, idx)
  }

  ghost function Work(g: Graph, path: seq<Id>, idx: seq<nat>): nat
    requires InRange(g, path, idx)
  {
    if path == [] then 0
    else
      var top := |path| - 1;
      Work(g, path[..top], idx[..top]) + |Targets(g, path[top])| - idx[top] + 1
  }

  ghost function Whites(color: map<Id, Color>): set<Id>
  {
    set x | x in color && color[x] == White
  }

  lemma {:induction false} StackReaches(g: Graph, color: map<Id, Color>, path: seq<Id>, k: nat, n: nat)
    requires GrayPath(g, color, path) && k <= n < |path|
    ensures Reach(Restrict(g, color.Keys), path[k], path[n])
    decreases n
  {
    var h := Restrict(g, color.Keys);
    if k == n {
      ReachSelf(h, path[k]);
    } else {
      StackReaches(g, color, path, k, n - 1);
      assert path[n - 1] in path && path[n] in path;
      assert Edge(g, path[n - 1], path[n]);
      ReachThenEdge(h, path[k], path[n - 1], path[n]);
    }
  }

  lemma GrayNeighbourClosesCycle(g: Graph, color: map<Id, Color>, path: seq<Id>, next: Id)
    requires GrayPath(g, color, path) && path != []
    requires Edge(g, path[|path| - 1], next) && next in color && color[next] == Gray
    ensures HasCycle(Restrict(g, color.Keys))
  {
    assert next in path && path[|path| - 1] in path;
    var k :| 0 <= k < |path| && path[k] == next;
    StackReaches(g, color, path, k, |path| - 1);
    ReachThenEdge(Restrict(g, color.Keys), next, path[|path| - 1], next);
  }

  lemma AllBlackIsAcyclic(g: Graph, color: map<Id, Color>, rank: map<Id, int>, count: int)
    requires Finished(g, color, rank, count)
    requires forall x :: x in color ==> color[x] == Black
    ensures !HasCycle(Restrict(g, color.Keys))
  {
    RankedIsAcyclic(Restrict(g, color.Keys), rank);
  }

  /** The top entry moves past a neighbour that is black or not a node. */
  lemma AdvanceKeeps(g: Graph, color: map<Id, Color>, path: seq<Id>, idx: seq<nat>)
    requires Searching(g, color, path, idx) && path != []
    requires idx[|path| - 1] < |Targets(g, path[|path| - 1])|
    requires var next := Targets(g, path[|path| - 1])[idx[|path| - 1]]; next in color ==> color[next] == Black
    ensures var idx' := idx[|path| - 1 := idx[|path| - 1] + 1];
            Searching(g, color, path, idx') && Work(g, path, idx') < Work(g, path, idx)
  {
  }

  lemma PushKeepsPath(g: Graph, color: map<Id, Color>, path: seq<Id>, next: Id)
    requires GrayPath(g, color, path) && path != []
    requires next in color && color[next] == White && Edge(g, path[|path| - 1], next)
    ensures next !in path && GrayPath(g, color[next := Gray], path + [next])
    ensures next in Whites(color) && Whites(color[next := Gray]) == Whites(color) - {next}
  {
  }

  /** A white neighbour is coloured gray and becomes the new top. */
  lemma PushKeeps(g: Graph, color: map<Id, Color>, path: seq<Id>, idx: seq<nat>)
    requires Searching(g, color, path, idx) && path != []
    requires idx[|path| - 1] < |Targets(g, path[|path| - 1])|
    requires var next := Targets(g, path[|path| - 1])[idx[|path| - 1]]; next in color && color[next] == White
    ensures var top := |path| - 1; var next := Targets(g, path[top])[idx[top]];
            && Searching(g, color[next := Gray], path + [next], idx[top := idx[top] + 1] + [0])
            && Whites(color[next := Gray]) == Whites(color) - {next}
            && next in Whites(color)
  {
    var top := |path| - 1;
    var next := Targets(g, path[top])[idx[top]];
    var path', idx' := path + [next], idx[top := idx[top] + 1] + [0];
    var color' := color[next := Gray];
    PushKeepsPath(g, color, path, next);
    forall i, k | 0 <= i < |path'| && 0 <= k < idx'[i]
      ensures Passed(color', path'[..i + 1], Targets(g, path'[i])[k])
    {
      assert path'[..i + 1] == path[..i + 1];
      if i < top || k < idx[top] {
        assert Passed(color, path[..i + 1], Targets(g, path[i])[k]);
      }
    }
  }

  /** An exhausted top entry is left: it turns black. */
  lemma PopKeeps(g: Graph, color: map<Id, Color>, path: seq<Id>, idx: seq<nat>)
    requires Searching(g, color, path, idx) && path != []
    ensures var top := |path| - 1; var node := path[top];
            && node in color && color[node] == Gray
            && Searching(g, color[node := Black], path[..top], idx[..top])
            && Whites(color[node := Black]) == Whites(color)
            && Work(g, path[..top], idx[..top]) < Work(g, path, idx)
  {
  }

  /** The finished node is numbered above everything it leads to. */
  lemma PopFinishes(g: Graph, color: map<Id, Color>, path: seq<Id>, idx: seq<nat>, rank: map<Id, int>, count: int)
    requires Searching(g, color, path, idx) && Finished(g, color, rank, count) && path != []
    requires idx[|path| - 1] == |Targets(g, path[|path| - 1])|
    ensures var node := path[|path| - 1];
            Finished(g, color[node := Black], rank[node := count], count + 1)
  {
  }

  /** One turn of the inner loop of _detect_graph_cycles: look at the next neighbour of the
      top entry, or leave it when all have been looked at. */
  method SearchStep(g: Graph, color0: map<Id, Color>, path0: seq<Id>, idx0: seq<nat>, ghost rank0: map<Id, int>,
                    ghost count0: int)
    returns (found: bool, color: map<Id, Color>, path: seq<Id>, idx: seq<nat>, ghost rank: map<Id, int>,
             ghost count: int)
    requires Searching(g, color0, path0, idx0) && Finished(g, color0, rank0, count0) && path0 != []
    ensures color.Keys == color0.Keys && Whites(color) <= Whites(color0)
    ensures found ==> HasCycle(Restrict(g, color0.Keys))
    ensures !found ==> Searching(g, color, path, idx) && Finished(g, color, rank, count)
    ensures !found && Whites(color) == Whites(color0) ==> Work(g, path, idx) < Work(g, path0, idx0)
  {
    found, color, path, idx, rank, count := false, color0, path0, idx0, rank0, count0;
    var top := |path| - 1;
    var node := path[top];
    var neighbors := Targets(g, node);
    if idx[top] < |neighbors| {
      var next := neighbors[idx[top]];
      if next in color && color[next] == Gray {
        GrayNeighbourClosesCycle(g, color, path, next);
        found := true;
      } else if next in color && color[next] == White {
        PushKeeps(g, color, path, idx);
        color := color[next := Gray];
        path, idx := path + [next], idx[top := idx[top] + 1] + [0];
      } else {
        AdvanceKeeps(g, color, path, idx);
        idx := idx[top := idx[top] + 1];
      }
    } else {
      PopKeeps(g, color, path, idx);
      PopFinishes(g, color, path, idx, rank, count);
      color, rank, count := color[node := Black], rank[node := count], count + 1;
      path, idx := path[..top], idx[..top];
    }
  }

  /** The inner loop: everything reachable from one white node. */
  method SearchFrom(g: Graph, before: map<Id, Color>, start: Id, ghost rank0: map<Id, int>, ghost count0: int)
    returns (found: bool, color: map<Id, Color>, ghost rank: map<Id, int>, ghost count: int)
    requires Finished(g, before, rank0, count0)
    requires forall x :: x in before ==> before[x] != Gray
    requires start in before && before[start] == White
    ensures color.Keys == before.Keys
    ensures found ==> HasCycle(Restrict(g, before.Keys))
    ensures !found ==> Finished(g, color, rank, count)
    ensures !found ==> forall x :: x in color ==> color[x] != Gray
    ensures !found ==> Whites(color) <= Whites(before) - {start}
  {
    rank, count := rank0, count0;
    var path, idx: seq<nat> := [start], [0];
    color := before[start := Gray];
    while path != []
      invariant color.Keys == before.Keys && Whites(color) <= Whites(before) - {start}
      invariant Searching(g, color, path, idx) && Finished(g, color, rank, count)
      decreases Whites(color), Work(g, path, idx)
    {
      found, color, path, idx, rank, count := SearchStep(g, color, path, idx, rank, count);
      if found {
        return;
      }
    }
    found := false;
  }

  /** _detect_graph_cycles finds a cycle exactly when the listed nodes contain one. */
  method DetectGraphCycles(nodes: seq<Id>, edges: EdgeList) returns (found: bool)
    ensures found <==> HasCycle(Restrict(EdgeGraph(edges), Elems(nodes)))
  {
    var g := EdgeGraph(edges);
    var color: map<Id, Color> := map x | x in nodes :: White;
    assert color.Keys == Elems(nodes);
    ghost var rank: map<Id, int>, count := map[], 0;
    var remaining := set x | x in nodes;
    while remaining != {}
      invariant remaining <= color.Keys == Elems(nodes)
      invariant forall x :: x in color ==> color[x] != Gray
      invariant Whites(color) <= remaining
      invariant Finished(g, color, rank, count)
      decreases remaining
    {
      var start :| start in remaining;
      remaining := remaining - {start};
      if color[start] == White {
        found, color, rank, count := SearchFrom(g, color, start, rank, count);
        if found {
          return;
        }
      }
    }
    assert forall x :: x in color ==> x !in Whites(color);
    AllBlackIsAcyclic(g, color, rank, count);
    found := false;
  }

  // ----- The focus on one deliverable

  ghost predicate IsChain(g: Graph, p: seq<Id>, a: Id, b: Id)
  {
    && p != [] && p[0] == a && p[|p| - 1] == b
    && forall i, j :: 0 <= i < j < |p| && j == i + 1 ==> Edge(g, p[i], p[j]) || Edge(g, p[j], p[i])
  }

  /** a and b lie in the same weakly connected component: some chain of dependencies,
      each followed in either direction, leads from one to the other. */
  ghost predicate Linked(g: Graph, a: Id, b: Id)
  {
    exists p :: IsChain(g, p, a, b)
  }

  lemma LinkedStep(g: Graph, a: Id, b: Id, c: Id)
    requires Linked(g, a, b) && (Edge(g, b, c) || Edge(g, c, b))
    ensures Linked(g, a, c)
  {
    var p :| IsChain(g, p, a, b);
    assert IsChain(g, p + [c], a, c);
  }

  lemma {:induction false} ChainStaysInside(g: Graph, s: set<Id>, p: seq<Id>, a: Id, b: Id)
    requires forall x, y :: Edge(g, x, y) ==> (x in s <==> y in s)
    requires a in s && IsChain(g, p, a, b)
    ensures b in s
  {
    if |p| > 1 {
      assert Edge(g, p[0], p[1]) || Edge(g, p[1], p[0]);
      ChainStaysInside(g, s, p[1..], p[1], b);
    }
  }

  /** The changed-loop of query_dependency_graph computes exactly the component. */
  method FocusSet(edges: EdgeList, ghost g: Graph, start: Id) returns (focus: set<Id>)
    requires forall a, b :: Edge(g, a, b) <==> (a, b) in edges
    ensures forall x :: x in focus <==> Linked(g, start, x)
  {
    focus := {start};
    assert IsChain(g, [start], start, start);
    ghost var all := Nodes(g) + {start};
    var changed := true;
    while changed
      invariant start in focus && focus <= all
      invariant forall x :: x in focus ==> Linked(g, start, x)
      invariant !changed ==> forall a, b :: (a, b) in edges ==> (a in focus <==> b in focus)
      decreases all - focus, changed
    {
      changed := false;
      ghost var before := focus;
      for i := 0 to |edges|
        invariant start in focus && before <= focus <= all
        invariant forall x :: x in focus ==> Linked(g, start, x)
        invariant changed ==> before != focus
        invariant !changed ==> before == focus
        invariant !changed ==> forall k :: 0 <= k < i ==> (edges[k].0 in focus <==> edges[k].1 in focus)
      {
        var (source, target) := edges[i];
        assert Edge(g, source, target) by { assert edges[i] in edges; }
        if source in focus && target !in focus {
          LinkedStep(g, start, source, target);
          focus := focus + {target};
          changed := true;
        }
        if target in focus && source !in focus {
          LinkedStep(g, start, target, source);
          focus := focus + {source};
          changed := true;
        }
      }
    }
    forall x | Linked(g, start, x) ensures x in focus {
      var p :| IsChain(g, p, start, x);
      ChainStaysInside(g, focus, p, start, x);
    }
  }

  method ListEdges(listing: seq<Id>, g: Graph) returns (edges: EdgeList)
    requires forall x :: x in listing <==> x in g
    ensures forall a, b :: (a, b) in edges <==> Edge(g, a, b)
  {
    edges := [];
    for i := 0 to |listing|
      invariant forall a, b :: (a, b) in edges <==> a in listing[..i] && Edge(g, a, b)
    {
      var d := listing[i];
      ghost var before := edges;
      for j := 0 to |g[d]|
        invariant forall a, b :: (a, b) in edges <==> (a, b) in before || (a == d && b in g[d][..j])
      {
        edges := edges + [(d, g[d][j])];
        assert g[d][..j + 1] == g[d][..j] + [g[d][j]];
      }
      assert g[d][..|g[d]|] == g[d];
      assert listing[..i + 1] == listing[..i] + [d];
    }
    assert listing[..|listing|] == listing;
  }

  function KeepEdges(edges: EdgeList, keep: set<Id>): (r: EdgeList)
    ensures forall a, b :: (a, b) in r <==> (a, b) in edges && a in keep && b in keep
  {
    if edges == [] then []
    else
      var (a, b) := edges[0];
      assert edges == [(a, b)] + edges[1..];
      var r := KeepEdges(edges[1..], keep);
      if a in keep && b in keep then [(a, b)] + r else r
  }

  ghost predicate InFocus(g: Graph, focus: Option<Id>, x: Id)
  {
    focus.None? || Linked(g, focus.value, x)
  }

  /** Leaving out everything but one component loses no dependency inside it. */
  lemma ComponentKeepsPaths(g: Graph, keep: set<Id>, a: Id, b: Id)
    requires forall x, y :: Edge(g, x, y) ==> (x in keep <==> y in keep)
    requires a in keep && Depends(g, a, b)
    ensures Depends(Restrict(g, keep), a, b)
  {
    var h := Restrict(g, keep);
    var c :| Edge(g, a, c) && Reach(g, c, b);
    var p :| IsPath(g, p, c, b);
    PathStaysInside(g, keep, p, c, b);
    assert IsPath(h, p, c, b);
  }

  /** The nodes reported are those of the focused component, the edges reported are all
      the dependencies among them, and the cycle flag answers for that component. */
  method QueryDependencyGraph(listing: seq<Id>, g: Graph, focus: Option<Id>)
    returns (nodes: seq<Id>, edges: EdgeList, hasCycles: bool)
    requires Distinct(listing) && forall x :: x in listing <==> x in g
    ensures Distinct(nodes)
    ensures forall x :: x in nodes <==> x in g && InFocus(g, focus, x)
    ensures forall a, b :: (a, b) in edges <==> Edge(g, a, b) && InFocus(g, focus, a)
    ensures forall a, b :: (a, b) in edges ==> InFocus(g, focus, b)
    ensures hasCycles <==> exists x :: InFocus(g, focus, x) && Depends(g, x, x)
  {
    nodes := listing;
    edges := ListEdges(listing, g);
    ghost var keep := Nodes(g);
    if focus.Some? {
      var component := FocusSet(edges, g, focus.value);
      forall x, y | Edge(g, x, y) ensures x in component <==> y in component {
        if x in component { LinkedStep(g, focus.value, x, y); }
        if y in component { LinkedStep(g, focus.value, y, x); }
      }
      keep := component;
      nodes := KeepIn(nodes, component);
      edges := KeepEdges(edges, component);
    }
    hasCycles := DetectGraphCycles(nodes, edges);
    CycleOfComponent(g, keep, Restrict(EdgeGraph(edges), Elems(nodes)));
  }

  lemma CycleOfComponent(g: Graph, keep: set<Id>, h: Graph)
    requires forall x, y :: Edge(g, x, y) ==> (x in keep <==> y in keep)
    requires forall x, y :: Edge(h, x, y) <==> Edge(g, x, y) && x in keep && y in g
    ensures HasCycle(h) <==> exists x :: x in keep && Depends(g, x, x)
  {
    if HasCycle(h) {
      var a :| Depends(h, a, a);
      var c :| Edge(h, a, c) && Reach(h, c, a);
      ReachMonotone(h, g, c, a);
      assert a in keep && Depends(g, a, a);
    }
    if x :| x in keep && Depends(g, x, x) {
      ComponentKeepsPaths(g, keep, x, x);
      var k := Restrict(g, keep);
      DropDangling(k, h, x);
    }
  }

  /** A cycle never passes through a listed dependency that is not a node. */
  lemma DropDangling(k: Graph, h: Graph, a: Id)
    requires Depends(k, a, a)
    requires forall x, y :: Edge(k, x, y) && (exists z :: Edge(k, y, z)) ==> Edge(h, x, y)
    ensures HasCycle(h)
  {
    var c :| Edge(k, a, c) && Reach(k, c, a);
    var p :| IsPath(k, p, c, a);
    forall i | 0 <= i < |p| - 1 ensures Edge(h, p[i], p[i + 1]) {
      assert Edge(k, p[i], p[i + 1]);
      if i + 1 < |p| - 1 { assert Edge(k, p[i + 1], p[i + 1 + 1]); }
    }
    assert IsPath(h, p, c, a);
    assert Edge(h, a, c) by {
      if |p| > 1 { assert Edge(k, p[0], p[0 + 1]); }
    }
    assert Depends(h, a, a);
  }
}
