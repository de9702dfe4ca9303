/** The dependency_validation validator: Kahn's algorithm, dependents first, over the
    raw dependency dictionary found in the session state. */
module DependencyValidator {
  import opened Ids
  import opened Graphs

  // ----- The raw state

  datatype Item = Text(id: Id) | NonText

  datatype Value = NotAList | Items(items: seq<Item>)

  /** A dictionary: its keys in insertion order and its values. */
  datatype Dict = Dict(keys: seq<Id>, values: map<Id, Value>)
  {
    ghost predicate Valid()
    {
      Distinct(keys) && forall x :: x in keys <==> x in values
    }
  }

  datatype GraphField = NoGraph | NotADict | GraphDict(dict: Dict)

  datatype OrderField = NoOrder | OrderNotAList | OrderList(items: seq<Item>)

  datatype Verdict =
    | NothingToCheck
    | MalformedGraph
    | MalformedOrder
    | OrderAccepted(order: seq<Id>)
    | Checked(passed: bool, hasCycle: bool, cycleNodes: set<Id>, invalidRefs: seq<(Id, Id)>, order: seq<Id>)

  function Texts(items: seq<Item>): seq<Id>
  {
    if items == [] then []
    else (if items[0].Text? then [items[0].id] else []) + Texts(items[1..])
  }

  /** The strings of a list value; any other value counts as having none. */
  function AsStrList(v: Value): seq<Id>
  {
    if v.Items? then Texts(v.items) else []
  }

  /** The lists keep their strings, in order and as often as they are there, and nothing else. */
  lemma {:induction false} TextsConcat(a: seq<Item>, b: seq<Item>)
    ensures Texts(a + b) == Texts(a) + Texts(b)
    ensures forall x :: Texts([Text(x)]) == [x]
    ensures Texts([NonText]) == [] == Texts([])
  {
    forall x ensures Texts([Text(x)]) == [x] {
      assert [Text(x)][1..] == [];
    }
    assert [NonText][1..] == [];
    if a == [] {
      assert a + b == b;
    } else {
      assert a + b == [a[0]] + (a[1..] + b);
      TextsConcat(a[1..], b);
    }
  }

  lemma {:induction false} TextsMembers(items: seq<Item>)
    ensures forall x :: x in Texts(items) <==> Text(x) in items
  {
    if items != [] {
      TextsMembers(items[1..]);
      assert items == [items[0]] + items[1..];
    }
  }

  /** The dictionary lists b under a. */
  ghost predicate DictLists(d: Dict, a: Id, b: Id)
  {
    a in d.values && d.values[a].Items? && Text(b) in d.values[a].items
  }

  lemma GraphOfExactly(d: Dict)
    ensures GraphOf(d).Keys == d.values.Keys
    ensures forall a, b :: Edge(GraphOf(d), a, b) <==> DictLists(d, a, b)
  {
    forall a, b ensures Edge(GraphOf(d), a, b) <==> DictLists(d, a, b) {
      if a in d.values && d.values[a].Items? { TextsMembers(d.values[a].items); }
    }
  }

  /** Dependencies go round in a circle: p lists its successor at every place and ends where
      it begins. */
  ghost predicate Circle(d: Dict, p: seq<Id>)
  {
    |p| > 1 && p[0] == p[|p| - 1] && forall i, j :: 0 <= i < j < |p| && j == i + 1 ==> DictLists(d, p[i], p[j])
  }

  lemma CircleIsCycle(d: Dict)
    ensures HasCycle(GraphOf(d)) <==> exists p :: Circle(d, p)
  {
    var g := GraphOf(d);
    GraphOfExactly(d);
    if p :| Circle(d, p) {
      assert IsPath(g, p[1..], p[1], p[0]) by {
        forall i, j | 0 <= i < j < |p[1..]| && j == i + 1 ensures Edge(g, p[1..][i], p[1..][j]) {
          assert DictLists(d, p[i + 1], p[j + 1]);
        }
      }
      assert DictLists(d, p[0], p[1]);
      assert Depends(g, p[0], p[0]);
    }
    if HasCycle(g) {
      var a :| Depends(g, a, a);
      var c :| Edge(g, a, c) && Reach(g, c, a);
      var q :| IsPath(g, q, c, a);
      var p := [a] + q;
      forall i, j | 0 <= i < j < |p| && j == i + 1 ensures DictLists(d, p[i], p[j]) {
        if i > 0 { assert Edge(g, q[i - 1], q[j - 1]); }
      }
      assert Circle(d, p);
    }
  }

  function GraphOf(d: Dict): Graph
  {
    map n | n in d.values :: AsStrList(d.values[n])
  }

  // ----- In-degrees

  /** How often x is listed by the nodes among `keys` that are not done yet. */
  ghost function Load(g: Graph, keys: seq<Id>, done: set<Id>, x: Id): nat
    requires forall k :: k in keys ==> k in g
  {
    if keys == [] then 0
    else
      var last := keys[|keys| - 1];
      Load(g, keys[..|keys| - 1], done, x) + if last in done then 0 else multiset(g[last])[x]
  }

  lemma {:induction false} LoadZero(g: Graph, keys: seq<Id>, done: set<Id>, x: Id)
    requires forall k :: k in keys ==> k in g
    ensures Load(g, keys, done, x) == 0 <==> forall k :: k in keys && k !in done ==> x !in g[k]
  {
    if keys != [] {
      var front, last := keys[..|keys| - 1], keys[|keys| - 1];
      assert keys == front + [last];
      LoadZero(g, front, done, x);
      assert x in g[last] <==> multiset(g[last])[x] > 0;
    }
  }

  lemma {:induction false} LoadAfter(g: Graph, keys: seq<Id>, done: set<Id>, n: Id, x: Id)
    requires forall k :: k in keys ==> k in g
    requires Distinct(keys) && n !in done
    ensures Load(g, keys, done + {n}, x) == Load(g, keys, done, x) - if n in keys then multiset(g[n])[x] else 0
  {
    if keys != [] {
      var front, last := keys[..|keys| - 1], keys[|keys| - 1];
      assert keys == front + [last];
      LoadAfter(g, front, done, n, x);
      assert n in keys <==> n in front || n == last;
    }
  }

  method CountInDegrees(g: Graph, keys: seq<Id>) returns (inDegree: map<Id, int>)
    requires forall x :: x in keys <==> x in g
    ensures inDegree.Keys == g.Keys
    ensures forall x :: x in g ==> inDegree[x] == Load(g, keys, {}, x)
  {
    inDegree := map n | n in g :: 0;
    for i := 0 to |keys|
      invariant inDegree.Keys == g.Keys
      invariant forall x :: x in g ==> inDegree[x] == Load(g, keys[..i], {}, x)
    {
      var deps := g[keys[i]];
      ghost var before := inDegree;
      for j := 0 to |deps|
        invariant inDegree.Keys == g.Keys
        invariant forall x :: x in g ==> inDegree[x] == before[x] + multiset(deps[..j])[x]
      {
        assert deps[..j + 1] == deps[..j] + [deps[j]];
        if deps[j] in inDegree {
          inDegree := inDegree[deps[j] := inDegree[deps[j]] + 1];
        }
      }
      assert deps[..|deps|] == deps;
      assert keys[..i + 1][..i] == keys[..i] && keys[..i + 1][i] == keys[i];
    }
    assert keys[..|keys|] == keys;
  }

  /** x lies on a cycle, or something on a cycle depends on it. */
  ghost predicate BelowCycle(g: Graph, x: Id)
  {
    exists a :: Depends(g, a, a) && Reach(g, a, x)
  }

  // ----- Kahn's algorithm, dependents first

  /** What has been sorted so far: nothing is sorted before a node that lists it. */
  ghost predicate SortedPrefix(g: Graph, order: seq<Id>)
  {
    && (forall x :: x in order ==> x in g)
    && forall i, a :: 0 <= i < |order| && Edge(g, a, order[i]) ==> a in order[..i]
  }

  ghost predicate KahnState(g: Graph, keys: seq<Id>, inDegree: map<Id, int>, order: seq<Id>, queue: seq<Id>)
    requires forall x :: x in keys <==> x in g
  {
    && inDegree.Keys == g.Keys
    && Distinct(order) && Distinct(queue) && (forall x :: x in queue ==> x !in order)
    && SortedPrefix(g, order)
    && (forall x :: x in g ==> inDegree[x] == Load(g, keys, Elems(order), x))
    && (forall x :: x in order || x in queue <==> x in g && inDegree[x] == 0)
  }

  /** A node whose in-degree has dropped to zero may be sorted next. */
  lemma SortNext(g: Graph, keys: seq<Id>, inDegree: map<Id, int>, order: seq<Id>, queue: seq<Id>)
    requires forall x :: x in keys <==> x in g
    requires KahnState(g, keys, inDegree, order, queue) && queue != []
    ensures queue[0] in g && queue[0] !in order
    ensures SortedPrefix(g, order + [queue[0]])
  {
    var n := queue[0];
    assert n in queue;
    LoadZero(g, keys, Elems(order), n);
    forall i, a | 0 <= i <= |order| && Edge(g, a, (order + [n])[i])
      ensures a in (order + [n])[..i]
    {
      assert (order + [n])[..i] == order[..i];
      if i == |order| { assert order[..i] == order; }
    }
  }

  lemma CycleInsideIsAbove(g: Graph, s: set<Id>, x: Id)
    requires forall y :: y in s ==> Reach(g, y, x)
    requires HasCycle(Restrict(g, s))
    ensures BelowCycle(g, x)
  {
    var h := Restrict(g, s);
    var a :| Depends(h, a, a);
    var c :| Edge(h, a, c) && Reach(h, c, a);
    ReachMonotone(h, g, c, a);
    assert Depends(g, a, a) && Reach(g, a, x);
  }

  lemma PredecessorAbove(g: Graph, rest: set<Id>, y: Id, x: Id) returns (a: Id)
    requires HasPredecessorIn(g, rest, y) && Reach(g, y, x)
    ensures a in rest && Edge(g, a, y) && Reach(g, a, x)
  {
    a :| a in rest && Edge(g, a, y);
    ReachEdge(g, a, y);
    ReachTransitive(g, a, y, x);
  }

  /** When every node left over is still listed by one left over, all lie below a cycle. */
  lemma LeftoverIsBelowCycle(g: Graph, rest: set<Id>, x: Id)
    requires forall y {:trigger HasPredecessorIn(g, rest, y)} :: y in rest ==> HasPredecessorIn(g, rest, y)
    requires x in rest
    ensures BelowCycle(g, x)
  {
    var s := set y | y in rest && Reach(g, y, x);
    assert x in s by { ReachSelf(g, x); }
    LeftoverAbove(g, rest, s, x);
    CycleInsideIsAbove(g, s, x);
  }

  lemma LeftoverAbove(g: Graph, rest: set<Id>, s: set<Id>, x: Id)
    requires forall y {:trigger HasPredecessorIn(g, rest, y)} :: y in rest ==> HasPredecessorIn(g, rest, y)
    requires x in s && forall y :: y in s <==> y in rest && Reach(g, y, x)
    ensures HasCycle(Restrict(g, s))
  {
    forall y | y in s ensures HasPredecessorIn(Restrict(g, s), s, y) {
      var a := PredecessorAbove(g, rest, y, x);
      assert a in s && Edge(Restrict(g, s), a, y);
    }
    NoSourceMeansCycle(Restrict(g, s), s);
  }

  lemma {:induction false} SortedIsAboveCycles(g: Graph, order: seq<Id>, p: seq<Id>, a: Id, x: Id)
    requires SortedPrefix(g, order)
    requires IsPath(g, p, a, x) && x in order
    ensures forall y :: y in p ==> y in order
  {
    if |p| > 1 {
      var q := p[..|p| - 1];
      var c := p[|p| - 2];
      assert Edge(g, c, p[|p| - 2 + 1]);
      var i :| 0 <= i < |order| && order[i] == x;
      assert c in order[..i];
      SortedIsAboveCycles(g, order, q, a, c);
      assert p == q + [x];
    }
  }

  lemma SortedIsOffCycles(g: Graph, order: seq<Id>, a: Id, x: Id)
    requires SortedPrefix(g, order) && Distinct(order)
    requires Depends(g, a, a) && Reach(g, a, x)
    ensures x !in order
  {
    if x in order {
      var p :| IsPath(g, p, a, x);
      SortedIsAboveCycles(g, order, p, a, x);
      assert a in p;
      var c :| Edge(g, a, c) && Reach(g, c, a);
      var q :| IsPath(g, q, c, a);
      SortedIsAboveCycles(g, order, q, c, a);
      assert c in q;
      var pos := Positions(order);
      var h := Restrict(g, Elems(order));
      var rank := map y | y in pos :: -pos[y];
      forall y, z | Edge(h, y, z) ensures y in rank && (z in rank ==> rank[y] > rank[z]) {
        assert y in order[..pos[z]];
      }
      RankedIsAcyclic(h, rank);
      assert IsPath(h, q, c, a) by {
        forall i | 0 <= i < |q| - 1 ensures Edge(h, q[i], q[i + 1]) {
          assert Edge(g, q[i], q[i + 1]) && q[i] in q && q[i + 1] in q;
        }
      }
      assert Depends(h, a, a);
      assert false;
    }
  }

  lemma SortedFits(g: Graph, order: seq<Id>)
    requires Distinct(order) && SortedPrefix(g, order)
    ensures |order| <= |g|
  {
    ElemsCard(order);
    Subcard(Elems(order), g.Keys);
  }

  method InitialQueue(keys: seq<Id>, inDegree: map<Id, int>) returns (queue: seq<Id>)
    requires Distinct(keys) && forall x :: x in keys <==> x in inDegree
    ensures Distinct(queue)
    ensures forall x :: x in queue <==> x in inDegree && inDegree[x] == 0
  {
    queue := [];
    for i := 0 to |keys|
      invariant Distinct(queue)
      invariant forall x :: x in queue <==> x in keys[..i] && inDegree[x] == 0
    {
      assert keys[i] !in keys[..i];
      if inDegree[keys[i]] == 0 {
        queue := queue + [keys[i]];
      }
      assert keys[..i + 1] == keys[..i] + [keys[i]];
    }
    assert keys[..|keys|] == keys;
  }

  lemma SortedLoad(g: Graph, keys: seq<Id>, order: seq<Id>, n: Id, x: Id)
    requires Distinct(keys) && forall k :: k in keys <==> k in g
    requires n in g && n !in order
    ensures Load(g, keys, Elems(order), x) >= multiset(g[n])[x]
    ensures Load(g, keys, Elems(order + [n]), x) == Load(g, keys, Elems(order), x) - multiset(g[n])[x]
  {
    LoadCovers(g, keys, Elems(order), n, x);
    LoadAfter(g, keys, Elems(order), n, x);
    assert Elems(order + [n]) == Elems(order) + {n};
  }

  /** One turn of the loop: the head of the queue is sorted and what it lists is released. */
  method Turn(g: Graph, ghost keys: seq<Id>, inDegree0: map<Id, int>, order0: seq<Id>, queue0: seq<Id>)
    returns (inDegree: map<Id, int>, order: seq<Id>, queue: seq<Id>)
    requires Distinct(keys) && forall x :: x in keys <==> x in g
    requires KahnState(g, keys, inDegree0, order0, queue0) && queue0 != []
    ensures KahnState(g, keys, inDegree, order, queue)
    ensures |order0| < |order| <= |g|
  {
    TurnBegins(g, keys, inDegree0, order0, queue0);
    var node := queue0[0];
    order := order0 + [node];
    inDegree, queue := Release(g, order, g[node], inDegree0, queue0[1..]);
  }

  /** The head of the queue can be sorted, and what it lists can be released. */
  lemma TurnBegins(g: Graph, keys: seq<Id>, inDegree: map<Id, int>, order: seq<Id>, queue: seq<Id>)
    requires Distinct(keys) && forall x :: x in keys <==> x in g
    requires KahnState(g, keys, inDegree, order, queue) && queue != []
    ensures var next, rest := order + [queue[0]], queue[1..];
            && queue[0] in g && Distinct(next) && |next| <= |g| && SortedPrefix(g, next)
            && Distinct(rest) && (forall x :: x in rest ==> x !in next)
            && (forall x :: x in next || x in rest <==> x in g && inDegree[x] == 0)
            && forall x :: x in g ==>
                 && inDegree[x] >= multiset(g[queue[0]])[x]
                 && Load(g, keys, Elems(next), x) == inDegree[x] - multiset(g[queue[0]])[x]
  {
    SortNext(g, keys, inDegree, order, queue);
    forall x { SortedLoad(g, keys, order, queue[0], x); }
    assert queue == [queue[0]] + queue[1..];
    SortedFits(g, order + [queue[0]]);
  }

  /** Kahn's loop. The order holds exactly the nodes that are not on or below a cycle,
      each before everything it depends on. */
  method SortDependentsFirst(g: Graph, keys: seq<Id>) returns (order: seq<Id>)
    requires Distinct(keys) && forall x :: x in keys <==> x in g
    ensures Distinct(order) && SortedPrefix(g, order)
    ensures forall x :: x in g ==> (x !in order <==> BelowCycle(g, x))
  {
    var inDegree := CountInDegrees(g, keys);
    order := [];
    assert Elems(order) == {};
    var queue := InitialQueue(keys, inDegree);
    while queue != []
      invariant KahnState(g, keys, inDegree, order, queue)
      decreases |g| - |order|
    {
      inDegree, order, queue := Turn(g, keys, inDegree, order, queue);
    }
    SortedExactly(g, keys, inDegree, order);
  }

  /** When the queue runs empty, what is sorted is exactly what is not below a cycle. */
  lemma SortedExactly(g: Graph, keys: seq<Id>, inDegree: map<Id, int>, order: seq<Id>)
    requires forall x :: x in keys <==> x in g
    requires KahnState(g, keys, inDegree, order, [])
    ensures forall x :: x in g ==> (x !in order <==> BelowCycle(g, x))
  {
    var rest := g.Keys - Elems(order);
    forall y | y in g && y !in order ensures HasPredecessorIn(g, rest, y) {
      LoadZero(g, keys, Elems(order), y);
      var k :| k in keys && k !in Elems(order) && y in g[k];
      assert k in rest && Edge(g, k, y);
    }
    forall x | x in g
      ensures x !in order <==> BelowCycle(g, x)
    {
      if x !in order {
        LeftoverIsBelowCycle(g, rest, x);
      }
      if BelowCycle(g, x) {
        var a :| Depends(g, a, a) && Reach(g, a, x);
        SortedIsOffCycles(g, order, a, x);
      }
    }
  }

  /** Lower the in-degree of every node the sorted node lists; queue those that reach zero. */
  method Release(g: Graph, order: seq<Id>, deps: seq<Id>, inDegree0: map<Id, int>, queue0: seq<Id>)
    returns (inDegree: map<Id, int>, queue: seq<Id>)
    requires inDegree0.Keys == g.Keys
    requires forall x :: x in g ==> inDegree0[x] >= multiset(deps)[x]
    requires Distinct(queue0) && forall x :: x in queue0 ==> x !in order
    requires forall x :: x in order || x in queue0 <==> x in g && inDegree0[x] == 0
    ensures inDegree.Keys == g.Keys
    ensures forall x :: x in g ==> inDegree[x] == inDegree0[x] - multiset(deps)[x]
    ensures Distinct(queue) && forall x :: x in queue ==> x !in order
    ensures forall x :: x in order || x in queue <==> x in g && inDegree[x] == 0
  {
    inDegree, queue := inDegree0, queue0;
    assert deps[0..] == deps;
    for j := 0 to |deps|
      invariant inDegree.Keys == g.Keys
      invariant forall x :: x in g ==> inDegree[x] == inDegree0[x] - multiset(deps)[x] + multiset(deps[j..])[x]
      invariant Distinct(queue) && forall x :: x in queue ==> x !in order
      invariant forall x :: x in order || x in queue <==> x in g && inDegree[x] == 0
    {
      var dep := deps[j];
      assert deps[j..] == [dep] + deps[j + 1..];
      if dep in inDegree {
        inDegree := inDegree[dep := inDegree[dep] - 1];
        if inDegree[dep] == 0 {
          queue := queue + [dep];
        }
      }
    }
  }

  lemma {:induction false} LoadCovers(g: Graph, keys: seq<Id>, done: set<Id>, n: Id, x: Id)
    requires forall k :: k in keys ==> k in g
    requires n in keys && n !in done
    ensures Load(g, keys, done, x) >= multiset(g[n])[x]
  {
    var front, last := keys[..|keys| - 1], keys[|keys| - 1];
    assert keys == front + [last];
    if n != last {
      LoadCovers(g, front, done, n, x);
    }
  }

  method FindInvalidRefs(g: Graph, keys: seq<Id>) returns (refs: seq<(Id, Id)>)
    requires forall x :: x in keys <==> x in g
    ensures forall a, b :: (a, b) in refs <==> Edge(g, a, b) && b !in g
  {
    refs := [];
    for i := 0 to |keys|
      invariant forall a, b :: (a, b) in refs <==> a in keys[..i] && Edge(g, a, b) && b !in g
    {
      var node := keys[i];
      ghost var before := refs;
      for j := 0 to |g[node]|
        invariant forall a, b :: (a, b) in refs <==> (a, b) in before || (a == node && b in g[node][..j] && b !in g)
      {
        assert g[node][..j + 1] == g[node][..j] + [g[node][j]];
        if g[node][j] !in g {
          refs := refs + [(node, g[node][j])];
        }
      }
      assert g[node][..|g[node]|] == g[node];
      assert keys[..i + 1] == keys[..i] + [node];
    }
    assert keys[..|keys|] == keys;
  }

  /** A dictionary passes exactly when its graph is acyclic and every reference exists. */
  method DependencyValidation(graph: GraphField, order: OrderField) returns (v: Verdict)
    requires graph.GraphDict? ==> graph.dict.Valid()
    ensures graph.NoGraph? ==> v == match order
                                    case NoOrder => NothingToCheck
                                    case OrderNotAList => MalformedOrder
                                    case OrderList(items) => OrderAccepted(Texts(items))
    ensures graph.NotADict? ==> v == MalformedGraph
    ensures graph.GraphDict? ==>
              var d, g := graph.dict, GraphOf(graph.dict);
              && v.Checked?
              && (v.hasCycle <==> exists p :: Circle(d, p))
              && (v.passed <==> !v.hasCycle && forall a, b :: DictLists(d, a, b) ==> b in d.values)
              && (forall a, b :: (a, b) in v.invalidRefs <==> DictLists(d, a, b) && b !in d.values)
              && (forall x :: x in v.cycleNodes <==> x in g && BelowCycle(g, x))
              && (!v.hasCycle ==> DependentsFirst(g, v.order))
  {
    match graph
    case NoGraph =>
      match order {
        case NoOrder => v := NothingToCheck;
        case OrderNotAList => v := MalformedOrder;
        case OrderList(items) => v := OrderAccepted(Texts(items));
      }
    case NotADict => v := MalformedGraph;
    case GraphDict(dict) =>
      var g, keys := GraphOf(dict), dict.keys;
      var refs := FindInvalidRefs(g, keys);
      var sorted := SortDependentsFirst(g, keys);
      var hasCycle := |sorted| != |keys|;
      var cycleNodes := set n | n in keys && n !in sorted;
      LengthTellsCycle(g, keys, sorted);
      GraphOfExactly(dict);
      CircleIsCycle(dict);
      assert refs == [] <==> DependencyClosed(g) by {
        if refs != [] {
          assert (refs[0].0, refs[0].1) in refs;
        }
        if !DependencyClosed(g) {
          var a, b :| Edge(g, a, b) && b !in g;
          assert (a, b) in refs;
        }
      }
      v := Checked(!hasCycle && refs == [], hasCycle, cycleNodes, refs, sorted);
  }

  /** Comparing lengths, as the validator does, decides whether there is a cycle. */
  lemma LengthTellsCycle(g: Graph, keys: seq<Id>, order: seq<Id>)
    requires Distinct(keys) && forall x :: x in keys <==> x in g
    requires Distinct(order) && SortedPrefix(g, order)
    requires forall x :: x in g ==> (x !in order <==> BelowCycle(g, x))
    ensures |order| != |keys| <==> HasCycle(g)
    ensures |order| == |keys| ==> DependentsFirst(g, order)
  {
    ElemsCard(keys);
    ElemsCard(order);
    assert Elems(keys) == g.Keys && Elems(order) <= g.Keys;
    if |order| == |keys| {
      EqualCard(Elems(order), g.Keys);
      forall i, b | 0 <= i < |order| && Edge(g, order[i], b) && b in g
        ensures b in order[i + 1..]
      {
        assert b in order;
        var k :| 0 <= k < |order| && order[k] == b;
        assert order[i] in order[..k];
        assert order[i + 1..][k - i - 1] == b;
      }
      DependentsFirstIsAcyclic(g, order);
    } else {
      assert Elems(order) != g.Keys;
      var x :| x in g && x !in order;
    }
  }
}
