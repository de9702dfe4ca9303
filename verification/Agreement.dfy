/** The repository decides in three places whether a dependency graph has a cycle. */
module Agreement {
  import opened Ids
  import opened Graphs
  import CycleQuery
  import DependencyResolver
  import DependencyValidator

  ghost predicate NoRepeats(g: Graph)
  {
    forall n :: n in g ==> Distinct(g[n])
  }

  /** Leaving out references to what is not a node never hides or adds a cycle. */
  lemma DanglingIsIrrelevant(g: Graph, h: Graph)
    requires forall a, b :: Edge(h, a, b) <==> Edge(g, a, b) && b in g
    ensures HasCycle(h) <==> HasCycle(g)
  {
    CycleQuery.CycleOfComponent(g, Nodes(g), h);
    if HasCycle(g) {
      var a :| Depends(g, a, a);
      assert a in Nodes(g);
    }
  }

  /** What the depth-first search, the resolver and the validator decide, on one graph. */
  lemma VerdictsAgree(g: Graph, keys: seq<Id>, edges: CycleQuery.EdgeList)
    requires Distinct(keys) && forall x :: x in keys <==> x in g
    requires forall a, b :: (a, b) in edges <==> Edge(g, a, b)
    ensures HasCycle(Restrict(CycleQuery.EdgeGraph(edges), Elems(keys))) <==> HasCycle(g)
    ensures HasCycle(DependencyResolver.NamedGraph(g, keys)) <==> HasCycle(g)
    ensures NoRepeats(g) ==> (DependencyResolver.Orderable(g, keys) <==> !HasCycle(g))
  {
    DanglingIsIrrelevant(g, Restrict(CycleQuery.EdgeGraph(edges), Elems(keys)));
    DanglingIsIrrelevant(g, DependencyResolver.NamedGraph(g, keys));
  }

  /** On a graph without repeated entries all three answer alike, and what they answer is
      whether some deliverable depends on itself. */
  method AskAll(g: Graph, keys: seq<Id>) returns (validator: bool, search: bool, resolver: bool)
    requires Distinct(keys) && forall x :: x in keys <==> x in g
    requires NoRepeats(g)
    ensures validator == search == resolver == HasCycle(g)
  {
    var sorted := DependencyValidator.SortDependentsFirst(g, keys);
    DependencyValidator.LengthTellsCycle(g, keys, sorted);
    validator := |sorted| != |keys|;
    var edges := CycleQuery.ListEdges(keys, g);
    search := CycleQuery.DetectGraphCycles(keys, edges);
    var order := DependencyResolver.TopologicalSort(keys, g);
    resolver := order.None?;
    VerdictsAgree(g, keys, edges);
  }

  /** With a repeated entry they differ: the resolver subtracts a dependency once but has
      counted it twice, and gives up on an acyclic graph. */
  lemma RepeatedEntryMisleadsResolver()
    ensures exists g: Graph, keys :: Distinct(keys) && !HasCycle(g) && !DependencyResolver.Orderable(g, keys)
  {
    var g, keys := MisleadingGraph(Id("a"), Id("b"));
  }

  lemma MisleadingGraph(a: Id, b: Id) returns (g: Graph, keys: seq<Id>)
    requires |a.text| == |b.text| == 1 && a.text[0] != b.text[0]
    ensures Distinct(keys) && !HasCycle(g) && !DependencyResolver.Orderable(g, keys)
  {
    g, keys := map[a := [b, b], b := []], [a, b];
    TwiceListedIsAcyclic(g, a, b);
    TwiceListed(g, keys, a, b);
  }

  lemma TwiceListedIsAcyclic(g: Graph, a: Id, b: Id)
    requires g == map[a := [b, b], b := []] && a != b
    ensures !HasCycle(g)
  {
    RankedIsAcyclic(g, map[a := 1, b := 0]);
  }

  lemma TwiceListed(g: Graph, keys: seq<Id>, a: Id, b: Id)
    requires keys == [a, b] && a in g && g[a] == [b, b]
    ensures !DependencyResolver.Orderable(g, keys)
  {
    var keep := set x | x in keys;
    assert b in keep && a in keys;
    assert [b, b][1..] == [b] && [b][1..] == [];
    assert KeepIn([b], keep) == [b] + KeepIn([], keep) == [b];
    assert KeepIn([b, b], keep) == [b] + KeepIn([b], keep) == [b, b];
    var inside := DependencyResolver.Inside(g, keys, a);
    assert inside == [b, b];
    assert inside[0] == inside[1];
    assert DependencyResolver.RepeatsDependency(g, keys);
  }
}
