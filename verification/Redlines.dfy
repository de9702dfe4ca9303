/** simplify_redlines: joining neighbouring tracked changes of one kind and one author. */
module Redlines {
  import opened Ids
  import opened Markup

  datatype Kind = Insertion | Deletion

  /** A tracked wrapper, any other element, or the text between elements. */
  datatype Node =
    | Tracked(kind: Kind, author: string, content: seq<string>)
    | Element(xml: string)
    | Between(data: string)

  // ----- What a container says

  /** A piece of content: inserted or deleted by somebody, or untracked. */
  datatype Piece = Change(kind: Kind, author: string, xml: string) | Plain(xml: string)

  function Changes(kind: Kind, author: string, content: seq<string>): seq<Piece>
  {
    if content == [] then [] else [Change(kind, author, content[0])] + Changes(kind, author, content[1..])
  }

  /** Whitespace between elements says nothing; any other text is content. */
  function NodeMeaning(n: Node): seq<Piece>
  {
    match n
    case Tracked(kind, author, content) => Changes(kind, author, content)
    case Element(xml) => [Plain(xml)]
    case Between(data) => if IsBlank(data) then [] else [Plain(data)]
  }

  function Meaning(nodes: seq<Node>): seq<Piece>
  {
    if nodes == [] then [] else NodeMeaning(nodes[0]) + Meaning(nodes[1..])
  }

  function Wrappers(nodes: seq<Node>): nat
  {
    if nodes == [] then 0 else (if nodes[0].Tracked? then 1 else 0) + Wrappers(nodes[1..])
  }

  /** The document with every change of one kind taken and every change of the other dropped:
      keeping insertions accepts all changes, keeping deletions rejects all. */
  function View(keep: Kind, pieces: seq<Piece>): seq<string>
  {
    if pieces == [] then []
    else
      var rest := View(keep, pieces[1..]);
      if pieces[0].Change? && pieces[0].kind != keep then rest else [pieces[0].xml] + rest
  }

  lemma {:induction false} ChangesConcat(kind: Kind, author: string, a: seq<string>, b: seq<string>)
    ensures Changes(kind, author, a + b) == Changes(kind, author, a) + Changes(kind, author, b)
  {
    if a == [] {
      assert a + b == b;
    } else {
      assert a + b == [a[0]] + (a[1..] + b);
      ChangesConcat(kind, author, a[1..], b);
    }
  }

  lemma {:induction false} MeaningConcat(a: seq<Node>, b: seq<Node>)
    ensures Meaning(a + b) == Meaning(a) + Meaning(b)
    ensures Wrappers(a + b) == Wrappers(a) + Wrappers(b)
  {
    if a == [] {
      assert a + b == b;
    } else {
      assert a + b == [a[0]] + (a[1..] + b);
      MeaningConcat(a[1..], b);
    }
  }

  lemma OneNode(n: Node)
    ensures Meaning([n]) == NodeMeaning(n)
    ensures Wrappers([n]) == if n.Tracked? then 1 else 0
  {
  }

  /** A wrapper says its content item by item, by whom and as what; an element itself; text
      other than whitespace itself. */
  lemma NodeSays(n: Node)
    ensures n.Tracked? ==> |Meaning([n])| == |n.content|
    ensures n.Tracked? ==> forall i :: 0 <= i < |n.content| ==>
                             Meaning([n])[i] == Change(n.kind, n.author, n.content[i])
    ensures n.Element? ==> Meaning([n]) == [Plain(n.xml)]
    ensures n.Between? ==> Meaning([n]) == if IsBlank(n.data) then [] else [Plain(n.data)]
  {
    assert [n][1..] == [];
    if n.Tracked? { ChangesAt(n.kind, n.author, n.content); }
  }

  lemma {:induction false} ChangesAt(kind: Kind, author: string, content: seq<string>)
    ensures |Changes(kind, author, content)| == |content|
    ensures forall i :: 0 <= i < |content| ==> Changes(kind, author, content)[i] == Change(kind, author, content[i])
  {
    if content != [] { ChangesAt(kind, author, content[1..]); }
  }

  /** A view shows piece after piece what is untracked or of the kind kept. */
  lemma {:induction false} ViewConcat(keep: Kind, a: seq<Piece>, b: seq<Piece>)
    ensures View(keep, a + b) == View(keep, a) + View(keep, b)
  {
    if a == [] {
      assert a + b == b;
    } else {
      assert a + b == [a[0]] + (a[1..] + b);
      ViewConcat(keep, a[1..], b);
    }
  }

  lemma ViewOne(keep: Kind, p: Piece)
    ensures p.Plain? || p.kind == keep ==> View(keep, [p]) == [p.xml]
    ensures p.Change? && p.kind != keep ==> View(keep, [p]) == []
  {
    assert [p][1..] == [];
  }

  ghost function WrapperPositions(nodes: seq<Node>): set<nat>
  {
    set p: nat | p < |nodes| && nodes[p].Tracked?
  }

  lemma {:induction false} WrappersExactly(nodes: seq<Node>)
    ensures Wrappers(nodes) == |WrapperPositions(nodes)|
  {
    if nodes != [] {
      var n := |nodes| - 1;
      var front, last := nodes[..n], nodes[n];
      WrappersExactly(front);
      MeaningConcat(front, [last]);
      OneNode(last);
      assert nodes == front + [last];
      assert n !in WrapperPositions(front);
      assert WrapperPositions(nodes) ==
             if last.Tracked? then WrapperPositions(front) + {n} else WrapperPositions(front);
    }
  }

  // ----- Joining two wrappers

  predicate BlankBetween(ns: seq<Node>, p: nat, q: nat)
    requires p < q <= |ns|
  {
    forall k :: p < k < q ==> ns[k].Between? && IsBlank(ns[k].data)
  }

  /** Same kind, same author, only whitespace between them. */
  predicate Mergeable(ns: seq<Node>, p: nat, q: nat)
  {
    && p < q < |ns| && ns[p].Tracked? && ns[q].Tracked?
    && ns[p].kind == ns[q].kind && ns[p].author == ns[q].author
    && BlankBetween(ns, p, q)
  }

  function MergeInto(ns: seq<Node>, p: nat, q: nat): (r: seq<Node>)
    requires p < q < |ns| && ns[p].Tracked? && ns[q].Tracked?
    ensures |r| == |ns| - 1 && r[p] == Tracked(ns[p].kind, ns[p].author, ns[p].content + ns[q].content)
    ensures forall k :: 0 <= k < p || p < k < q ==> r[k] == ns[k]
    ensures forall k :: q <= k < |r| ==> r[k] == ns[k + 1]
  {
    ns[..p] + ([Tracked(ns[p].kind, ns[p].author, ns[p].content + ns[q].content)] + ns[p + 1..q]) + ns[q + 1..]
  }

  lemma {:induction false} BlanksSayNothing(ns: seq<Node>)
    requires forall k :: 0 <= k < |ns| ==> ns[k].Between? && IsBlank(ns[k].data)
    ensures Meaning(ns) == [] && Wrappers(ns) == 0
  {
    if ns != [] {
      BlanksSayNothing(ns[1..]);
    }
  }

  lemma MergedPair(kind: Kind, author: string, a: seq<string>, m: seq<Node>, b: seq<string>)
    requires forall k :: 0 <= k < |m| ==> m[k].Between? && IsBlank(m[k].data)
    ensures var x := [Tracked(kind, author, a)] + m + [Tracked(kind, author, b)];
            var y := [Tracked(kind, author, a + b)] + m;
            Meaning(x) == Meaning(y) && Wrappers(x) == Wrappers(y) + 1
  {
    BlanksSayNothing(m);
    OneNode(Tracked(kind, author, a));
    OneNode(Tracked(kind, author, b));
    OneNode(Tracked(kind, author, a + b));
    ChangesConcat(kind, author, a, b);
    MeaningConcat([Tracked(kind, author, a)] + m, [Tracked(kind, author, b)]);
    MeaningConcat([Tracked(kind, author, a)], m);
    MeaningConcat([Tracked(kind, author, a + b)], m);
  }

  lemma ReplaceNodes(a: seq<Node>, x: seq<Node>, y: seq<Node>, b: seq<Node>)
    ensures Meaning(x) == Meaning(y) ==> Meaning(a + x + b) == Meaning(a + y + b)
    ensures Wrappers(a + x + b) - Wrappers(a + y + b) == Wrappers(x) - Wrappers(y)
  {
    MeaningConcat(a + x, b);
    MeaningConcat(a, x);
    MeaningConcat(a + y, b);
    MeaningConcat(a, y);
  }

  lemma SplitNodes(ns: seq<Node>, p: nat, q: nat)
    requires p < q < |ns|
    ensures ns == ns[..p] + ([ns[p]] + ns[p + 1..q] + [ns[q]]) + ns[q + 1..]
  {
  }

  /** Joining keeps who changed what, in which order, and removes exactly one wrapper. */
  lemma MergeIntoKeeps(ns: seq<Node>, p: nat, q: nat)
    requires Mergeable(ns, p, q)
    ensures Meaning(MergeInto(ns, p, q)) == Meaning(ns)
    ensures Wrappers(MergeInto(ns, p, q)) == Wrappers(ns) - 1
  {
    var kind, author, a, m, b := ns[p].kind, ns[p].author, ns[p].content, ns[p + 1..q], ns[q].content;
    MergedPair(kind, author, a, m, b);
    ReplaceNodes(ns[..p], [Tracked(kind, author, a)] + m + [Tracked(kind, author, b)],
                 [Tracked(kind, author, a + b)] + m, ns[q + 1..]);
    SplitNodes(ns, p, q);
  }

  // ----- The normal form of one kind

  predicate SettledBefore(kind: Kind, ns: seq<Node>, to: nat)
  {
    forall p, q :: 0 <= p < to && p < q < |ns| && ns[p].Tracked? && ns[p].kind == kind ==> !Mergeable(ns, p, q)
  }

  predicate Settled(kind: Kind, ns: seq<Node>)
  {
    SettledBefore(kind, ns, |ns|)
  }

  /** If these are wrappers of one kind and author, there is an element or text between them. */
  ghost predicate Apart(ns: seq<Node>, p: nat, q: nat)
    requires p < q < |ns|
  {
    ns[p].Tracked? && ns[q].Tracked? && ns[p].kind == ns[q].kind && ns[p].author == ns[q].author ==>
      exists k :: p < k < q && !(ns[k].Between? && IsBlank(ns[k].data))
  }

  /** The normal form of one kind, by positions. */
  ghost predicate AllApart(kind: Kind, ns: seq<Node>)
  {
    forall p, q {:trigger Apart(ns, p, q)} ::
      0 <= p < q < |ns| && ns[p].Tracked? && ns[p].kind == kind ==> Apart(ns, p, q)
  }

  lemma ApartExactly(ns: seq<Node>, p: nat, q: nat)
    requires p < q < |ns|
    ensures Apart(ns, p, q) <==> !Mergeable(ns, p, q)
  {
  }

  lemma SettledExactly(kind: Kind, ns: seq<Node>)
    ensures Settled(kind, ns) <==> AllApart(kind, ns)
  {
    forall p, q | 0 <= p < q < |ns| ensures Apart(ns, p, q) <==> !Mergeable(ns, p, q) {
      ApartExactly(ns, p, q);
    }
  }

  /** In a merged list a mergeable pair before the merged wrapper, or of the other kind,
      was mergeable already. */
  lemma MergedPairs(ns: seq<Node>, p: nat, q: nat, i: nat, j: nat)
    requires Mergeable(ns, p, q) && Mergeable(MergeInto(ns, p, q), i, j)
    requires i < p || ns[p].kind != MergeInto(ns, p, q)[i].kind
    ensures Mergeable(ns, if i < q then i else i + 1, if j < q then j else j + 1)
  {
    var r := MergeInto(ns, p, q);
    assert r[p] == Tracked(ns[p].kind, ns[p].author, ns[p].content + ns[q].content);
    assert forall k :: 0 <= k < q && k != p ==> r[k] == ns[k];
    assert forall k :: q <= k < |r| ==> r[k] == ns[k + 1];
    assert i < p ==> j <= p;
    assert i < p || i >= q;
    if i >= q {
      forall k | i + 1 < k < j + 1 ensures ns[k].Between? && IsBlank(ns[k].data) {
        assert ns[k] == r[k - 1];
      }
    }
  }

  lemma MergeIntoSettled(kind: Kind, ns: seq<Node>, p: nat, q: nat)
    requires Mergeable(ns, p, q)
    ensures ns[p].kind == kind && SettledBefore(kind, ns, p) ==> SettledBefore(kind, MergeInto(ns, p, q), p)
    ensures ns[p].kind != kind && Settled(kind, ns) ==> Settled(kind, MergeInto(ns, p, q))
  {
    var r := MergeInto(ns, p, q);
    if ns[p].kind == kind && SettledBefore(kind, ns, p) {
      forall i, j | 0 <= i < p && i < j < |r| && r[i].Tracked? && r[i].kind == kind ensures !Mergeable(r, i, j) {
        if Mergeable(r, i, j) { MergedPairs(ns, p, q, i, j); }
      }
    }
    if ns[p].kind != kind && Settled(kind, ns) {
      forall i, j | 0 <= i < |r| && i < j < |r| && r[i].Tracked? && r[i].kind == kind ensures !Mergeable(r, i, j) {
        if Mergeable(r, i, j) { MergedPairs(ns, p, q, i, j); }
      }
    }
  }

  // ----- The pass over one container

  /** The position of the next wrapper of the kind at or after `from`, or the length. */
  method FindTracked(kind: Kind, ns: seq<Node>, from: nat) returns (i: nat)
    requires from <= |ns|
    ensures from <= i <= |ns| && (i < |ns| ==> ns[i].Tracked? && ns[i].kind == kind)
    ensures forall k :: from <= k < i ==> !(ns[k].Tracked? && ns[k].kind == kind)
  {
    i := from;
    while i < |ns| && !(ns[i].Tracked? && ns[i].kind == kind)
      invariant from <= i <= |ns|
      invariant forall k :: from <= k < i ==> !(ns[k].Tracked? && ns[k].kind == kind)
    {
      i := i + 1;
    }
  }

  /** The sibling scan of _can_merge_tracked. */
  method CanMergeTracked(ns: seq<Node>, p: nat, q: nat) returns (ok: bool)
    requires p < q < |ns| && ns[p].Tracked? && ns[q].Tracked? && ns[p].kind == ns[q].kind
    ensures ok <==> Mergeable(ns, p, q)
  {
    if ns[p].author != ns[q].author {
      return false;
    }
    for k := p + 1 to q
      invariant forall l :: p < l < k ==> ns[l].Between? && IsBlank(ns[l].data)
    {
      if !ns[k].Between? || !IsBlank(ns[k].data) {
        return false;
      }
    }
    ok := true;
  }

  /** What a pass keeps: the meaning, the tally, the other kind's normal form, and its own
      normal form if it was there already. */
  ghost predicate Kept(kind: Kind, before: seq<Node>, after: seq<Node>, count: nat)
  {
    && Meaning(after) == Meaning(before)
    && Wrappers(after) + count == Wrappers(before)
    && (Settled(Other(kind), before) ==> Settled(Other(kind), after))
    && (Settled(kind, before) ==> after == before && count == 0)
  }

  /** Same meaning, in normal form, and unchanged if that form was reached before. */
  ghost predicate Normalised(before: seq<Node>, after: seq<Node>)
  {
    && Meaning(after) == Meaning(before) && AllApart(Insertion, after) && AllApart(Deletion, after)
    && (AllApart(Insertion, before) && AllApart(Deletion, before) ==> after == before)
  }

  function Other(kind: Kind): Kind
  {
    if kind == Insertion then Deletion else Insertion
  }

  class Container {
    var children: seq<Node>

    constructor (children: seq<Node>)
      ensures this.children == children
    {
      this.children := children;
    }

    /** _merge_tracked_changes_in: the list of wrappers is walked through the children
        themselves; `curr` and `next` are two consecutive wrappers of the kind. */
    method MergeTrackedChangesIn(kind: Kind) returns (count: nat)
      modifies this
      ensures Meaning(children) == Meaning(old(children))
      ensures Wrappers(children) + count == Wrappers(old(children))
      ensures AllApart(kind, children)
      ensures AllApart(Other(kind), old(children)) ==> AllApart(Other(kind), children)
      ensures AllApart(kind, old(children)) ==> children == old(children) && count == 0
    {
      ghost var before := children;
      SettledExactly(kind, before);
      SettledExactly(Other(kind), before);
      count := 0;
      var curr := FindTracked(kind, children, 0);
      if curr == |children| {
        SettledExactly(kind, children);
        return;
      }
      var next := FindTracked(kind, children, curr + 1);
      while next < |children|
        invariant curr < next <= |children|
        invariant children[curr].Tracked? && children[curr].kind == kind
        invariant next < |children| ==> children[next].Tracked? && children[next].kind == kind
        invariant forall k :: curr < k < next ==> !(children[k].Tracked? && children[k].kind == kind)
        invariant Kept(kind, before, children, count)
        invariant SettledBefore(kind, children, curr)
        decreases |children| - curr
      {
        var ok := CanMergeTracked(children, curr, next);
        if ok {
          MergeStep(kind, before, children, count, curr, next);
          MergedAt(children, curr, next);
          children := MergeInto(children, curr, next);
          count := count + 1;
          next := FindTracked(kind, children, next);
        } else {
          PassOver(kind, children, curr, next);
          curr := next;
          next := FindTracked(kind, children, curr + 1);
        }
      }
      PassOver(kind, children, curr, next);
      SettledExactly(kind, children);
      SettledExactly(Other(kind), children);
    }

    /** The insertion pass, then the deletion pass. */
    method SimplifyRedlines() returns (count: nat)
      modifies this
      ensures Normalised(old(children), children)
      ensures View(Insertion, Meaning(children)) == View(Insertion, Meaning(old(children)))
      ensures View(Deletion, Meaning(children)) == View(Deletion, Meaning(old(children)))
      ensures Wrappers(children) + count == Wrappers(old(children))
    {
      var insertions := MergeTrackedChangesIn(Insertion);
      var deletions := MergeTrackedChangesIn(Deletion);
      count := insertions + deletions;
    }
  }

  // ----- All containers of a document

  function Contents(containers: seq<Container>): seq<seq<Node>>
    reads containers
  {
    seq(|containers|, i requires 0 <= i < |containers| reads containers => containers[i].children)
  }

  function TotalWrappers(contents: seq<seq<Node>>): nat
  {
    if contents == [] then 0 else TotalWrappers(contents[..|contents| - 1]) + Wrappers(contents[|contents| - 1])
  }

  lemma TotalWrappersUpTo(contents: seq<seq<Node>>, i: nat)
    requires i < |contents|
    ensures TotalWrappers(contents[..i + 1]) == TotalWrappers(contents[..i]) + Wrappers(contents[i])
  {
    assert contents[..i + 1][..i] == contents[..i];
  }

  /** The element a piece stands for. */
  function ElementOf(p: Piece): Option<string>
  {
    Some(p.xml)
  }

  /** A document read from the outside in. */
  datatype Token = Leaf(piece: Piece) | Open(piece: Piece) | Close

  /** What a container says when every element that is a container of the document itself is
      read in its place, down to a depth; `place` tells where such an element is listed. */
  function Unfold(meanings: seq<seq<Piece>>, place: map<string, nat>, pieces: seq<Piece>, depth: nat): seq<Token>
    decreases depth, |pieces|
  {
    if pieces == [] then []
    else
      var rest := Unfold(meanings, place, pieces[1..], depth);
      var xml := ElementOf(pieces[0]);
      if depth > 0 && xml.Some? && xml.value in place && place[xml.value] < |meanings| then
        [Open(pieces[0])] + Unfold(meanings, place, meanings[place[xml.value]], depth - 1) + [Close] + rest
      else [Leaf(pieces[0])] + rest
  }

  function Meanings(contents: seq<seq<Node>>): seq<seq<Piece>>
  {
    seq(|contents|, i requires 0 <= i < |contents| => Meaning(contents[i]))
  }

  /** The tree of containers under one of them. */
  function TreeMeaning(contents: seq<seq<Node>>, place: map<string, nat>, k: nat, depth: nat): seq<Token>
    requires k < |contents|
  {
    Unfold(Meanings(contents), place, Meaning(contents[k]), depth)
  }

  /** Every container is normalised, and so every tree of containers says what it said. */
  ghost predicate DocumentKept(before: seq<seq<Node>>, after: seq<seq<Node>>)
  {
    && |before| == |after|
    && (forall k :: 0 <= k < |before| ==> Normalised(before[k], after[k]))
    && forall place, k, depth :: 0 <= k < |before| ==>
         TreeMeaning(after, place, k, depth) == TreeMeaning(before, place, k, depth)
  }

  lemma TreesKept(before: seq<seq<Node>>, after: seq<seq<Node>>)
    requires |before| == |after| && forall k :: 0 <= k < |before| ==> Normalised(before[k], after[k])
    ensures DocumentKept(before, after)
  {
    assert Meanings(after) == Meanings(before);
  }

  ghost predicate NormalisedUpTo(before: seq<seq<Node>>, now: seq<seq<Node>>, i: nat)
  {
    i <= |before| == |now| && forall k :: 0 <= k < i ==> Normalised(before[k], now[k])
  }

  /** The first i containers are done, the others as they were. */
  ghost predicate Halfway(before: seq<seq<Node>>, now: seq<seq<Node>>, i: nat, count: nat)
  {
    && NormalisedUpTo(before, now, i)
    && (forall k :: i <= k < |before| ==> now[k] == before[k])
    && TotalWrappers(now[..i]) + count == TotalWrappers(before[..i])
  }

  lemma OneMoreNormalised(before: seq<seq<Node>>, now: seq<seq<Node>>, next: seq<seq<Node>>, i: nat)
    requires NormalisedUpTo(before, now, i) && i < |before| == |next|
    requires (forall k :: 0 <= k < i ==> next[k] == now[k]) && Normalised(before[i], next[i])
    ensures NormalisedUpTo(before, next, i + 1)
  {
    forall k | 0 <= k < i + 1 ensures Normalised(before[k], next[k]) {
      if k < i { assert next[k] == now[k]; }
    }
  }

  lemma OneMoreCounted(before: seq<seq<Node>>, now: seq<seq<Node>>, i: nat, count: nat, done: seq<Node>, removed: nat)
    requires i < |before| == |now| && now[i] == before[i]
    requires TotalWrappers(now[..i]) + count == TotalWrappers(before[..i])
    requires Wrappers(done) + removed == Wrappers(now[i])
    ensures TotalWrappers(now[i := done][..i + 1]) + (count + removed) == TotalWrappers(before[..i + 1])
  {
    assert now[i := done][..i] == now[..i];
    TotalWrappersUpTo(before, i);
    TotalWrappersUpTo(now[i := done], i);
  }

  lemma OneMoreDone(before: seq<seq<Node>>, now: seq<seq<Node>>, i: nat, count: nat, done: seq<Node>, removed: nat)
    requires Halfway(before, now, i, count) && i < |before|
    requires Normalised(now[i], done) && Wrappers(done) + removed == Wrappers(now[i])
    ensures Halfway(before, now[i := done], i + 1, count + removed)
  {
    OneMoreCounted(before, now, i, count, done, removed);
    OneMoreNormalised(before, now, now[i := done], i);
  }

  lemma AllDone(before: seq<seq<Node>>, after: seq<seq<Node>>, count: nat)
    requires Halfway(before, after, |before|, count)
    ensures DocumentKept(before, after) && TotalWrappers(after) + count == TotalWrappers(before)
  {
    assert after[..|after|] == after && before[..|before|] == before;
    TreesKept(before, after);
  }

  /** simplify_redlines, over the paragraphs and cells of a document, none listed twice: each
      keeps its meaning and reaches the normal form of both kinds, and the result is the
      number of wrappers removed from all of them. */
  method SimplifyDocument(containers: seq<Container>) returns (count: nat)
    requires forall i, j :: 0 <= i < j < |containers| ==> containers[i] != containers[j]
    modifies containers
    ensures DocumentKept(old(Contents(containers)), Contents(containers))
    ensures TotalWrappers(Contents(containers)) + count == TotalWrappers(old(Contents(containers)))
  {
    ghost var before := Contents(containers);
    count := 0;
    for i := 0 to |containers|
      invariant Halfway(before, Contents(containers), i, count)
    {
      ghost var now := Contents(containers);
      var removed := containers[i].SimplifyRedlines();
      OneMoreDone(before, now, i, count, containers[i].children, removed);
      assert Contents(containers) == now[i := containers[i].children];
      count := count + removed;
    }
    AllDone(before, Contents(containers), count);
  }

  lemma MergeStep(kind: Kind, before: seq<Node>, ns: seq<Node>, count: nat, p: nat, q: nat)
    requires Mergeable(ns, p, q) && ns[p].kind == kind
    requires Kept(kind, before, ns, count) && SettledBefore(kind, ns, p)
    ensures Kept(kind, before, MergeInto(ns, p, q), count + 1) && SettledBefore(kind, MergeInto(ns, p, q), p)
  {
    MergeIntoKeeps(ns, p, q);
    MergeIntoSettled(kind, ns, p, q);
    MergeIntoSettled(Other(kind), ns, p, q);
  }

  lemma MergedAt(ns: seq<Node>, p: nat, q: nat)
    requires Mergeable(ns, p, q)
    ensures var r := MergeInto(ns, p, q);
            r[p].Tracked? && r[p].kind == ns[p].kind && forall k :: p < k < q ==> r[k].Between?
  {
  }

  /** When two consecutive wrappers of the kind cannot be joined, the first is settled. */
  lemma PassOver(kind: Kind, ns: seq<Node>, p: nat, q: nat)
    requires p < q <= |ns| && ns[p].Tracked? && ns[p].kind == kind
    requires q < |ns| ==> ns[q].Tracked? && !Mergeable(ns, p, q)
    requires forall k :: p < k < q ==> !(ns[k].Tracked? && ns[k].kind == kind)
    requires SettledBefore(kind, ns, p)
    ensures SettledBefore(kind, ns, if q < |ns| then q else |ns|)
  {
  }
}
