/** merge_runs: joining neighbouring runs that are formatted alike, and the texts inside them. */
module MergeRuns {
  import opened Ids
  import opened Markup

  /** A child of a run. Run properties and other elements are kept as serialized XML. */
  datatype Child =
    | Props(xml: string)
    | Text(chars: string)
    | Other(xml: string)
    | Gap(data: string)

  /** A child of the container. A gap is anything that is not an element. */
  datatype Node =
    | Run(children: seq<Child>)
    | Element(xml: string)
    | Between(data: string)

  // ----- What a container says

  datatype Item = Char(c: char) | Object(xml: string)

  /** One piece of content: an item under a run formatting, or an element that is no run. */
  datatype Piece = Formatted(props: Option<string>, item: Item) | Unformatted(xml: string)

  /** The first property element, if there is one. */
  function Formatting(children: seq<Child>): Option<string>
  {
    if children == [] then None
    else if children[0].Props? then Some(children[0].xml)
    else Formatting(children[1..])
  }

  function Chars(s: string): seq<Item>
  {
    if s == [] then [] else [Char(s[0])] + Chars(s[1..])
  }

  function ItemsOf(c: Child): seq<Item>
  {
    match c
    case Props(_) => []
    case Text(s) => Chars(s)
    case Other(x) => [Object(x)]
    case Gap(_) => []
  }

  function Items(children: seq<Child>): seq<Item>
  {
    if children == [] then [] else ItemsOf(children[0]) + Items(children[1..])
  }

  function Pieces(props: Option<string>, items: seq<Item>): seq<Piece>
  {
    if items == [] then [] else [Formatted(props, items[0])] + Pieces(props, items[1..])
  }

  function NodeMeaning(n: Node): seq<Piece>
  {
    match n
    case Run(children) => Pieces(Formatting(children), Items(children))
    case Element(xml) => [Unformatted(xml)]
    case Between(_) => []
  }

  /** The sequence of formatted content items of a container, texts as characters. */
  function Meaning(nodes: seq<Node>): seq<Piece>
  {
    if nodes == [] then [] else NodeMeaning(nodes[0]) + Meaning(nodes[1..])
  }

  function RunCount(nodes: seq<Node>): nat
  {
    if nodes == [] then 0 else (if nodes[0].Run? then 1 else 0) + RunCount(nodes[1..])
  }

  ghost function RunPositions(nodes: seq<Node>): set<nat>
  {
    set p: nat | p < |nodes| && nodes[p].Run?
  }

  lemma {:induction false} RunCountExactly(nodes: seq<Node>)
    ensures RunCount(nodes) == |RunPositions(nodes)|
  {
    if nodes != [] {
      var n := |nodes| - 1;
      var front, last := nodes[..n], nodes[n];
      RunCountExactly(front);
      RunCountAppend(front, last);
      assert nodes == front + [last];
      assert n !in RunPositions(front);
      assert RunPositions(nodes) == if last.Run? then RunPositions(front) + {n} else RunPositions(front);
    }
  }

  lemma RunCountAppend(front: seq<Node>, last: Node)
    ensures RunCount(front + [last]) == RunCount(front) + if last.Run? then 1 else 0
  {
    MeaningConcat(front, [last]);
    assert [last][1..] == [];
  }

  lemma {:induction false} CharsConcat(a: string, b: string)
    ensures Chars(a + b) == Chars(a) + Chars(b)
  {
    if a == [] {
      assert a + b == b;
    } else {
      assert a + b == [a[0]] + (a[1..] + b);
      CharsConcat(a[1..], b);
    }
  }

  lemma {:induction false} ItemsConcat(a: seq<Child>, b: seq<Child>)
    ensures Items(a + b) == Items(a) + Items(b)
  {
    if a == [] {
      assert a + b == b;
    } else {
      assert a + b == [a[0]] + (a[1..] + b);
      ItemsConcat(a[1..], b);
    }
  }

  lemma {:induction false} PiecesConcat(props: Option<string>, a: seq<Item>, b: seq<Item>)
    ensures Pieces(props, a + b) == Pieces(props, a) + Pieces(props, b)
  {
    if a == [] {
      assert a + b == b;
    } else {
      assert a + b == [a[0]] + (a[1..] + b);
      PiecesConcat(props, a[1..], b);
    }
  }

  lemma {:induction false} MeaningConcat(a: seq<Node>, b: seq<Node>)
    ensures Meaning(a + b) == Meaning(a) + Meaning(b)
    ensures RunCount(a + b) == RunCount(a) + RunCount(b)
  {
    if a == [] {
      assert a + b == b;
    } else {
      assert a + b == [a[0]] + (a[1..] + b);
      MeaningConcat(a[1..], b);
    }
  }

  /** A run says its items one by one, under its formatting; an element itself; a gap nothing. */
  lemma NodeSays(n: Node)
    ensures n.Run? ==> |Meaning([n])| == |Items(n.children)|
    ensures n.Run? ==> forall i :: 0 <= i < |Meaning([n])| ==>
                         Meaning([n])[i] == Formatted(Formatting(n.children), Items(n.children)[i])
    ensures n.Element? ==> Meaning([n]) == [Unformatted(n.xml)]
    ensures n.Between? ==> Meaning([n]) == []
  {
    assert [n][1..] == [];
    if n.Run? { PiecesAt(Formatting(n.children), Items(n.children)); }
  }

  lemma {:induction false} PiecesAt(props: Option<string>, items: seq<Item>)
    ensures |Pieces(props, items)| == |items|
    ensures forall i :: 0 <= i < |items| ==> Pieces(props, items)[i] == Formatted(props, items[i])
  {
    if items != [] { PiecesAt(props, items[1..]); }
  }

  /** A text says its characters, another element itself, properties and gaps nothing. */
  lemma ChildSays(c: Child)
    ensures c.Text? ==> |Items([c])| == |c.chars|
    ensures c.Text? ==> forall i :: 0 <= i < |c.chars| ==> Items([c])[i] == Char(c.chars[i])
    ensures c.Other? ==> Items([c]) == [Object(c.xml)]
    ensures c.Props? || c.Gap? ==> Items([c]) == []
  {
    assert [c][1..] == [];
    if c.Text? { CharsAt(c.chars); }
  }

  lemma {:induction false} CharsAt(s: string)
    ensures |Chars(s)| == |s| && forall i :: 0 <= i < |s| ==> Chars(s)[i] == Char(s[i])
  {
    if s != [] { CharsAt(s[1..]); }
  }

  /** The formatting by position: that of the first property element. */
  predicate FirstProps(cs: seq<Child>, k: nat)
  {
    k < |cs| && cs[k].Props? && forall j :: 0 <= j < k ==> !cs[j].Props?
  }

  lemma {:induction false} FormattingExactly(cs: seq<Child>)
    ensures Formatting(cs) == None <==> forall k :: 0 <= k < |cs| ==> !cs[k].Props?
    ensures forall k: nat :: FirstProps(cs, k) ==> Formatting(cs) == Some(cs[k].xml)
    ensures Formatting(cs).Some? ==> exists k: nat :: FirstProps(cs, k)
  {
    if cs != [] && !cs[0].Props? {
      var rest := cs[1..];
      FormattingExactly(rest);
      forall k: nat | FirstProps(cs, k) ensures Formatting(cs) == Some(cs[k].xml) {
        assert FirstProps(rest, k - 1);
      }
      if Formatting(cs).Some? {
        var k: nat :| FirstProps(rest, k);
        assert FirstProps(cs, k + 1);
      }
    } else if cs != [] {
      assert FirstProps(cs, 0);
    }
  }

  /** Neither run has properties, or the first properties of both read the same. */
  ghost predicate SameFormat(a: seq<Child>, b: seq<Child>)
  {
    || ((forall k :: 0 <= k < |a| ==> !a[k].Props?) && (forall k :: 0 <= k < |b| ==> !b[k].Props?))
    || exists i: nat, j: nat :: FirstProps(a, i) && FirstProps(b, j) && a[i].xml == b[j].xml
  }

  lemma SameFormatExactly(a: seq<Child>, b: seq<Child>)
    ensures SameFormat(a, b) <==> Formatting(a) == Formatting(b)
  {
    FormattingExactly(a);
    FormattingExactly(b);
  }

  // ----- Joining the texts of one run

  predicate OnlyBlanks(s: seq<Child>)
  {
    forall c :: c in s ==> c.Gap? && IsBlank(c.data)
  }

  /** Two text elements with nothing but whitespace between them. */
  predicate Adjacent(cs: seq<Child>, p: nat, q: nat)
  {
    p < q < |cs| && cs[p].Text? && cs[q].Text? && OnlyBlanks(cs[p + 1..q])
  }

  predicate NoAdjacentFrom(cs: seq<Child>, from: nat)
  {
    forall p, q :: from <= p < q < |cs| ==> !Adjacent(cs, p, q)
  }

  predicate Consolidated(cs: seq<Child>)
  {
    NoAdjacentFrom(cs, 0)
  }

  /** Extend text p by text q and drop q. */
  function JoinTexts(cs: seq<Child>, p: nat, q: nat): (r: seq<Child>)
    requires p < q < |cs| && cs[p].Text? && cs[q].Text?
    ensures |r| == |cs| - 1 && r[p] == Text(cs[p].chars + cs[q].chars)
    ensures forall k :: 0 <= k < p || p < k < q ==> r[k] == cs[k]
    ensures forall k :: q <= k < |r| ==> r[k] == cs[k + 1]
  {
    cs[..p] + ([Text(cs[p].chars + cs[q].chars)] + cs[p + 1..q]) + cs[q + 1..]
  }

  lemma {:induction false} BlanksSayNothing(s: seq<Child>)
    requires OnlyBlanks(s)
    ensures Items(s) == [] && Formatting(s) == None
  {
    if s != [] {
      assert s[0] in s;
      BlanksSayNothing(s[1..]);
    }
  }

  lemma {:induction false} FormattingConcat(a: seq<Child>, b: seq<Child>)
    ensures Formatting(a + b) == if Formatting(a).Some? then Formatting(a) else Formatting(b)
  {
    if a == [] {
      assert a + b == b;
    } else {
      assert a + b == [a[0]] + (a[1..] + b);
      FormattingConcat(a[1..], b);
    }
  }

  lemma OneItem(c: Child)
    ensures Items([c]) == ItemsOf(c)
    ensures Formatting([c]) == if c.Props? then Some(c.xml) else None
  {
  }

  lemma JoinedPair(x: string, m: seq<Child>, y: string)
    requires OnlyBlanks(m)
    ensures Items([Text(x)] + m + [Text(y)]) == Items([Text(x + y)] + m)
    ensures Formatting([Text(x)] + m + [Text(y)]) == None == Formatting([Text(x + y)] + m)
  {
    BlanksSayNothing(m);
    CharsConcat(x, y);
    OneItem(Text(x));
    OneItem(Text(y));
    OneItem(Text(x + y));
    ItemsConcat([Text(x)] + m, [Text(y)]);
    ItemsConcat([Text(x)], m);
    ItemsConcat([Text(x + y)], m);
    FormattingConcat([Text(x)] + m, [Text(y)]);
    FormattingConcat([Text(x)], m);
    FormattingConcat([Text(x + y)], m);
  }

  lemma ReplaceInside(a: seq<Child>, x: seq<Child>, y: seq<Child>, b: seq<Child>)
    requires Items(x) == Items(y) && Formatting(x) == Formatting(y)
    ensures Items(a + x + b) == Items(a + y + b)
    ensures Formatting(a + x + b) == Formatting(a + y + b)
  {
    ItemsConcat(a + x, b);
    ItemsConcat(a, x);
    ItemsConcat(a + y, b);
    ItemsConcat(a, y);
    FormattingConcat(a + x, b);
    FormattingConcat(a, x);
    FormattingConcat(a + y, b);
    FormattingConcat(a, y);
  }

  lemma JoinTextsKeeps(cs: seq<Child>, p: nat, q: nat)
    requires Adjacent(cs, p, q)
    ensures Items(JoinTexts(cs, p, q)) == Items(cs)
    ensures Formatting(JoinTexts(cs, p, q)) == Formatting(cs)
  {
    var a, m, b := cs[..p], cs[p + 1..q], cs[q + 1..];
    var x, y := cs[p].chars, cs[q].chars;
    JoinedPair(x, m, y);
    ReplaceInside(a, [Text(x)] + m + [Text(y)], [Text(x + y)] + m, b);
    SplitAtPair(cs, p, q);
  }

  lemma SplitAtPair(cs: seq<Child>, p: nat, q: nat)
    requires p < q < |cs|
    ensures cs == cs[..p] + ([cs[p]] + cs[p + 1..q] + [cs[q]]) + cs[q + 1..]
  {
  }

  // ----- _consolidate_text

  /** The positions of all text elements, in order. */
  ghost predicate TextIndex(cs: seq<Child>, ts: seq<nat>)
  {
    && (forall k :: 0 <= k < |ts| ==> ts[k] < |cs| && cs[ts[k]].Text?)
    && (forall k, l :: 0 <= k < l < |ts| ==> ts[k] < ts[l])
    && forall p :: 0 <= p < |cs| && cs[p].Text? ==> p in ts
  }

  method TextPositions(cs: seq<Child>) returns (ts: seq<nat>)
    ensures TextIndex(cs, ts)
  {
    ts := [];
    for i := 0 to |cs|
      invariant forall k :: 0 <= k < |ts| ==> ts[k] < i && cs[ts[k]].Text?
      invariant forall k, l :: 0 <= k < l < |ts| ==> ts[k] < ts[l]
      invariant forall p :: 0 <= p < i && cs[p].Text? ==> p in ts
    {
      if cs[i].Text? {
        ts := ts + [i];
      }
    }
  }

  ghost predicate NoTextBetween(cs: seq<Child>, p: nat, q: nat)
  {
    forall i :: p < i < q && i < |cs| ==> !cs[i].Text?
  }

  /** Deciding the last pair settles everything from the earlier text on. */
  lemma PairSettled(cs: seq<Child>, p: nat, q: nat)
    requires p < q < |cs| && cs[p].Text? && cs[q].Text? && NoTextBetween(cs, p, q)
    requires NoAdjacentFrom(cs, q)
    ensures !Adjacent(cs, p, q) ==> NoAdjacentFrom(cs, p)
    ensures Adjacent(cs, p, q) ==> NoAdjacentFrom(JoinTexts(cs, p, q), p)
  {
    if !Adjacent(cs, p, q) {
      forall i, j | p <= i < j < |cs| ensures !Adjacent(cs, i, j) {
        if i == p && j > q {
          assert cs[i + 1..j][q - i - 1] == cs[q];
          assert cs[q] in cs[i + 1..j];
        }
      }
    } else {
      var r := JoinTexts(cs, p, q);
      forall i, j | p <= i < j < |r| ensures !Adjacent(r, i, j) {
        if Adjacent(r, i, j) {
          JoinedAdjacent(cs, p, q, i, j);
        }
      }
    }
  }

  lemma JoinedAdjacent(cs: seq<Child>, p: nat, q: nat, i: nat, j: nat)
    requires Adjacent(cs, p, q) && NoTextBetween(cs, p, q)
    requires p <= i < j < |cs| - 1 && Adjacent(JoinTexts(cs, p, q), i, j)
    ensures Adjacent(cs, if i == p then q else i + 1, j + 1)
    ensures i == p || i + 1 > q
  {
    var r := JoinTexts(cs, p, q);
    assert forall k :: p < k < q ==> r[k] == cs[k];
    assert forall k :: q <= k < |r| ==> r[k] == cs[k + 1];
    assert j >= q;
    if i == p {
      assert cs[q + 1..j + 1] == r[q..j];
      assert forall c :: c in r[q..j] ==> c in r[i + 1..j] by {
        assert r[i + 1..j][q - i - 1..] == r[q..j];
      }
    } else {
      assert i >= q;
      assert cs[i + 2..j + 1] == r[i + 1..j];
    }
  }

  /** With no text before position t, being settled from t on is being settled. */
  lemma SettledFromFirst(r: seq<Child>, t: nat)
    requires t <= |r| && NoAdjacentFrom(r, t) && forall k :: 0 <= k < t ==> !r[k].Text?
    ensures Consolidated(r)
  {
  }

  /** One step of the backward pass: join the text at curr to the one at prev if adjacent. */
  method JoinBackwards(cs: seq<Child>, prev: nat, curr: nat) returns (r: seq<Child>)
    requires prev < curr < |cs| && cs[prev].Text? && cs[curr].Text? && NoTextBetween(cs, prev, curr)
    requires NoAdjacentFrom(cs, curr)
    ensures Items(r) == Items(cs) && Formatting(r) == Formatting(cs)
    ensures prev < |r| && r[prev].Text? && r[..prev] == cs[..prev] && NoAdjacentFrom(r, prev)
    ensures !Adjacent(cs, prev, curr) ==> r == cs
  {
    PairSettled(cs, prev, curr);
    r := cs;
    if Adjacent(cs, prev, curr) {
      JoinTextsKeeps(cs, prev, curr);
      r := JoinTexts(cs, prev, curr);
      assert r[..prev] == cs[..prev];
    }
  }

  /** The texts the backward pass has not reached are where they were. */
  lemma PrefixKept(cs: seq<Child>, r: seq<Child>, ts: seq<nat>, i: nat)
    requires TextIndex(cs, ts) && 0 < i < |ts|
    requires ts[i] < |r| && r[..ts[i]] == cs[..ts[i]]
    ensures r[ts[i - 1]].Text? && NoTextBetween(r, ts[i - 1], ts[i])
    ensures r[..ts[i - 1]] == cs[..ts[i - 1]]
  {
  }

  /** _consolidate_text: from the last text to the first, join each to the one before it. */
  method ConsolidateText(cs: seq<Child>) returns (r: seq<Child>)
    ensures Items(r) == Items(cs) && Formatting(r) == Formatting(cs)
    ensures Consolidated(r)
    ensures Consolidated(cs) ==> r == cs
  {
    var ts := TextPositions(cs);
    r := cs;
    if ts == [] {
      SettledFromFirst(cs, |cs|);
      return;
    }
    var i := |ts| - 1;
    NoTextAfterLast(cs, ts);
    while i > 0
      invariant 0 <= i < |ts|
      invariant Items(r) == Items(cs) && Formatting(r) == Formatting(cs)
      invariant ts[i] < |r| && r[ts[i]].Text? && r[..ts[i]] == cs[..ts[i]]
      invariant NoAdjacentFrom(r, ts[i])
      invariant Consolidated(cs) ==> r == cs
    {
      PrefixKept(cs, r, ts, i);
      r := JoinBackwards(r, ts[i - 1], ts[i]);
      i := i - 1;
    }
    NoTextBeforeFirst(cs, r, ts);
    SettledFromFirst(r, ts[0]);
  }

  lemma NoTextAfterLast(cs: seq<Child>, ts: seq<nat>)
    requires TextIndex(cs, ts) && ts != []
    ensures NoAdjacentFrom(cs, ts[|ts| - 1])
  {
  }

  lemma NoTextBeforeFirst(cs: seq<Child>, r: seq<Child>, ts: seq<nat>)
    requires TextIndex(cs, ts) && ts != []
    requires ts[0] < |r| && r[..ts[0]] == cs[..ts[0]]
    ensures forall k :: 0 <= k < ts[0] ==> !r[k].Text?
  {
  }

  // ----- Joining neighbouring runs

  /** What _merge_run_content moves: the elements other than run properties. */
  function Moved(children: seq<Child>): (r: seq<Child>)
    ensures Items(r) == Items(children) && Formatting(r) == None
  {
    if children == [] then []
    else
      var rest := Moved(children[1..]);
      match children[0]
      case Text(_) => [children[0]] + rest
      case Other(_) => [children[0]] + rest
      case _ => rest
  }

  lemma MovedOne(c: Child)
    ensures Moved([c]) == (if c.Text? || c.Other? then [c] else []) && Moved([]) == []
  {
    assert [c][1..] == [];
  }

  /** What is moved is moved in order: texts and other elements, and nothing else. */
  lemma {:induction false} MovedConcat(a: seq<Child>, b: seq<Child>)
    ensures Moved(a + b) == Moved(a) + Moved(b)
  {
    if a == [] {
      assert a + b == b;
    } else {
      var all := a + b;
      assert all[0] == a[0] && all[1..] == a[1..] + b;
      MovedConcat(a[1..], b);
    }
  }

  predicate CanMerge(a: seq<Child>, b: seq<Child>)
  {
    Formatting(a) == Formatting(b)
  }

  /** q is the next element after p: only gaps lie between them. */
  predicate NextElement(ns: seq<Node>, p: nat, q: nat)
  {
    p < q < |ns| && !ns[q].Between? && forall k :: p < k < q ==> ns[k].Between?
  }

  /** Two runs formatted alike with no element between them. */
  predicate Mergeable(ns: seq<Node>, p: nat, q: nat)
  {
    NextElement(ns, p, q) && ns[p].Run? && ns[q].Run? && CanMerge(ns[p].children, ns[q].children)
  }

  /** No run that starts before position `to` can be merged with the element after it. */
  predicate SettledBefore(ns: seq<Node>, to: nat)
  {
    forall p, q :: 0 <= p < to && p < q < |ns| ==> !Mergeable(ns, p, q)
  }

  predicate ConsolidatedBefore(ns: seq<Node>, to: nat)
  {
    forall p :: 0 <= p < to && p < |ns| && ns[p].Run? ==> Consolidated(ns[p].children)
  }

  /** The normal form: no two neighbouring runs formatted alike, no two adjacent texts in a run. */
  predicate Normal(ns: seq<Node>)
  {
    SettledBefore(ns, |ns|) && ConsolidatedBefore(ns, |ns|)
  }

  /** If these are runs formatted alike, there is an element between them. */
  ghost predicate RunsApart(ns: seq<Node>, p: nat, q: nat)
    requires p < q < |ns|
  {
    ns[p].Run? && ns[q].Run? && SameFormat(ns[p].children, ns[q].children) ==>
      exists k :: p < k < q && !ns[k].Between?
  }

  /** If these are texts, there is something other than whitespace between them. */
  ghost predicate TextsApart(cs: seq<Child>, i: nat, j: nat)
    requires i < j < |cs|
  {
    cs[i].Text? && cs[j].Text? ==> exists k :: i < k < j && !(cs[k].Gap? && IsBlank(cs[k].data))
  }

  ghost predicate AllTextsApart(n: Node)
  {
    n.Run? ==>
      forall i, j {:trigger TextsApart(n.children, i, j)} :: 0 <= i < j < |n.children| ==> TextsApart(n.children, i, j)
  }

  /** The normal form by positions. */
  ghost predicate Reduced(ns: seq<Node>)
  {
    && (forall p, q {:trigger RunsApart(ns, p, q)} :: 0 <= p < q < |ns| ==> RunsApart(ns, p, q))
    && forall p {:trigger AllTextsApart(ns[p])} :: 0 <= p < |ns| ==> AllTextsApart(ns[p])
  }

  lemma TextsApartExactly(cs: seq<Child>, i: nat, j: nat)
    requires i < j < |cs|
    ensures TextsApart(cs, i, j) <==> !Adjacent(cs, i, j)
  {
    var m := cs[i + 1..j];
    assert forall k :: i < k < j ==> m[k - i - 1] == cs[k];
    assert forall k :: 0 <= k < |m| ==> m[k] == cs[k + i + 1];
  }

  lemma ConsolidatedExactly(n: Node)
    requires n.Run?
    ensures Consolidated(n.children) <==> AllTextsApart(n)
  {
    var cs := n.children;
    forall i, j | 0 <= i < j < |cs| ensures TextsApart(cs, i, j) <==> !Adjacent(cs, i, j) {
      TextsApartExactly(cs, i, j);
    }
    if Consolidated(cs) {
      forall i, j | 0 <= i < j < |cs| ensures TextsApart(cs, i, j) { }
    }
  }

  lemma RunsApartExactly(ns: seq<Node>, p: nat, q: nat)
    requires p < q < |ns|
    ensures RunsApart(ns, p, q) <==> !Mergeable(ns, p, q)
  {
    if ns[p].Run? && ns[q].Run? { SameFormatExactly(ns[p].children, ns[q].children); }
  }

  lemma NormalExactly(ns: seq<Node>)
    ensures Normal(ns) <==> Reduced(ns)
  {
    forall p, q | 0 <= p < q < |ns| ensures RunsApart(ns, p, q) <==> !Mergeable(ns, p, q) {
      RunsApartExactly(ns, p, q);
    }
    forall p | 0 <= p < |ns| ensures AllTextsApart(ns[p]) <==> (ns[p].Run? ==> Consolidated(ns[p].children)) {
      if ns[p].Run? { ConsolidatedExactly(ns[p]); }
    }
  }

  function MergeInto(ns: seq<Node>, p: nat, q: nat): (r: seq<Node>)
    requires p < q < |ns| && ns[p].Run? && ns[q].Run?
    ensures |r| == |ns| - 1 && r[p] == Run(ns[p].children + Moved(ns[q].children))
    ensures forall k :: 0 <= k < p || p < k < q ==> r[k] == ns[k]
    ensures forall k :: q <= k < |r| ==> r[k] == ns[k + 1]
  {
    ns[..p] + ([Run(ns[p].children + Moved(ns[q].children))] + ns[p + 1..q]) + ns[q + 1..]
  }

  lemma {:induction false} GapsSayNothing(ns: seq<Node>)
    requires forall k :: 0 <= k < |ns| ==> ns[k].Between?
    ensures Meaning(ns) == [] && RunCount(ns) == 0
  {
    if ns != [] {
      GapsSayNothing(ns[1..]);
    }
  }

  lemma OneNode(n: Node)
    ensures Meaning([n]) == NodeMeaning(n)
    ensures RunCount([n]) == if n.Run? then 1 else 0
  {
  }

  lemma MergedPair(a: seq<Child>, m: seq<Node>, b: seq<Child>)
    requires CanMerge(a, b) && forall k :: 0 <= k < |m| ==> m[k].Between?
    ensures Meaning([Run(a)] + m + [Run(b)]) == Meaning([Run(a + Moved(b))] + m)
    ensures RunCount([Run(a)] + m + [Run(b)]) == 1 + RunCount([Run(a + Moved(b))] + m)
  {
    var c := a + Moved(b);
    GapsSayNothing(m);
    OneNode(Run(a));
    OneNode(Run(b));
    OneNode(Run(c));
    ItemsConcat(a, Moved(b));
    FormattingConcat(a, Moved(b));
    PiecesConcat(Formatting(a), Items(a), Items(b));
    MeaningConcat([Run(a)] + m, [Run(b)]);
    MeaningConcat([Run(a)], m);
    MeaningConcat([Run(c)], m);
  }

  lemma ReplaceNodes(a: seq<Node>, x: seq<Node>, y: seq<Node>, b: seq<Node>)
    ensures Meaning(x) == Meaning(y) ==> Meaning(a + x + b) == Meaning(a + y + b)
    ensures RunCount(a + x + b) - RunCount(a + y + b) == RunCount(x) - RunCount(y)
  {
    MeaningConcat(a + x, b);
    MeaningConcat(a, x);
    MeaningConcat(a + y, b);
    MeaningConcat(a, y);
  }

  lemma SplitNodes(ns: seq<Node>, p: nat, q: nat)
    requires p < q < |ns|
    ensures ns == ns[..p] + ([ns[p]] + ns[p + 1..q] + [ns[q]]) + ns[q + 1..]
  {
  }

  /** Merging two neighbouring runs keeps the meaning and removes exactly one run. */
  lemma MergeIntoKeeps(ns: seq<Node>, p: nat, q: nat)
    requires Mergeable(ns, p, q)
    ensures Meaning(MergeInto(ns, p, q)) == Meaning(ns)
    ensures RunCount(MergeInto(ns, p, q)) == RunCount(ns) - 1
  {
    var a, m, b := ns[p].children, ns[p + 1..q], ns[q].children;
    MergedPair(a, m, b);
    ReplaceNodes(ns[..p], [Run(a)] + m + [Run(b)], [Run(a + Moved(b))] + m, ns[q + 1..]);
    SplitNodes(ns, p, q);
  }

  /** Rewriting the content of one run, its formatting and items unchanged. */
  lemma RewriteRun(ns: seq<Node>, p: nat, children: seq<Child>)
    requires p < |ns| && ns[p].Run?
    requires Items(children) == Items(ns[p].children) && Formatting(children) == Formatting(ns[p].children)
    ensures Meaning(ns[p := Run(children)]) == Meaning(ns)
    ensures RunCount(ns[p := Run(children)]) == RunCount(ns)
  {
    OneNode(ns[p]);
    OneNode(Run(children));
    ReplaceNodes(ns[..p], [ns[p]], [Run(children)], ns[p + 1..]);
    SplitOne(ns, p, ns[p]);
    SplitOne(ns, p, Run(children));
  }

  lemma SplitOne(ns: seq<Node>, p: nat, n: Node)
    requires p < |ns|
    ensures ns[p := n] == ns[..p] + [n] + ns[p + 1..]
    ensures ns[p := ns[p]] == ns
  {
  }

  /** Merging into run p leaves everything before it as settled as it was. */
  lemma MergeIntoSettled(ns: seq<Node>, p: nat, q: nat)
    requires Mergeable(ns, p, q) && SettledBefore(ns, p) && ConsolidatedBefore(ns, p)
    ensures var r := MergeInto(ns, p, q);
            r[..p] == ns[..p] && r[p].Run? && SettledBefore(r, p) && ConsolidatedBefore(r, p)
  {
    var r := MergeInto(ns, p, q);
    assert r[..p] == ns[..p];
    assert forall k :: 0 <= k < p ==> r[k] == r[..p][k] == ns[..p][k] == ns[k];
    assert r[p] == Run(ns[p].children + Moved(ns[q].children));
    FormattingConcat(ns[p].children, Moved(ns[q].children));
    forall i, j | 0 <= i < p && i < j < |r| ensures !Mergeable(r, i, j) {
      assert !Mergeable(ns, i, j);
    }
  }

  lemma RewriteSettled(ns: seq<Node>, p: nat, children: seq<Child>)
    requires p < |ns| && ns[p].Run? && Formatting(children) == Formatting(ns[p].children)
    requires Consolidated(children) && SettledBefore(ns, p + 1) && ConsolidatedBefore(ns, p)
    ensures SettledBefore(ns[p := Run(children)], p + 1) && ConsolidatedBefore(ns[p := Run(children)], p + 1)
  {
    var r := ns[p := Run(children)];
    assert forall k :: 0 <= k < |ns| ==> (r[k].Between? <==> ns[k].Between?);
    forall i, j | 0 <= i < p + 1 && i < j < |r| ensures !Mergeable(r, i, j) {
      assert NextElement(r, i, j) <==> NextElement(ns, i, j);
      assert !Mergeable(ns, i, j);
    }
  }

  /** The position of the first run at or after `from`, or the length if there is none. */
  method FindRun(ns: seq<Node>, from: nat) returns (i: nat)
    requires from <= |ns|
    ensures from <= i <= |ns| && (i < |ns| ==> ns[i].Run?)
    ensures forall k :: from <= k < i ==> !ns[k].Run?
  {
    i := from;
    while i < |ns| && !ns[i].Run?
      invariant from <= i <= |ns| && forall k :: from <= k < i ==> !ns[k].Run?
    {
      i := i + 1;
    }
  }

  /** The position of the next element after p, or the length if there is none. */
  method FindNextElement(ns: seq<Node>, p: nat) returns (q: nat)
    requires p < |ns|
    ensures p < q <= |ns| && (q < |ns| ==> NextElement(ns, p, q))
    ensures forall k :: p < k < q ==> ns[k].Between?
  {
    q := p + 1;
    while q < |ns| && ns[q].Between?
      invariant p < q <= |ns| && forall k :: p < k < q ==> ns[k].Between?
    {
      q := q + 1;
    }
  }

  /** What a stretch of the pass keeps: the meaning, the tally, and a normal form already there. */
  ghost predicate Kept(before: seq<Node>, after: seq<Node>, count: nat)
  {
    && Meaning(after) == Meaning(before)
    && RunCount(after) + count == RunCount(before)
    && (Normal(before) ==> after == before && count == 0)
  }

  class Container {
    var children: seq<Node>

    constructor (children: seq<Node>)
      ensures this.children == children
    {
      this.children := children;
    }

    /** The inner loop: run i takes in the following runs that are formatted alike. */
    method AbsorbFollowing(i: nat, ghost before: seq<Node>, count0: nat) returns (count: nat)
      requires i < |children| && children[i].Run?
      requires Kept(before, children, count0)
      requires SettledBefore(children, i) && ConsolidatedBefore(children, i)
      modifies this
      ensures |children| <= old(|children|)
      ensures i < |children| && children[i].Run? && Kept(before, children, count)
      ensures SettledBefore(children, i + 1) && ConsolidatedBefore(children, i)
    {
      count := count0;
      var q := FindNextElement(children, i);
      while q < |children| && children[q].Run? && CanMerge(children[i].children, children[q].children)
        invariant i < |children| <= old(|children|) && children[i].Run? && i < q <= |children|
        invariant q < |children| ==> NextElement(children, i, q)
        invariant forall k :: i < k < q ==> children[k].Between?
        invariant Kept(before, children, count)
        invariant SettledBefore(children, i) && ConsolidatedBefore(children, i)
        decreases |children|
      {
        MergeIntoKeeps(children, i, q);
        MergeIntoSettled(children, i, q);
        assert Mergeable(children, i, q);
        children := MergeInto(children, i, q);
        count := count + 1;
        q := FindNextElement(children, i);
      }
      NoNeighbourLeft(children, i, q);
    }

    /** _merge_runs_in: the container keeps its meaning and reaches the normal form; the
        result is the number of runs removed; a container in normal form is left alone. */
    method MergeRunsIn() returns (count: nat)
      modifies this
      ensures Meaning(children) == Meaning(old(children))
      ensures RunCount(children) + count == RunCount(old(children))
      ensures Reduced(children)
      ensures Reduced(old(children)) ==> children == old(children) && count == 0
    {
      ghost var before := children;
      NormalExactly(before);
      count := 0;
      var i := FindRun(children, 0);
      SkipToRun(children, 0, i);
      while i < |children|
        invariant i <= |children| && (i < |children| ==> children[i].Run?)
        invariant Kept(before, children, count)
        invariant SettledBefore(children, i) && ConsolidatedBefore(children, i)
        decreases |children| - i
      {
        count := AbsorbFollowing(i, before, count);
        var text := ConsolidateText(children[i].children);
        RewriteRun(children, i, text);
        RewriteSettled(children, i, text);
        SplitOne(children, i, children[i]);
        children := children[i := Run(text)];
        var next := FindRun(children, i + 1);
        SkipToRun(children, i + 1, next);
        i := next;
      }
      NormalExactly(children);
    }
  }

  // ----- All containers of a document

  function Contents(containers: seq<Container>): seq<seq<Node>>
    reads containers
  {
    seq(|containers|, i requires 0 <= i < |containers| reads containers => containers[i].children)
  }

  function TotalRuns(contents: seq<seq<Node>>): nat
  {
    if contents == [] then 0 else TotalRuns(contents[..|contents| - 1]) + RunCount(contents[|contents| - 1])
  }

  lemma TotalRunsUpTo(contents: seq<seq<Node>>, i: nat)
    requires i < |contents|
    ensures TotalRuns(contents[..i + 1]) == TotalRuns(contents[..i]) + RunCount(contents[i])
  {
    assert contents[..i + 1][..i] == contents[..i];
  }

  /** Same meaning, in normal form, and unchanged if that form was reached before. */
  ghost predicate Normalised(before: seq<Node>, after: seq<Node>)
  {
    && Meaning(after) == Meaning(before) && Reduced(after)
    && (Reduced(before) ==> after == before)
  }

  /** The element a piece stands for; text stands for none. */
  function ElementOf(p: Piece): Option<string>
  {
    match p
    case Formatted(_, Object(xml)) => Some(xml)
    case Unformatted(xml) => Some(xml)
    case _ => None
  }

  /** A document read from the outside in. */
  datatype Token = Leaf(piece: Piece) | Open(piece: Piece) | Close

  /** What a container says when every element that is a container of the document itself is
      read in its place, down to a depth; `place` tells where such an element is listed. */
  function Unfold(meanings: seq<seq<Piece>>, place: map<string, nat>, pieces: seq<Piece>, depth: nat): seq<Token>
    decreases depth, |pieces|
  {
    if pieces == [] then []
    else
      var rest := Unfold(meanings, place, pieces[1..], depth);
      var xml := ElementOf(pieces[0]);
      if depth > 0 && xml.Some? && xml.value in place && place[xml.value] < |meanings| then
        [Open(pieces[0])] + Unfold(meanings, place, meanings[place[xml.value]], depth - 1) + [Close] + rest
      else [Leaf(pieces[0])] + rest
  }

  function Meanings(contents: seq<seq<Node>>): seq<seq<Piece>>
  {
    seq(|contents|, i requires 0 <= i < |contents| => Meaning(contents[i]))
  }

  /** The tree of containers under one of them. */
  function TreeMeaning(contents: seq<seq<Node>>, place: map<string, nat>, k: nat, depth: nat): seq<Token>
    requires k < |contents|
  {
    Unfold(Meanings(contents), place, Meaning(contents[k]), depth)
  }

  /** Every container is normalised, and so every tree of containers says what it said. */
  ghost predicate DocumentKept(before: seq<seq<Node>>, after: seq<seq<Node>>)
  {
    && |before| == |after|
    && (forall k :: 0 <= k < |before| ==> Normalised(before[k], after[k]))
    && forall place, k, depth :: 0 <= k < |before| ==>
         TreeMeaning(after, place, k, depth) == TreeMeaning(before, place, k, depth)
  }

  lemma TreesKept(before: seq<seq<Node>>, after: seq<seq<Node>>)
    requires |before| == |after| && forall k :: 0 <= k < |before| ==> Normalised(before[k], after[k])
    ensures DocumentKept(before, after)
  {
    assert Meanings(after) == Meanings(before);
  }

  ghost predicate NormalisedUpTo(before: seq<seq<Node>>, now: seq<seq<Node>>, i: nat)
  {
    i <= |before| == |now| && forall k :: 0 <= k < i ==> Normalised(before[k], now[k])
  }

  /** The first i containers are done, the others as they were. */
  ghost predicate Halfway(before: seq<seq<Node>>, now: seq<seq<Node>>, i: nat, count: nat)
  {
    && NormalisedUpTo(before, now, i)
    && (forall k :: i <= k < |before| ==> now[k] == before[k])
    && TotalRuns(now[..i]) + count == TotalRuns(before[..i])
  }

  lemma OneMoreNormalised(before: seq<seq<Node>>, now: seq<seq<Node>>, next: seq<seq<Node>>, i: nat)
    requires NormalisedUpTo(before, now, i) && i < |before| == |next|
    requires (forall k :: 0 <= k < i ==> next[k] == now[k]) && Normalised(before[i], next[i])
    ensures NormalisedUpTo(before, next, i + 1)
  {
    forall k | 0 <= k < i + 1 ensures Normalised(before[k], next[k]) {
      if k < i { assert next[k] == now[k]; }
    }
  }

  lemma OneMoreCounted(before: seq<seq<Node>>, now: seq<seq<Node>>, i: nat, count: nat, done: seq<Node>, removed: nat)
    requires i < |before| == |now| && now[i] == before[i]
    requires TotalRuns(now[..i]) + count == TotalRuns(before[..i]) && RunCount(done) + removed == RunCount(now[i])
    ensures TotalRuns(now[i := done][..i + 1]) + (count + removed) == TotalRuns(before[..i + 1])
  {
    assert now[i := done][..i] == now[..i];
    TotalRunsUpTo(before, i);
    TotalRunsUpTo(now[i := done], i);
  }

  lemma OneMoreDone(before: seq<seq<Node>>, now: seq<seq<Node>>, i: nat, count: nat, done: seq<Node>, removed: nat)
    requires Halfway(before, now, i, count) && i < |before|
    requires Normalised(now[i], done) && RunCount(done) + removed == RunCount(now[i])
    ensures Halfway(before, now[i := done], i + 1, count + removed)
  {
    OneMoreCounted(before, now, i, count, done, removed);
    OneMoreNormalised(before, now, now[i := done], i);
  }

  lemma AllDone(before: seq<seq<Node>>, after: seq<seq<Node>>, count: nat)
    requires Halfway(before, after, |before|, count)
    ensures DocumentKept(before, after) && TotalRuns(after) + count == TotalRuns(before)
  {
    assert after[..|after|] == after && before[..|before|] == before;
    TreesKept(before, after);
  }

  /** merge_runs, over the containers of a document, none listed twice: each keeps its
      meaning and reaches the normal form, and the result is the number of runs removed
      from all of them. */
  method MergeRuns(containers: seq<Container>) returns (count: nat)
    requires forall i, j :: 0 <= i < j < |containers| ==> containers[i] != containers[j]
    modifies containers
    ensures DocumentKept(old(Contents(containers)), Contents(containers))
    ensures TotalRuns(Contents(containers)) + count == TotalRuns(old(Contents(containers)))
  {
    ghost var before := Contents(containers);
    count := 0;
    for i := 0 to |containers|
      invariant Halfway(before, Contents(containers), i, count)
    {
      ghost var now := Contents(containers);
      var removed := containers[i].MergeRunsIn();
      OneMoreDone(before, now, i, count, containers[i].children, removed);
      assert Contents(containers) == now[i := containers[i].children];
      count := count + removed;
    }
    AllDone(before, Contents(containers), count);
  }

  lemma NoNeighbourLeft(ns: seq<Node>, i: nat, q: nat)
    requires i < q <= |ns| && ns[i].Run? && SettledBefore(ns, i)
    requires forall k :: i < k < q ==> ns[k].Between?
    requires q < |ns| ==> !ns[q].Between? && !(ns[q].Run? && CanMerge(ns[i].children, ns[q].children))
    ensures SettledBefore(ns, i + 1)
  {
  }

  lemma SkipToRun(ns: seq<Node>, from: nat, to: nat)
    requires from <= to <= |ns| && forall k :: from <= k < to ==> !ns[k].Run?
    requires SettledBefore(ns, from) && ConsolidatedBefore(ns, from)
    ensures SettledBefore(ns, to) && ConsolidatedBefore(ns, to)
  {
  }
}
