/** Identifiers and their orders.

    Deliverable ids, deliverable names and skill names are all strings to the
    program; they are compared for equality and sorted lexicographically. */
module Ids {

  datatype Id = Id(text: string)

  datatype Option<+T> = None | Some(value: T)

  /** The lexicographic order on strings. */
  predicate TextLeq(a: string, b: string)
  {
    a == [] || (b != [] && (a[0] < b[0] || (a[0] == b[0] && TextLeq(a[1..], b[1..]))))
  }

  /** The order of strings by positions: one is a prefix of the other, or at the first place
      where they differ it has the smaller character. */
  ghost predicate Precedes(a: string, b: string)
  {
    a <= b || exists k: nat :: k < |a| && k < |b| && a[..k] == b[..k] && a[k] < b[k]
  }

  /** The recursive comparison is that order. */
  lemma {:induction false} TextLeqExactly(a: string, b: string)
    ensures TextLeq(a, b) <==> Precedes(a, b)
  {
    if a != [] && b != [] && a[0] == b[0] {
      var a', b' := a[1..], b[1..];
      assert a == [a[0]] + a' && b == [b[0]] + b';
      TextLeqExactly(a', b');
      if Precedes(a', b') && !(a' <= b') {
        var k: nat :| k < |a'| && k < |b'| && a'[..k] == b'[..k] && a'[k] < b'[k];
        assert a[..k + 1] == [a[0]] + a'[..k] && b[..k + 1] == [b[0]] + b'[..k];
        assert a[k + 1] < b[k + 1];
      }
      if Precedes(a, b) && !(a <= b) {
        var k: nat :| k < |a| && k < |b| && a[..k] == b[..k] && a[k] < b[k];
        assert k > 0;
        assert a'[..k - 1] == a[..k][1..] && b'[..k - 1] == b[..k][1..];
        assert a'[k - 1] < b'[k - 1];
      }
    } else if a != [] && b != [] {
      assert a[..0] == b[..0];
      assert forall k: nat :: 0 < k < |a| && k < |b| ==> a[..k][0] == a[0] && b[..k][0] == b[0];
    }
  }

  lemma {:induction false} TextAntisymmetric(a: string, b: string)
    requires TextLeq(a, b) && TextLeq(b, a)
    ensures a == b
  {
    if a != [] {
      TextAntisymmetric(a[1..], b[1..]);
      assert a == [a[0]] + a[1..] && b == [b[0]] + b[1..];
    }
  }

  lemma {:induction false} TextTransitive(a: string, b: string, c: string)
    requires TextLeq(a, b) && TextLeq(b, c)
    ensures TextLeq(a, c)
  {
    if a != [] && a[0] == b[0] == c[0] {
      TextTransitive(a[1..], b[1..], c[1..]);
    }
  }

  lemma {:induction false} TextTotal(a: string, b: string)
    ensures TextLeq(a, b) || TextLeq(b, a)
  {
    if a != [] && b != [] && a[0] == b[0] {
      TextTotal(a[1..], b[1..]);
    }
  }

  /** An explicit rank, with a missing one read as zero (`execution_order or 0`). */
  type Ranks = map<Id, int>

  function Rank(w: Ranks, a: Id): int
  {
    if a in w then w[a] else 0
  }

  /** Order by rank, then by text; with no ranks at all this is plain string order. */
  predicate Leq(w: Ranks, a: Id, b: Id)
  {
    Rank(w, a) < Rank(w, b) || (Rank(w, a) == Rank(w, b) && TextLeq(a.text, b.text))
  }

  lemma LeqAntisymmetric(w: Ranks, a: Id, b: Id)
    requires Leq(w, a, b) && Leq(w, b, a)
    ensures a == b
  {
    TextAntisymmetric(a.text, b.text);
  }

  lemma LeqTransitive(w: Ranks, a: Id, b: Id, c: Id)
    requires Leq(w, a, b) && Leq(w, b, c)
    ensures Leq(w, a, c)
  {
    if Rank(w, a) == Rank(w, b) == Rank(w, c) {
      TextTransitive(a.text, b.text, c.text);
    }
  }

  lemma LeqTotal(w: Ranks, a: Id, b: Id)
    ensures Leq(w, a, b) || Leq(w, b, a)
  {
    TextTotal(a.text, b.text);
  }

  /** Without ranks the comparison is the order of the texts. */
  lemma PlainLeq(a: Id, b: Id)
    ensures Leq(map[], a, b) <==> Precedes(a.text, b.text)
  {
    TextLeqExactly(a.text, b.text);
  }

  ghost predicate Alphabetical(s: seq<Id>)
  {
    forall i, j :: 0 <= i < j < |s| ==> Precedes(s[i].text, s[j].text)
  }

  lemma SortedIsAlphabetical(s: seq<Id>)
    ensures Sorted(map[], s) <==> Alphabetical(s)
  {
    forall i, j | 0 <= i < j < |s| ensures Leq(map[], s[i], s[j]) <==> Precedes(s[i].text, s[j].text) {
      PlainLeq(s[i], s[j]);
    }
  }

  ghost predicate Sorted(w: Ranks, s: seq<Id>)
  {
    forall i, j :: 0 <= i < j < |s| ==> Leq(w, s[i], s[j])
  }

  ghost predicate Distinct(s: seq<Id>)
  {
    forall i, j :: 0 <= i < j < |s| ==> s[i] != s[j]
  }

  ghost function Elems(s: seq<Id>): set<Id>
  {
    set x | x in s
  }

  /** The list.sort of the program: insertion into a sorted list, one at a time. */
  function SortIds(w: Ranks, s: seq<Id>): (r: seq<Id>)
    ensures multiset(r) == multiset(s)
  {
    if s == [] then []
    else
      assert s == [s[0]] + s[1..];
      Insert(w, s[0], SortIds(w, s[1..]))
  }

  function Insert(w: Ranks, x: Id, s: seq<Id>): (r: seq<Id>)
    ensures multiset(r) == multiset{x} + multiset(s)
  {
    if s == [] then [x]
    else if Leq(w, x, s[0]) then [x] + s
    else
      assert s == [s[0]] + s[1..];
      [s[0]] + Insert(w, x, s[1..])
  }

  lemma MultisetElems(a: seq<Id>, b: seq<Id>)
    requires multiset(a) == multiset(b)
    ensures forall x :: x in a <==> x in b
    ensures |a| == |b|
  {
    forall x ensures x in a <==> x in b {
      assert x in a <==> x in multiset(a);
      assert x in b <==> x in multiset(b);
    }
    assert |multiset(a)| == |a| && |multiset(b)| == |b|;
  }

  lemma {:induction false} InsertSorted(w: Ranks, x: Id, s: seq<Id>)
    requires Sorted(w, s)
    ensures Sorted(w, Insert(w, x, s))
  {
    if s == [] {
    } else if Leq(w, x, s[0]) {
      forall j | 0 <= j < |s| ensures Leq(w, x, s[j]) {
        if j > 0 { LeqTransitive(w, x, s[0], s[j]); }
      }
    } else {
      var t := Insert(w, x, s[1..]);
      InsertSorted(w, x, s[1..]);
      LeqTotal(w, x, s[0]);
      forall j | 0 <= j < |t| ensures Leq(w, s[0], t[j]) {
        assert t[j] in multiset(t);
        if t[j] != x {
          assert t[j] in s[1..];
        }
      }
    }
  }

  lemma {:induction false} SortIdsSorted(w: Ranks, s: seq<Id>)
    ensures Sorted(w, SortIds(w, s))
  {
    if s != [] {
      SortIdsSorted(w, s[1..]);
      InsertSorted(w, s[0], SortIds(w, s[1..]));
    }
  }

  lemma DistinctAppend(s: seq<Id>, x: Id)
    requires Distinct(s) && x !in s
    ensures Distinct(s + [x])
  {
  }

  lemma DistinctCons(s: seq<Id>)
    requires s != []
    ensures Distinct(s) <==> s[0] !in s[1..] && Distinct(s[1..])
  {
  }

  lemma {:induction false} DistinctByMultiset(s: seq<Id>)
    ensures Distinct(s) <==> forall x :: x in s ==> multiset(s)[x] == 1
  {
    if s != [] {
      DistinctCons(s);
      DistinctByMultiset(s[1..]);
      assert s == [s[0]] + s[1..];
      assert multiset(s) == multiset{s[0]} + multiset(s[1..]);
      var m, n := multiset(s), multiset(s[1..]);
      assert m[s[0]] == 1 + n[s[0]];
      assert forall x :: x in s[1..] ==> x in s && m[x] == n[x] + (if x == s[0] then 1 else 0);
      assert forall x :: x in s ==> x == s[0] || x in s[1..];
    }
  }

  /** What sorting a list promises, in one place. */
  lemma SortIdsSpec(w: Ranks, s: seq<Id>)
    ensures Sorted(w, SortIds(w, s))
    ensures |SortIds(w, s)| == |s|
    ensures forall x :: x in SortIds(w, s) <==> x in s
    ensures Distinct(s) ==> Distinct(SortIds(w, s))
  {
    SortIdsSorted(w, s);
    MultisetElems(SortIds(w, s), s);
    DistinctByMultiset(s);
    DistinctByMultiset(SortIds(w, s));
  }

  /** A sorted list without repetition is determined by its elements. */
  lemma {:induction false} SortedUnique(w: Ranks, a: seq<Id>, b: seq<Id>)
    requires Sorted(w, a) && Sorted(w, b) && Distinct(a) && Distinct(b)
    requires forall x :: x in a <==> x in b
    ensures a == b
  {
    assert |a| == |b| by {
      ElemsCard(a);
      ElemsCard(b);
      assert Elems(a) == Elems(b);
    }
    if a != [] {
      assert a[0] in b;
      assert b[0] in a;
      assert Leq(w, a[0], b[0]) by { LeqTotal(w, a[0], a[0]); }
      assert Leq(w, b[0], a[0]) by { LeqTotal(w, b[0], b[0]); }
      LeqAntisymmetric(w, a[0], b[0]);
      forall x ensures x in a[1..] <==> x in b[1..] {
        assert a == [a[0]] + a[1..] && b == [b[0]] + b[1..];
        assert x in a <==> x == a[0] || x in a[1..];
        assert x in b <==> x == b[0] || x in b[1..];
      }
      SortedUnique(w, a[1..], b[1..]);
      assert a == [a[0]] + a[1..] && b == [b[0]] + b[1..];
    }
  }

  lemma {:induction false} ElemsCard(s: seq<Id>)
    ensures |Elems(s)| <= |s|
    ensures |Elems(s)| == |s| <==> Distinct(s)
  {
    if s != [] {
      DistinctCons(s);
      ElemsCard(s[1..]);
      assert s == [s[0]] + s[1..];
      assert Elems(s) == {s[0]} + Elems(s[1..]);
      if s[0] in s[1..] {
        assert Elems(s) == Elems(s[1..]);
      }
    }
  }
}
