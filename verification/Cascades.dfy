/** SkillLibrary.resolve_cascades: the closure of a list of skills under cascade references. */
module Cascades {
  import opened Ids
  import opened Graphs

  datatype Skill = Skill(name: Id, cascades: seq<Id>)

  type Index = map<Id, Skill>

  function Names(entries: seq<Skill>): (r: set<Id>)
    ensures forall n :: n in r <==> exists e :: e in entries && e.name == n
  {
    set e | e in entries :: e.name
  }

  /** All references of the entries under one name. */
  function CascadesOf(entries: seq<Skill>, n: Id): (r: seq<Id>)
    ensures forall x :: x in r <==> exists e :: e in entries && e.name == n && x in e.cascades
  {
    if entries == [] then []
    else
      var e := entries[0];
      assert entries == [e] + entries[1..];
      (if e.name == n then e.cascades else []) + CascadesOf(entries[1..], n)
  }

  /** The reference graph as seen from the entries: an entry speaks for its own name, the
      index for every other one. References may dangle and may form cycles. */
  function References(index: Index, entries: seq<Skill>): (g: Graph)
    ensures forall a, b :: Edge(g, a, b) <==>
              if a in Names(entries) then b in CascadesOf(entries, a) else a in index && b in index[a].cascades
  {
    map n | n in index.Keys + Names(entries) ::
      if n in Names(entries) then CascadesOf(entries, n) else index[n].cascades
  }

  // ----- Cascade depth

  /** p follows references from one of the starts to n. */
  ghost predicate Chain(g: Graph, starts: set<Id>, p: seq<Id>, n: Id)
  {
    p != [] && p[0] in starts && IsPath(g, p, p[0], n)
  }

  /** n is reached from one of the starts in at most k references. */
  ghost predicate Within(g: Graph, starts: set<Id>, k: nat, n: Id)
  {
    exists p :: Chain(g, starts, p, n) && |p| <= k + 1
  }

  lemma WithinZero(g: Graph, starts: set<Id>, n: Id)
    ensures Within(g, starts, 0, n) <==> n in starts
  {
    if n in starts {
      assert Chain(g, starts, [n], n);
    }
  }

  lemma WithinStep(g: Graph, starts: set<Id>, k: nat, m: Id, n: Id)
    requires Within(g, starts, k, m) && Edge(g, m, n)
    ensures Within(g, starts, k + 1, n)
  {
    var p :| Chain(g, starts, p, m) && |p| <= k + 1;
    assert Chain(g, starts, p + [n], n);
  }

  lemma WithinBefore(g: Graph, starts: set<Id>, k: nat, n: Id) returns (m: Id)
    requires Within(g, starts, k + 1, n) && !Within(g, starts, k, n)
    ensures Within(g, starts, k, m) && Edge(g, m, n)
  {
    var p :| Chain(g, starts, p, n) && |p| <= k + 2;
    assert |p| == k + 2;
    m := p[k];
    assert Edge(g, p[k], p[k + 1]);
    assert Chain(g, starts, p[..k + 1], m);
  }

  lemma WithinGrows(g: Graph, starts: set<Id>, k: nat, l: nat, n: Id)
    requires k <= l && Within(g, starts, k, n)
    ensures Within(g, starts, l, n)
  {
  }

  ghost predicate Reachable(g: Graph, starts: set<Id>, n: Id)
  {
    exists s :: s in starts && Reach(g, s, n)
  }

  lemma WithinReaches(g: Graph, starts: set<Id>, k: nat, n: Id)
    requires Within(g, starts, k, n)
    ensures Reachable(g, starts, n)
  {
  }

  /** No name comes after one that is reached in fewer references. */
  ghost predicate ByDepth(g: Graph, starts: set<Id>, order: seq<Id>)
  {
    forall i, j, k: nat :: 0 <= i <= j < |order| && Within(g, starts, k, order[j]) ==> Within(g, starts, k, order[i])
  }

  // ----- The order in which references are met

  /** All references of a list of skills, in the order they are written. */
  function Stream(skills: seq<Skill>): seq<Id>
  {
    if skills == [] then [] else Stream(skills[..|skills| - 1]) + skills[|skills| - 1].cascades
  }

  /** a is met at a place before which b is not. */
  ghost predicate MetBefore(stream: seq<Id>, a: Id, b: Id)
  {
    exists p :: 0 <= p < |stream| && stream[p] == a && b !in stream[..p]
  }

  /** The names are listed in the order in which they are first met. */
  ghost predicate MetInOrder(stream: seq<Id>, order: seq<Id>)
  {
    forall i, j {:trigger MetBefore(stream, order[i], order[j])} ::
      0 <= i < j < |order| ==> MetBefore(stream, order[i], order[j])
  }

  lemma MetLonger(stream: seq<Id>, more: seq<Id>, order: seq<Id>)
    requires MetInOrder(stream, order)
    ensures MetInOrder(stream + more, order)
  {
    forall i, j | 0 <= i < j < |order| ensures MetBefore(stream + more, order[i], order[j]) {
      assert MetBefore(stream, order[i], order[j]);
      var p :| 0 <= p < |stream| && stream[p] == order[i] && order[j] !in stream[..p];
      assert (stream + more)[p] == order[i] && (stream + more)[..p] == stream[..p];
    }
  }

  lemma MetNext(stream: seq<Id>, order: seq<Id>, n: Id)
    requires MetInOrder(stream, order) && (forall x :: x in order ==> x in stream) && n !in stream
    ensures MetInOrder(stream, order + [n])
  {
    var next := order + [n];
    forall i, j | 0 <= i < j < |next| ensures MetBefore(stream, next[i], next[j]) {
      if j < |order| {
        assert MetBefore(stream, order[i], order[j]);
      } else {
        assert order[i] in stream;
        var p :| 0 <= p < |stream| && stream[p] == order[i];
        assert n !in stream[..p];
      }
    }
  }

  function Unvisited(names: seq<Id>, visited: set<Id>): seq<Id>
  {
    if names == [] then []
    else
      var front, last := Unvisited(names[..|names| - 1], visited), names[|names| - 1];
      if last in visited then front else front + [last]
  }

  lemma {:induction false} UnvisitedConcat(a: seq<Id>, b: seq<Id>, visited: set<Id>)
    ensures Unvisited(a + b, visited) == Unvisited(a, visited) + Unvisited(b, visited)
    ensures forall n :: n in Unvisited(b, visited) <==> n in b && n !in visited
  {
    if b == [] {
      assert a + b == a;
    } else {
      var front, last := b[..|b| - 1], b[|b| - 1];
      assert b == front + [last];
      assert (a + b)[..|a + b| - 1] == a + front;
      UnvisitedConcat(a, front, visited);
    }
  }

  /** The queue is what remains of the stream but for names that have been visited. */
  ghost predicate Skims(todo: seq<Id>, pending: seq<Id>, visited: set<Id>)
    decreases |todo|
  {
    if todo == [] then pending == []
    else
      || (pending != [] && todo[0] == pending[0] && Skims(todo[1..], pending[1..], visited))
      || (todo[0] in visited && Skims(todo[1..], pending, visited))
  }

  lemma {:induction false} SkimsMore(todo: seq<Id>, pending: seq<Id>, visited: set<Id>, more: set<Id>)
    requires Skims(todo, pending, visited) && visited <= more
    ensures Skims(todo, pending, more)
    decreases |todo|
  {
    if todo != [] {
      if pending != [] && todo[0] == pending[0] && Skims(todo[1..], pending[1..], visited) {
        SkimsMore(todo[1..], pending[1..], visited, more);
      } else {
        SkimsMore(todo[1..], pending, visited, more);
      }
    }
  }

  lemma {:induction false} SkimsFresh(names: seq<Id>, visited: set<Id>, todo: seq<Id>, pending: seq<Id>)
    requires Skims(todo, pending, visited)
    ensures Skims(names + todo, Unvisited(names, visited) + pending, visited)
    decreases |names|
  {
    if names == [] {
      assert names + todo == todo && Unvisited(names, visited) + pending == pending;
    } else {
      var front, last := names[..|names| - 1], names[|names| - 1];
      var unseen := if last in visited then pending else [last] + pending;
      assert ([last] + todo)[1..] == todo && ([last] + pending)[1..] == pending;
      assert Skims([last] + todo, unseen, visited);
      SkimsFresh(front, visited, [last] + todo, unseen);
      assert front + ([last] + todo) == names + todo;
      assert Unvisited(front, visited) + unseen == Unvisited(names, visited) + pending;
    }
  }

  lemma {:induction false} SkimsThen(todo: seq<Id>, pending: seq<Id>, visited: set<Id>, names: seq<Id>)
    requires Skims(todo, pending, visited)
    ensures Skims(todo + names, pending + Unvisited(names, visited), visited)
    decreases |todo|
  {
    var unseen := Unvisited(names, visited);
    if todo == [] {
      assert todo + names == names + [] && pending + unseen == unseen + [];
      SkimsFresh(names, visited, [], []);
    } else {
      assert (todo + names)[1..] == todo[1..] + names;
      if pending != [] && todo[0] == pending[0] && Skims(todo[1..], pending[1..], visited) {
        assert (pending + unseen)[1..] == pending[1..] + unseen;
        SkimsThen(todo[1..], pending[1..], visited, names);
      } else {
        SkimsThen(todo[1..], pending, visited, names);
      }
    }
  }

  /** The head of the queue is the next name of the stream that need not be skipped. */
  lemma {:induction false} SkimsTo(todo: seq<Id>, pending: seq<Id>, visited: set<Id>) returns (k: nat)
    requires Skims(todo, pending, visited) && pending != []
    ensures k < |todo| && todo[k] == pending[0] && (forall i :: 0 <= i < k ==> todo[i] in visited)
    ensures Skims(todo[k + 1..], pending[1..], visited)
    decreases |todo|
  {
    if todo[0] == pending[0] && Skims(todo[1..], pending[1..], visited) {
      k := 0;
    } else {
      var j := SkimsTo(todo[1..], pending, visited);
      k := j + 1;
      assert todo[1..][j + 1..] == todo[k + 1..];
      forall i | 0 <= i < k ensures todo[i] in visited {
        if i > 0 { assert todo[1..][i - 1] == todo[i]; }
      }
    }
  }

  /** What has been read of the stream and what remains of it. */
  ghost predicate Reading(result: seq<Skill>, visited: set<Id>, pending: seq<Id>, added: seq<Id>, done: seq<Id>,
                          todo: seq<Id>)
  {
    && Stream(result) == done + todo && Skims(todo, pending, visited)
    && (forall n :: n in done ==> n in visited)
    && (forall n :: n in added ==> n in done) && MetInOrder(done, added)
  }

  ghost predicate Read(result: seq<Skill>, visited: set<Id>, pending: seq<Id>, added: seq<Id>)
  {
    exists done, todo :: Reading(result, visited, pending, added, done, todo)
  }

  /** The stream up to and with the head of the queue. */
  lemma ReadOne(result: seq<Skill>, visited: set<Id>, pending: seq<Id>, added: seq<Id>, done: seq<Id>, todo: seq<Id>)
    returns (before: seq<Id>, rest: seq<Id>)
    requires Reading(result, visited, pending, added, done, todo) && pending != []
    ensures done <= before && Stream(result) == before + [pending[0]] + rest && Skims(rest, pending[1..], visited)
    ensures forall n :: n in before ==> n in visited
  {
    var k := SkimsTo(todo, pending, visited);
    before, rest := done + todo[..k], todo[k + 1..];
    assert todo == todo[..k] + ([todo[k]] + todo[k + 1..]);
  }

  lemma MetAfter(done: seq<Id>, before: seq<Id>, n: Id, order: seq<Id>)
    requires MetInOrder(done, order) && done <= before && forall x :: x in order ==> x in done
    ensures MetInOrder(before + [n], order)
    ensures n !in before ==> MetInOrder(before + [n], order + [n])
  {
    assert before == done + before[|done|..];
    MetLonger(done, before[|done|..], order);
    MetLonger(before, [n], order);
    if n !in before {
      MetNext(before, order, n);
      MetLonger(before, [n], order + [n]);
    }
  }

  /** A name that brings nothing is read and gone. */
  lemma ReadHead(result: seq<Skill>, visited: set<Id>, pending: seq<Id>, added: seq<Id>)
    requires Read(result, visited, pending, added) && pending != []
    ensures Read(result, visited + {pending[0]}, pending[1..], added)
  {
    var done, todo :| Reading(result, visited, pending, added, done, todo);
    var before, rest := ReadOne(result, visited, pending, added, done, todo);
    SkimsMore(rest, pending[1..], visited, visited + {pending[0]});
    MetAfter(done, before, pending[0], added);
    assert Reading(result, visited + {pending[0]}, pending[1..], added, before + [pending[0]], rest);
  }

  /** A skill added brings its own references. */
  lemma ReadSkill(result: seq<Skill>, skill: Skill, visited: set<Id>, pending: seq<Id>, added: seq<Id>)
    requires Read(result, visited, pending, added) && pending != [] && pending[0] !in visited
    ensures var now := visited + {pending[0]};
            Read(result + [skill], now, pending[1..] + Unvisited(skill.cascades, now), added + [pending[0]])
  {
    var done, todo :| Reading(result, visited, pending, added, done, todo);
    var before, rest := ReadOne(result, visited, pending, added, done, todo);
    var now := visited + {pending[0]};
    SkimsMore(rest, pending[1..], visited, now);
    SkimsThen(rest, pending[1..], now, skill.cascades);
    MetAfter(done, before, pending[0], added);
    assert (result + [skill])[..|result|] == result;
    assert Stream(result + [skill]) == (before + [pending[0]]) + (rest + skill.cascades);
    assert Reading(result + [skill], now, pending[1..] + Unvisited(skill.cascades, now), added + [pending[0]],
                   before + [pending[0]], rest + skill.cascades);
  }

  // ----- What resolve_cascades promises

  /** The input, followed by exactly the indexed skills its references lead to, once each
      and in order of depth; `added` are their names. */
  ghost predicate ResolvedBy(index: Index, entries: seq<Skill>, result: seq<Skill>, added: seq<Id>)
  {
    var g, starts := References(index, entries), Names(entries);
    && |result| == |entries| + |added| && entries <= result
    && Distinct(added)
    && (forall i :: 0 <= i < |added| ==> added[i] in index && result[|entries| + i] == index[added[i]])
    && (forall n :: n in added <==> n in index && n !in starts && Reachable(g, starts, n))
    && ByDepth(g, starts, added)
    && MetInOrder(Stream(result), added)
  }

  ghost predicate Resolved(index: Index, entries: seq<Skill>, result: seq<Skill>)
  {
    exists added :: ResolvedBy(index, entries, result, added)
  }

  // ----- The loop

  /** At level d: what is visited lies within d, everything nearer is visited, and what lies
      exactly at d is visited or at the front of the queue. */
  ghost predicate LevelState(g: Graph, starts: set<Id>, visited: set<Id>, pending: seq<Id>, d: nat, cut: nat)
  {
    && d > 0 && cut <= |pending| && starts <= visited
    && (forall n {:trigger Within(g, starts, d, n)} :: n in visited ==> Within(g, starts, d, n))
    && (forall n {:trigger Within(g, starts, d - 1, n)} :: Within(g, starts, d - 1, n) ==> n in visited)
    && (forall n {:trigger Within(g, starts, d, n)} :: Within(g, starts, d, n) ==> n in visited || n in pending[..cut])
    && (forall n {:trigger Within(g, starts, d, n)} :: n in pending[..cut] ==> Within(g, starts, d, n))
    && (forall n {:trigger Within(g, starts, d + 1, n)} :: n in pending ==> Within(g, starts, d + 1, n))
    && (forall a, b :: a in visited && Edge(g, a, b) ==> b in visited || b in pending)
  }

  lemma NextLevel(g: Graph, starts: set<Id>, visited: set<Id>, pending: seq<Id>, d: nat)
    requires LevelState(g, starts, visited, pending, d, 0)
    ensures LevelState(g, starts, visited, pending, d + 1, |pending|)
  {
    assert pending[..|pending|] == pending;
    forall n | n in visited ensures Within(g, starts, d + 1, n) {
      assert Within(g, starts, d, n);
      WithinGrows(g, starts, d, d + 1, n);
    }
    forall n | n in pending ensures Within(g, starts, d + 2, n) {
      assert Within(g, starts, d + 1, n);
      WithinGrows(g, starts, d + 1, d + 2, n);
    }
    forall n | Within(g, starts, d + 1, n) ensures n in visited || n in pending {
      if !Within(g, starts, d, n) {
        var m := WithinBefore(g, starts, d, n);
        assert m in visited;
      }
    }
  }

  /** A name seen for the first time at the front of the queue is added at level d. */
  lemma AddedInOrder(g: Graph, starts: set<Id>, visited: set<Id>, pending: seq<Id>, d: nat, cut: nat, added: seq<Id>,
                     n: Id)
    requires LevelState(g, starts, visited, pending, d, cut) && ByDepth(g, starts, added)
    requires forall x :: x in added ==> x in visited
    requires n !in visited
    ensures ByDepth(g, starts, added + [n])
  {
    var order := added + [n];
    forall i, j, k: nat | 0 <= i <= j < |order| && Within(g, starts, k, order[j])
      ensures Within(g, starts, k, order[i])
    {
      if j == |added| && i < j {
        if k < d { WithinGrows(g, starts, k, d - 1, n); }
        assert added[i] in added;
        assert Within(g, starts, d, added[i]);
        WithinGrows(g, starts, d, k, added[i]);
      }
    }
  }

  ghost predicate Gathered(index: Index, starts: set<Id>, visited: set<Id>, entries: seq<Skill>, result: seq<Skill>,
                           added: seq<Id>)
  {
    && |result| == |entries| + |added| && entries <= result
    && Distinct(added)
    && (forall i :: 0 <= i < |added| ==> added[i] in index && result[|entries| + i] == index[added[i]])
    && (forall n :: n in added <==> n in index && n !in starts && n in visited)
  }

  method EnqueueReferences(cascades: seq<Id>, visited: set<Id>, pending0: seq<Id>) returns (pending: seq<Id>)
    ensures pending == pending0 + Unvisited(cascades, visited)
  {
    pending := pending0;
    for i := 0 to |cascades|
      invariant pending == pending0 + Unvisited(cascades[..i], visited)
    {
      assert cascades[..i + 1][..i] == cascades[..i];
      if cascades[i] !in visited {
        pending := pending + [cascades[i]];
      }
    }
    assert cascades[..|cascades|] == cascades;
  }

  class SkillLibrary {
    const index: Index

    constructor (index: Index)
      ensures this.index == index
    {
      this.index := index;
    }

    method InitialPending(entries: seq<Skill>, visited: set<Id>) returns (pending: seq<Id>)
      ensures pending == Unvisited(Stream(entries), visited)
    {
      pending := [];
      for i := 0 to |entries|
        invariant pending == Unvisited(Stream(entries[..i]), visited)
      {
        assert entries[..i + 1][..i] == entries[..i];
        UnvisitedConcat(Stream(entries[..i]), entries[i].cascades, visited);
        pending := EnqueueReferences(entries[i].cascades, visited, pending);
      }
      assert entries[..|entries|] == entries;
    }

    /** First in, first out, with a visited set: terminates on every reference graph. */
    method ResolveCascades(entries: seq<Skill>) returns (result: seq<Skill>)
      ensures Resolved(index, entries, result)
    {
      ghost var g := References(index, entries);
      result := entries;
      ghost var added: seq<Id> := [];
      var visited := Names(entries);
      var pending := InitialPending(entries, visited);
      ghost var d, cut: nat := 1, |pending|;
      InStream(entries, visited);
      StartLevel(index, entries, pending);
      StartReading(entries, visited);
      while pending != []
        invariant Resolving(index, entries, visited, pending, result, added, d, cut)
        decreases Nodes(g) + Names(entries) - visited, |pending|
      {
        if cut == 0 {
          LevelUp(index, entries, visited, pending, result, added, d);
          d, cut := d + 1, |pending|;
        }
        var ref, rest := pending[0], pending[1..];
        if ref in visited {
          SeenKeeps(index, entries, visited, pending, result, added, d, cut);
          pending := rest;
        } else if ref !in index {
          DanglingKeeps(index, entries, visited, pending, result, added, d, cut);
          visited, pending := visited + {ref}, rest;
        } else {
          var next := EnqueueReferences(index[ref].cascades, visited + {ref}, rest);
          AddedKeeps(index, entries, visited, pending, result, added, d, cut, next);
          visited, pending := visited + {ref}, next;
          result, added := result + [index[ref]], added + [ref];
        }
        cut := cut - 1;
      }
      Drained(index, entries, visited, result, added, d);
    }
  }

  // ----- Steps of the proof

  ghost predicate Resolving(index: Index, entries: seq<Skill>, visited: set<Id>, pending: seq<Id>, result: seq<Skill>,
                            added: seq<Id>, d: nat, cut: nat)
  {
    && LevelState(References(index, entries), Names(entries), visited, pending, d, cut)
    && Gathered(index, Names(entries), visited, entries, result, added)
    && ByDepth(References(index, entries), Names(entries), added)
    && Read(result, visited, pending, added)
  }

  lemma LevelUp(index: Index, entries: seq<Skill>, visited: set<Id>, pending: seq<Id>, result: seq<Skill>,
                added: seq<Id>, d: nat)
    requires Resolving(index, entries, visited, pending, result, added, d, 0)
    ensures Resolving(index, entries, visited, pending, result, added, d + 1, |pending|)
  {
    NextLevel(References(index, entries), Names(entries), visited, pending, d);
  }

  lemma SeenKeeps(index: Index, entries: seq<Skill>, visited: set<Id>, pending: seq<Id>, result: seq<Skill>,
                  added: seq<Id>, d: nat, cut: nat)
    requires pending != [] && cut > 0 && pending[0] in visited
    requires Resolving(index, entries, visited, pending, result, added, d, cut)
    ensures Resolving(index, entries, visited, pending[1..], result, added, d, cut - 1)
  {
    TakeFirst(References(index, entries), Names(entries), visited, pending, d, cut - 1);
    ReadHead(result, visited, pending, added);
    assert visited + {pending[0]} == visited;
  }

  lemma DanglingKeeps(index: Index, entries: seq<Skill>, visited: set<Id>, pending: seq<Id>, result: seq<Skill>,
                      added: seq<Id>, d: nat, cut: nat)
    requires pending != [] && cut > 0 && pending[0] !in visited && pending[0] !in index
    requires Resolving(index, entries, visited, pending, result, added, d, cut)
    ensures pending[0] in Nodes(References(index, entries)) + Names(entries)
    ensures Resolving(index, entries, visited + {pending[0]}, pending[1..], result, added, d, cut - 1)
  {
    var g, starts := References(index, entries), Names(entries);
    TakeFirst(g, starts, visited, pending, d, cut - 1);
    IsNode(g, starts, d, pending[0]);
    GatherNone(index, starts, visited, entries, result, added, pending[0]);
    ReadHead(result, visited, pending, added);
    Visited(g, starts, visited, pending[0], pending, pending[1..], pending[1..], d, cut - 1);
  }

  lemma AddedKeeps(index: Index, entries: seq<Skill>, visited: set<Id>, pending: seq<Id>, result: seq<Skill>,
                   added: seq<Id>, d: nat, cut: nat, next: seq<Id>)
    requires pending != [] && cut > 0 && pending[0] !in visited && pending[0] in index
    requires Resolving(index, entries, visited, pending, result, added, d, cut)
    requires next == pending[1..] + Unvisited(index[pending[0]].cascades, visited + {pending[0]})
    ensures pending[0] in Nodes(References(index, entries)) + Names(entries)
    ensures Resolving(index, entries, visited + {pending[0]}, next, result + [index[pending[0]]], added + [pending[0]],
                      d, cut - 1)
  {
    var g, starts := References(index, entries), Names(entries);
    var ref := pending[0];
    TakeFirst(g, starts, visited, pending, d, cut - 1);
    IsNode(g, starts, d, ref);
    UnvisitedConcat([], index[ref].cascades, visited + {ref});
    ReadSkill(result, index[ref], visited, pending, added);
    AddedInOrder(g, starts, visited, pending, d, cut, added, ref);
    GatherOne(index, starts, visited, entries, result, added, ref);
    Visited(g, starts, visited, ref, pending, pending[1..], next, d, cut - 1);
  }

  lemma GatherNone(index: Index, starts: set<Id>, visited: set<Id>, entries: seq<Skill>, result: seq<Skill>,
                   added: seq<Id>, n: Id)
    requires Gathered(index, starts, visited, entries, result, added) && n !in index
    ensures Gathered(index, starts, visited + {n}, entries, result, added)
  {
  }

  lemma GatherOne(index: Index, starts: set<Id>, visited: set<Id>, entries: seq<Skill>, result: seq<Skill>,
                  added: seq<Id>, n: Id)
    requires Gathered(index, starts, visited, entries, result, added)
    requires starts <= visited && n in index && n !in visited
    ensures Gathered(index, starts, visited + {n}, entries, result + [index[n]], added + [n])
  {
  }

  lemma IsNode(g: Graph, starts: set<Id>, k: nat, n: Id)
    requires Within(g, starts, k, n)
    ensures n in Nodes(g) + starts
  {
    var p :| Chain(g, starts, p, n) && |p| <= k + 1;
    if |p| > 1 {
      assert Edge(g, p[|p| - 2], p[|p| - 1]);
    }
  }

  lemma {:induction false} StreamMembers(skills: seq<Skill>)
    ensures forall n :: n in Stream(skills) <==> exists e :: e in skills && n in e.cascades
  {
    if skills != [] {
      StreamMembers(skills[..|skills| - 1]);
      assert skills == skills[..|skills| - 1] + [skills[|skills| - 1]];
    }
  }

  lemma InStream(entries: seq<Skill>, visited: set<Id>)
    ensures forall n :: n in Unvisited(Stream(entries), visited) <==>
              n !in visited && exists e :: e in entries && n in e.cascades
  {
    StreamMembers(entries);
    UnvisitedConcat([], Stream(entries), visited);
  }

  lemma StartReading(entries: seq<Skill>, visited: set<Id>)
    ensures Read(entries, visited, Unvisited(Stream(entries), visited), [])
  {
    var all := Stream(entries);
    SkimsFresh(all, visited, [], []);
    assert all + [] == all && [] + all == all && Unvisited(all, visited) + [] == Unvisited(all, visited);
    assert Reading(entries, visited, Unvisited(all, visited), [], [], all);
  }

  lemma StartLevel(index: Index, entries: seq<Skill>, pending: seq<Id>)
    requires forall n :: n in pending <==> n !in Names(entries) && exists e :: e in entries && n in e.cascades
    ensures LevelState(References(index, entries), Names(entries), Names(entries), pending, 1, |pending|)
  {
    var g, starts := References(index, entries), Names(entries);
    assert pending[..|pending|] == pending;
    forall a, b | a in starts && Edge(g, a, b) ensures b in starts || b in pending {
      var e :| e in entries && e.name == a && b in e.cascades;
    }
    forall n ensures Within(g, starts, 0, n) <==> n in starts {
      WithinZero(g, starts, n);
    }
    forall n | n in pending ensures Within(g, starts, 1, n) && Within(g, starts, 2, n) {
      var e :| e in entries && n in e.cascades;
      assert Within(g, starts, 0, e.name) && Edge(g, e.name, n);
      WithinStep(g, starts, 0, e.name, n);
      WithinGrows(g, starts, 1, 2, n);
    }
    forall n | Within(g, starts, 1, n) ensures n in starts || n in pending {
      if n !in starts {
        var m := WithinBefore(g, starts, 0, n);
      }
    }
    forall n | n in starts ensures Within(g, starts, 1, n) {
      WithinGrows(g, starts, 0, 1, n);
    }
  }

  /** Taking a name off the front keeps the state, up to that one name. */
  lemma TakeFirst(g: Graph, starts: set<Id>, visited: set<Id>, pending: seq<Id>, d: nat, cut: nat)
    requires pending != [] && LevelState(g, starts, visited, pending, d, cut + 1)
    ensures Within(g, starts, d, pending[0])
    ensures pending[0] in visited ==> LevelState(g, starts, visited, pending[1..], d, cut)
  {
  }

  lemma Visited(g: Graph, starts: set<Id>, visited: set<Id>, ref: Id, before: seq<Id>, rest: seq<Id>,
                pending: seq<Id>, d: nat, cut: nat)
    requires before == [ref] + rest && LevelState(g, starts, visited, before, d, cut + 1)
    requires rest <= pending
    requires forall n :: n in pending <==> n in rest || (Edge(g, ref, n) && n !in visited + {ref})
    ensures LevelState(g, starts, visited + {ref}, pending, d, cut)
  {
    assert before[..cut + 1] == [ref] + rest[..cut];
    assert pending[..cut] == rest[..cut];
    assert Within(g, starts, d, ref);
    forall n | n in pending ensures Within(g, starts, d + 1, n) {
      if n in rest {
        assert n in before;
      } else {
        WithinStep(g, starts, d, ref, n);
      }
    }
  }

  lemma AllReached(index: Index, entries: seq<Skill>, visited: set<Id>, d: nat)
    requires LevelState(References(index, entries), Names(entries), visited, [], d, 0)
    ensures forall n :: n in visited <==> Reachable(References(index, entries), Names(entries), n)
  {
    var g, starts := References(index, entries), Names(entries);
    forall n ensures n in visited <==> Reachable(g, starts, n) {
      if n in visited {
        assert Within(g, starts, d, n);
        WithinReaches(g, starts, d, n);
      }
      if Reachable(g, starts, n) {
        var s :| s in starts && Reach(g, s, n);
        ClosedReach(g, visited, s, n);
      }
    }
  }

  lemma Drained(index: Index, entries: seq<Skill>, visited: set<Id>, result: seq<Skill>, added: seq<Id>, d: nat)
    requires Resolving(index, entries, visited, [], result, added, d, 0)
    ensures Resolved(index, entries, result)
  {
    var done, todo :| Reading(result, visited, [], added, done, todo);
    MetLonger(done, todo, added);
    AllReached(index, entries, visited, d);
    assert ResolvedBy(index, entries, result, added);
  }

  // ----- Applying it twice

  /** Resolving a resolved list adds nothing. The index files every skill under its name. */
  lemma ResolvingTwice(index: Index, entries: seq<Skill>, once: seq<Skill>, twice: seq<Skill>)
    requires forall n :: n in index ==> index[n].name == n
    requires Resolved(index, entries, once) && Resolved(index, once, twice)
    ensures twice == once
  {
    var added :| ResolvedBy(index, entries, once, added);
    var more :| ResolvedBy(index, once, twice, more);
    forall n ensures n !in more {
      NothingNew(index, entries, once, added, n);
    }
    if more != [] {
      HasMember(more);
    }
  }

  lemma HasMember(s: seq<Id>)
    requires s != []
    ensures exists x :: x in s
  {
    assert s[0] in s;
  }

  lemma NothingNew(index: Index, entries: seq<Skill>, once: seq<Skill>, added: seq<Id>, n: Id)
    requires forall m :: m in index ==> index[m].name == m
    requires ResolvedBy(index, entries, once, added)
    ensures n in index && Reachable(References(index, once), Names(once), n) ==> n in Names(once)
  {
    ResolvedNames(index, entries, once, added);
    forall a, b | Edge(References(index, once), a, b) ensures Edge(References(index, entries), a, b) {
      SameReferences(index, entries, once, added, a, b);
    }
    if Reachable(References(index, once), Names(once), n) {
      ReachableFromReachable(References(index, entries), References(index, once), Names(entries), Names(once), n);
    }
  }

  lemma ReachableFromReachable(g: Graph, h: Graph, starts: set<Id>, more: set<Id>, n: Id)
    requires forall a, b :: Edge(h, a, b) ==> Edge(g, a, b)
    requires forall m :: m in more ==> Reachable(g, starts, m)
    requires Reachable(h, more, n)
    ensures Reachable(g, starts, n)
  {
    var s :| s in more && Reach(h, s, n);
    ReachMonotone(h, g, s, n);
    var r :| r in starts && Reach(g, r, s);
    ReachTransitive(g, r, s, n);
  }

  lemma ResolvedNames(index: Index, entries: seq<Skill>, once: seq<Skill>, added: seq<Id>)
    requires forall n :: n in index ==> index[n].name == n
    requires ResolvedBy(index, entries, once, added)
    ensures forall n :: n in Names(once) <==> n in Names(entries) || n in added
    ensures forall n :: n in Names(once) ==> Reachable(References(index, entries), Names(entries), n)
  {
    var g, starts := References(index, entries), Names(entries);
    forall n ensures n in Names(once) <==> n in starts || n in added {
      if n in Names(once) {
        var e :| e in once && e.name == n;
        var i :| 0 <= i < |once| && once[i] == e;
        if i < |entries| {
          assert entries[i] == e;
        } else {
          assert added[i - |entries|] == n;
        }
      }
      if n in starts {
        var e :| e in entries && e.name == n;
        assert e in once;
      }
      if n in added {
        var i :| 0 <= i < |added| && added[i] == n;
        assert once[|entries| + i] in once;
      }
    }
    forall n | n in starts ensures Reachable(g, starts, n) {
      ReachSelf(g, n);
    }
  }

  lemma SameReferences(index: Index, entries: seq<Skill>, once: seq<Skill>, added: seq<Id>, a: Id, b: Id)
    requires forall n :: n in index ==> index[n].name == n
    requires ResolvedBy(index, entries, once, added)
    requires Edge(References(index, once), a, b)
    ensures Edge(References(index, entries), a, b)
  {
    if a in Names(once) {
      var e :| e in once && e.name == a && b in e.cascades;
      var i :| 0 <= i < |once| && once[i] == e;
      if i < |entries| {
        assert entries[i] == e;
      } else {
        assert added[i - |entries|] == a;
        assert a in added;
      }
    } else {
      ResolvedNames(index, entries, once, added);
    }
  }
}
