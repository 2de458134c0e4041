/** The canonical serialisation of an edge list that is hashed and compared
    against a level's stored hash: every edge becomes a `(source, target,
    type)` triple and the triples are sorted field by field. The game and
    the hash updater use the same definition, so a single function stands
    for both. */
module Canonical {
  import opened Edges

  // ---------------------------------------------------------------------
  // String order
  // ---------------------------------------------------------------------

  /** Code-unit lexicographic order on strings: a proper prefix comes first,
      otherwise the first differing character decides. */
  predicate StrLt(a: string, b: string)
    decreases |a|
  {
    if a == [] then b != []
    else if b == [] then false
    else if a[0] != b[0] then a[0] < b[0]
    else StrLt(a[1..], b[1..])
  }

  lemma {:induction false} StrLtIrreflexive(a: string)
    ensures !StrLt(a, a)
    decreases |a|
  {
    if a != [] {
      StrLtIrreflexive(a[1..]);
    }
  }

  lemma {:induction false} StrLtAsymmetric(a: string, b: string)
    requires StrLt(a, b)
    ensures !StrLt(b, a)
    decreases |a|
  {
    if a != [] && b != [] && a[0] == b[0] {
      StrLtAsymmetric(a[1..], b[1..]);
    }
  }

  lemma {:induction false} StrLtTransitive(a: string, b: string, c: string)
    requires StrLt(a, b) && StrLt(b, c)
    ensures StrLt(a, c)
    decreases |a|
  {
    if a != [] && a[0] == b[0] && b[0] == c[0] {
      StrLtTransitive(a[1..], b[1..], c[1..]);
    }
  }

  lemma {:induction false} StrLtTotal(a: string, b: string)
    requires a != b
    ensures StrLt(a, b) || StrLt(b, a)
    decreases |a|
  {
    if a != [] && b != [] && a[0] == b[0] {
      assert a == [a[0]] + a[1..] && b == [b[0]] + b[1..];
      StrLtTotal(a[1..], b[1..]);
    }
  }

  // ---------------------------------------------------------------------
  // Triples and their order
  // ---------------------------------------------------------------------

  /** The simplified record `{s, t, y}` an edge is mapped to. */
  datatype Triple = Triple(s: string, t: string, y: string)

  function ToTriple(e: Edge): Triple
  {
    Triple(e.source, e.target, RelationName(e.kind))
  }

  /** The sort comparator: source first, then target, then type. */
  predicate TripleLt(a: Triple, b: Triple)
  {
    if a.s != b.s then StrLt(a.s, b.s)
    else if a.t != b.t then StrLt(a.t, b.t)
    else StrLt(a.y, b.y)
  }

  predicate TripleLe(a: Triple, b: Triple)
  {
    a == b || TripleLt(a, b)
  }

  /** The comparator is a strict total order on triples. */
  lemma TripleOrder(a: Triple, b: Triple, c: Triple)
    ensures !TripleLt(a, a)
    ensures TripleLt(a, b) ==> !TripleLt(b, a)
    ensures a != b ==> TripleLt(a, b) || TripleLt(b, a)
    ensures TripleLt(a, b) && TripleLt(b, c) ==> TripleLt(a, c)
  {
    StrLtIrreflexive(a.y);
    if TripleLt(a, b) {
      if a.s != b.s { StrLtAsymmetric(a.s, b.s); }
      else if a.t != b.t { StrLtAsymmetric(a.t, b.t); }
      else { StrLtAsymmetric(a.y, b.y); }
    }
    if a != b {
      if a.s != b.s { StrLtTotal(a.s, b.s); }
      else if a.t != b.t { StrLtTotal(a.t, b.t); }
      else { StrLtTotal(a.y, b.y); }
    }
    if TripleLt(a, b) && TripleLt(b, c) {
      TripleTransitive(a, b, c);
    }
  }

  lemma TripleTransitive(a: Triple, b: Triple, c: Triple)
    requires TripleLt(a, b) && TripleLt(b, c)
    ensures TripleLt(a, c)
  {
    if a.s != b.s && b.s != c.s {
      StrLtTransitive(a.s, b.s, c.s);
      if a.s == c.s { StrLtAsymmetric(a.s, b.s); }
    } else if a.s == b.s && b.s == c.s {
      if a.t != b.t && b.t != c.t {
        StrLtTransitive(a.t, b.t, c.t);
        if a.t == c.t { StrLtAsymmetric(a.t, b.t); }
      } else if a.t == b.t && b.t == c.t {
        StrLtTransitive(a.y, b.y, c.y);
      }
    }
  }

  lemma LeTransitive(a: Triple, b: Triple, c: Triple)
    requires TripleLe(a, b) && TripleLe(b, c)
    ensures TripleLe(a, c)
  {
    if a != b && b != c {
      TripleTransitive(a, b, c);
    }
  }

  lemma LeAntisymmetric(a: Triple, b: Triple)
    requires TripleLe(a, b) && TripleLe(b, a)
    ensures a == b
  {
    TripleOrder(a, b, a);
  }

  // ---------------------------------------------------------------------
  // Sorting
  // ---------------------------------------------------------------------

  predicate Sorted(xs: seq<Triple>)
  {
    forall i, j :: 0 <= i < j < |xs| ==> TripleLe(xs[i], xs[j])
  }

  /** `x` is no greater than any element of `xs`. */
  predicate Below(x: Triple, xs: seq<Triple>)
  {
    forall j :: 0 <= j < |xs| ==> TripleLe(x, xs[j])
  }

  lemma SortedCons(x: Triple, xs: seq<Triple>)
    requires Sorted(xs) && Below(x, xs)
    ensures Sorted([x] + xs)
  {
    var r := [x] + xs;
    forall i, j | 0 <= i < j < |r| ensures TripleLe(r[i], r[j])
    {
      if i > 0 {
        assert r[i] == xs[i - 1] && r[j] == xs[j - 1];
      } else {
        assert r[j] == xs[j - 1];
      }
    }
  }

  lemma BelowSorted(x: Triple, xs: seq<Triple>)
    requires Sorted(xs) && xs != [] && TripleLe(x, xs[0])
    ensures Below(x, xs)
  {
    forall j | 0 <= j < |xs| ensures TripleLe(x, xs[j])
    {
      if j > 0 {
        LeTransitive(x, xs[0], xs[j]);
      }
    }
  }

  /** Inserts `x` before the first element it does not exceed. */
  function Insert(x: Triple, xs: seq<Triple>): (r: seq<Triple>)
    requires Sorted(xs)
    ensures Sorted(r)
    ensures multiset(r) == multiset(xs) + multiset{x}
    ensures xs != [] ==> r[0] == x || r[0] == xs[0]
    decreases |xs|
  {
    if xs == [] then [x]
    else if TripleLe(x, xs[0]) then
      BelowSorted(x, xs);
      SortedCons(x, xs);
      [x] + xs
    else
      var rest := Insert(x, xs[1..]);
      assert xs == [xs[0]] + xs[1..];
      TripleOrder(x, xs[0], x);
      InsertBelow(xs[0], x, xs[1..], rest);
      SortedCons(xs[0], rest);
      [xs[0]] + rest
  }

  /** The head of a sorted list stays below the list after inserting an
      element that it precedes. */
  lemma InsertBelow(h: Triple, x: Triple, tail: seq<Triple>, rest: seq<Triple>)
    requires Sorted([h] + tail) && TripleLe(h, x)
    requires multiset(rest) == multiset(tail) + multiset{x}
    ensures Below(h, rest)
  {
    forall j | 0 <= j < |rest| ensures TripleLe(h, rest[j])
    {
      assert rest[j] in multiset(rest);
      if rest[j] != x {
        assert rest[j] in multiset(tail);
        var k :| 0 <= k < |tail| && tail[k] == rest[j];
        var l := [h] + tail;
        assert l[0] == h && l[k + 1] == tail[k];
        assert TripleLe(l[0], l[k + 1]);
      }
    }
  }

  /** Insertion sort; `Array.prototype.sort` is stable, and under a total
      order on distinct values a stable sort has exactly one possible
      output, so any correct sort gives this result. */
  function Sort(xs: seq<Triple>): (r: seq<Triple>)
    ensures Sorted(r)
    ensures multiset(r) == multiset(xs)
    decreases |xs|
  {
    if xs == [] then []
    else
      assert xs == [xs[0]] + xs[1..];
      Insert(xs[0], Sort(xs[1..]))
  }

  /** Two sorted lists with the same elements are the same list. */
  lemma {:induction false} SortedUnique(a: seq<Triple>, b: seq<Triple>)
    requires Sorted(a) && Sorted(b) && multiset(a) == multiset(b)
    ensures a == b
    decreases |a|
  {
    assert |a| == |multiset(a)| == |multiset(b)| == |b|;
    if a != [] {
      SameHead(a, b);
      assert a == [a[0]] + a[1..] && b == [b[0]] + b[1..];
      assert multiset(a) == multiset{a[0]} + multiset(a[1..]);
      assert multiset(b) == multiset{b[0]} + multiset(b[1..]);
      Cancel(a[0], multiset(a[1..]), multiset(b[1..]));
      SortedTail(a);
      SortedTail(b);
      SortedUnique(a[1..], b[1..]);
    }
  }

  lemma Cancel<T>(x: T, p: multiset<T>, q: multiset<T>)
    requires multiset{x} + p == multiset{x} + q
    ensures p == q
  {
    forall y ensures p[y] == q[y]
    {
      assert (multiset{x} + p)[y] == (multiset{x} + q)[y];
    }
  }

  lemma SortedTail(a: seq<Triple>)
    requires Sorted(a) && a != []
    ensures Sorted(a[1..])
  {
    forall i, j | 0 <= i < j < |a| - 1 ensures TripleLe(a[1..][i], a[1..][j])
    {
      assert a[1..][i] == a[i + 1] && a[1..][j] == a[j + 1];
    }
  }

  /** The head of a sorted list is its least element. */
  lemma HeadLeast(a: seq<Triple>, x: Triple)
    requires Sorted(a) && a != [] && x in multiset(a)
    ensures TripleLe(a[0], x)
  {
    var i :| 0 <= i < |a| && a[i] == x;
    if i > 0 {
      assert TripleLe(a[0], a[i]);
    }
  }

  lemma SameHead(a: seq<Triple>, b: seq<Triple>)
    requires Sorted(a) && Sorted(b) && multiset(a) == multiset(b) && a != [] && b != []
    ensures a[0] == b[0]
  {
    assert a[0] in multiset(a) && b[0] in multiset(b);
    HeadLeast(a, b[0]);
    HeadLeast(b, a[0]);
    LeAntisymmetric(a[0], b[0]);
  }

  // ---------------------------------------------------------------------
  // Serialisation
  // ---------------------------------------------------------------------

  function Triples(edges: seq<Edge>): (r: seq<Triple>)
    ensures |r| == |edges|
    decreases |edges|
  {
    if edges == [] then [] else [ToTriple(edges[0])] + Triples(edges[1..])
  }

  lemma {:induction false} TriplesAppend(a: seq<Edge>, b: seq<Edge>)
    ensures Triples(a + b) == Triples(a) + Triples(b)
    decreases |a|
  {
    if a == [] {
      assert a + b == b;
    } else {
      var ab := a + b;
      assert ab != [] && ab[0] == a[0] && ab[1..] == a[1..] + b;
      TriplesAppend(a[1..], b);
      calc {
        Triples(ab);
        [ToTriple(a[0])] + Triples(a[1..] + b);
        [ToTriple(a[0])] + (Triples(a[1..]) + Triples(b));
        ([ToTriple(a[0])] + Triples(a[1..])) + Triples(b);
        Triples(a) + Triples(b);
      }
    }
  }

  /** The serialised form of an edge list: its triples in comparator order. */
  function Serialize(edges: seq<Edge>): (r: seq<Triple>)
    ensures Sorted(r)
    ensures multiset(r) == multiset(Triples(edges))
    ensures |r| == |edges|
  {
    var r := Sort(Triples(edges));
    assert |r| == |multiset(r)|;
    r
  }

  /** Taking one edge out of the middle of a list takes its triple out of
      the triples' multiset. */
  lemma TriplesMove(pre: seq<Edge>, x: Edge, post: seq<Edge>)
    ensures multiset(Triples(pre + [x] + post))
         == multiset{ToTriple(x)} + multiset(Triples(pre + post))
  {
    TriplesAppend(pre + [x], post);
    TriplesAppend(pre, [x]);
    TriplesAppend(pre, post);
    assert Triples([x]) == [ToTriple(x)];
  }

  lemma SplitAt(e: seq<Edge>, k: nat)
    requires k < |e|
    ensures e == e[..k] + [e[k]] + e[k + 1..]
    ensures multiset(e) == multiset{e[k]} + multiset(e[..k] + e[k + 1..])
  {
    assert e == e[..k] + [e[k]] + e[k + 1..];
  }

  lemma IndexOf(e: seq<Edge>, x: Edge) returns (k: nat)
    requires x in multiset(e)
    ensures k < |e| && e[k] == x
  {
    k :| 0 <= k < |e| && e[k] == x;
  }

  lemma {:induction false} TriplesPermutation(e1: seq<Edge>, e2: seq<Edge>)
    requires multiset(e1) == multiset(e2)
    ensures multiset(Triples(e1)) == multiset(Triples(e2))
    decreases |e1|
  {
    if e1 != [] {
      var x := e1[0];
      assert e1 == [x] + e1[1..];
      var k := IndexOf(e2, x);
      var pre, post := e2[..k], e2[k + 1..];
      SplitAt(e2, k);
      SplitAt(e1, 0);
      var rest := e1[1..];
      Cancel(x, multiset(rest), multiset(pre + post));
      TriplesPermutation(rest, pre + post);
      TriplesMove(pre, x, post);
      TriplesMove([], x, rest);
    }
  }

  /** The serialised form does not depend on the order of the edge list:
      any permutation serialises identically. */
  lemma SerializePermutation(e1: seq<Edge>, e2: seq<Edge>)
    requires multiset(e1) == multiset(e2)
    ensures Serialize(e1) == Serialize(e2)
  {
    TriplesPermutation(e1, e2);
    SortedUnique(Serialize(e1), Serialize(e2));
  }

  /** Distinct edges give distinct triples. */
  lemma ToTripleInjective(a: Edge, b: Edge)
    requires ToTriple(a) == ToTriple(b)
    ensures a == b
  {
  }

  /** Each edge occurs among the triples as often as in the list. */
  lemma {:induction false} TriplesCount(e: seq<Edge>, x: Edge)
    ensures multiset(Triples(e))[ToTriple(x)] == multiset(e)[x]
    decreases |e|
  {
    if e != [] {
      TriplesCount(e[1..], x);
      assert e == [e[0]] + e[1..];
      if ToTriple(e[0]) == ToTriple(x) {
        ToTripleInjective(e[0], x);
      }
    }
  }

  /** The converse of `SerializePermutation`: equal serialisations come
      only from permutations of the same edges. */
  lemma SerializeDeterminesEdges(e1: seq<Edge>, e2: seq<Edge>)
    requires Serialize(e1) == Serialize(e2)
    ensures multiset(e1) == multiset(e2)
  {
    forall x ensures multiset(e1)[x] == multiset(e2)[x]
    {
      TriplesCount(e1, x);
      TriplesCount(e2, x);
    }
  }
}
