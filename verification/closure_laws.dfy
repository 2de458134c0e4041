/** What the offline closure guarantees: it only appends, it terminates in
    a list whose simultaneity relation is transitively closed, it is
    idempotent, and the two build scripts agree except on empty ids. */
module ClosureLaws {
  import opened Edges
  import opened Closure

  // ---------------------------------------------------------------------
  // Append-only
  // ---------------------------------------------------------------------

  /** The input survives as an unchanged prefix; every appended edge is a
      simultaneity edge between two distinct ids already present, on a pair
      that no earlier simultaneity edge joined in either direction. */
  lemma ExpandAppendOnly(v: Variant, edges: seq<Edge>)
    ensures edges <= Expand(v, edges)
    ensures Ids(Expand(v, edges)) == Ids(edges)
    ensures forall i :: |edges| <= i < |Expand(v, edges)| ==>
              var r := Expand(v, edges);
              && r[i].kind == Simultaneity
              && r[i].source != r[i].target
              && r[i].source in Ids(edges) && r[i].target in Ids(edges)
              && !SimLinked(r[..i], r[i].source, r[i].target)
  {
    var r := Expand(v, edges);
    ExpandFresh(v, edges);
    forall i | |edges| <= i < |r|
      ensures r[i].kind == Simultaneity && r[i].source != r[i].target
      ensures r[i].source in Ids(edges) && r[i].target in Ids(edges)
      ensures !SimLinked(r[..i], r[i].source, r[i].target)
    {
      assert FreshAt(r, i);
      IdsHas(r, i);
    }
  }

  // ---------------------------------------------------------------------
  // Closed at exit
  // ---------------------------------------------------------------------

  /** Every pair `(i, k)` with `k` from `j` on is blocked; stated by
      recursion on `k` so that it unfolds only on demand. */
  ghost predicate RowBlocked(v: Variant, sims: seq<Edge>, i: nat, j: nat, cur: seq<Edge>)
    requires i < |sims| && j <= |sims|
    decreases |sims| - j
  {
    j == |sims| || ((i == j || Blocked(v, sims[i], sims[j], cur)) && RowBlocked(v, sims, i, j + 1, cur))
  }

  /** Every row from `i` on is blocked. */
  ghost predicate RowsBlocked(v: Variant, sims: seq<Edge>, i: nat, cur: seq<Edge>)
    requires i <= |sims|
    decreases |sims| - i
  {
    i == |sims| || (RowBlocked(v, sims, i, 0, cur) && RowsBlocked(v, sims, i + 1, cur))
  }

  lemma {:induction false} RowBlockedAt(v: Variant, sims: seq<Edge>, i: nat, j: nat, k: nat, cur: seq<Edge>)
    requires i < |sims| && j <= k < |sims| && k != i
    requires RowBlocked(v, sims, i, j, cur)
    ensures Blocked(v, sims[i], sims[k], cur)
    decreases k - j
  {
    if j < k {
      RowBlockedAt(v, sims, i, j + 1, k, cur);
    }
  }

  lemma {:induction false} RowsBlockedAt(v: Variant, sims: seq<Edge>, i: nat, a: nat, b: nat, cur: seq<Edge>)
    requires i <= a < |sims| && b < |sims| && a != b
    requires RowsBlocked(v, sims, i, cur)
    ensures Blocked(v, sims[a], sims[b], cur)
    decreases a - i
  {
    if i < a {
      RowsBlockedAt(v, sims, i + 1, a, b, cur);
    } else {
      RowBlockedAt(v, sims, a, 0, b, cur);
    }
  }

  /** The first step of an inner loop that appends nothing leaves the
      state alone. */
  lemma StableNext(v: Variant, sims: seq<Edge>, i: nat, j: nat, k: nat, cur: seq<Edge>)
    requires i < |sims| && j < |sims| && k == j + 1 && Known(sims, cur)
    requires |Inner(v, sims, i, j, cur)| == |cur|
    ensures |Inner(v, sims, i, k, cur)| == |cur|
  {
    if i != j {
      var next := Step(v, sims[i], sims[j], cur);
      assert Inner(v, sims, i, j, cur) == Inner(v, sims, i, k, next);
      assert next == cur;
    }
  }

  /** ... and was blocked. */
  lemma StableHead(v: Variant, sims: seq<Edge>, i: nat, j: nat, k: nat, cur: seq<Edge>)
    requires i < |sims| && j < |sims| && k == j + 1 && Known(sims, cur)
    requires |Inner(v, sims, i, j, cur)| == |cur|
    requires RowBlocked(v, sims, i, k, cur)
    ensures RowBlocked(v, sims, i, j, cur)
  {
    if i != j {
      var next := Step(v, sims[i], sims[j], cur);
      assert Inner(v, sims, i, j, cur) == Inner(v, sims, i, k, next);
      assert next == cur;
      StepBlocked(v, sims[i], sims[j], cur);
    }
  }

  /** An inner loop that appended nothing found every pair of its row
      blocked. */
  lemma {:induction false} InnerStable(v: Variant, sims: seq<Edge>, i: nat, j: nat, cur: seq<Edge>)
    requires i < |sims| && j <= |sims| && Known(sims, cur)
    requires |Inner(v, sims, i, j, cur)| == |cur|
    ensures RowBlocked(v, sims, i, j, cur)
    decreases |sims| - j
  {
    if j < |sims| {
      var k := j + 1;
      StableNext(v, sims, i, j, k, cur);
      InnerStable(v, sims, i, k, cur);
      StableHead(v, sims, i, j, k, cur);
    }
  }

  /** A round that appended nothing found every edge pair blocked. */
  lemma {:induction false} OuterStable(v: Variant, sims: seq<Edge>, i: nat, cur: seq<Edge>)
    requires i <= |sims| && Known(sims, cur)
    requires |Outer(v, sims, i, cur)| == |cur|
    ensures RowsBlocked(v, sims, i, cur)
    decreases |sims| - i
  {
    if i < |sims| {
      var next := Inner(v, sims, i, 0, cur);
      assert |Outer(v, sims, i + 1, next)| >= |next|;
      assert next == cur;
      InnerStable(v, sims, i, 0, cur);
      OuterStable(v, sims, i + 1, next);
    }
  }

  /** In a list where every pair of simultaneity edges is blocked, a
      two-edge simultaneity path through non-empty ids is short-cut. */
  lemma ChainLinked(v: Variant, x: seq<Edge>, a: string, b: string, c: string)
    requires RowsBlocked(v, Sims(x), 0, x) && "" !in Ids(x)
    requires SimLinked(x, a, b) && SimLinked(x, b, c) && a != c
    ensures SimLinked(x, a, c)
  {
    var sims := Sims(x);
    var k1 :| 0 <= k1 < |x| && x[k1].kind == Simultaneity && Joins(x[k1], a, b);
    var k2 :| 0 <= k2 < |x| && x[k2].kind == Simultaneity && Joins(x[k2], b, c);
    var e1, e2 := x[k1], x[k2];
    assert e1 in sims && e2 in sims;
    var i :| 0 <= i < |sims| && sims[i] == e1;
    var j :| 0 <= j < |sims| && sims[j] == e2;
    IdsHas(x, k2);
    assert b in Ids(x) && c in Ids(x);
    ProposeChain(v, e1, e2, a, b, c);
    RowsBlockedAt(v, sims, 0, i, j, x);
  }

  /** A list that a round leaves unchanged, with no empty id, has a
      transitively closed simultaneity relation. */
  lemma FixpointClosed(v: Variant, x: seq<Edge>)
    requires |Round(v, x)| == |x| && "" !in Ids(x)
    ensures SimClosed(x)
  {
    SimsKnown(x);
    OuterStable(v, Sims(x), 0, x);
    forall a, b, c | SimLinked(x, a, b) && SimLinked(x, b, c) && a != c
      ensures SimLinked(x, a, c)
    {
      ChainLinked(v, x, a, b, c);
    }
  }

  /** The closure run to its fix point leaves every simultaneity path of
      length two short-cut: the result is transitively closed, given that
      no id is the empty string. */
  lemma {:induction false} ExpandClosed(v: Variant, edges: seq<Edge>)
    requires "" !in Ids(edges)
    ensures SimClosed(Expand(v, edges))
    decreases SimUnlinked(edges)
  {
    var next := Round(v, edges);
    if |next| == |edges| {
      FixpointClosed(v, edges);
    } else {
      RoundFresh(v, edges);
      FreshLinksShrink(edges, next);
      ExpandClosed(v, next);
    }
  }

  // ---------------------------------------------------------------------
  // Idempotence
  // ---------------------------------------------------------------------

  /** The closure's result is a fix point of one more round. */
  lemma {:induction false} ExpandIsFixpoint(v: Variant, edges: seq<Edge>)
    ensures |Round(v, Expand(v, edges))| == |Expand(v, edges)|
    decreases SimUnlinked(edges)
  {
    var next := Round(v, edges);
    if |next| != |edges| {
      RoundFresh(v, edges);
      FreshLinksShrink(edges, next);
      ExpandIsFixpoint(v, next);
    }
  }

  /** Expanding an already expanded list appends nothing. */
  lemma ExpandIdempotent(v: Variant, edges: seq<Edge>)
    ensures Expand(v, Expand(v, edges)) == Expand(v, edges)
  {
    ExpandIsFixpoint(v, edges);
  }

  /** Whatever the scripts propose is a short-cut of a two-edge path
      through a common id. */
  lemma ProposeSound(v: Variant, e1: Edge, e2: Edge) returns (c: string)
    requires Propose(v, e1, e2).Some?
    ensures Joins(e1, Propose(v, e1, e2).value.0, c) && Joins(e2, c, Propose(v, e1, e2).value.1)
  {
    var p := Propose(v, e1, e2).value;
    if Joins(e1, p.0, e1.source) && Joins(e2, e1.source, p.1) {
      c := e1.source;
    } else {
      c := e1.target;
    }
  }

  /** A blocked pair (or the diagonal) leaves the inner loop's state alone. */
  lemma InnerSkip(v: Variant, sims: seq<Edge>, i: nat, j: nat, cur: seq<Edge>)
    requires i < |sims| && j < |sims| && Known(sims, cur)
    requires i != j ==> Blocked(v, sims[i], sims[j], cur)
    ensures Inner(v, sims, i, j, cur) == Inner(v, sims, i, j + 1, cur)
  {
    if i != j {
      StepBlocked(v, sims[i], sims[j], cur);
    }
  }

  /** When every pair of a row is blocked the inner loop appends nothing. */
  lemma {:induction false} InnerAllBlocked(v: Variant, sims: seq<Edge>, i: nat, j: nat, cur: seq<Edge>)
    requires i < |sims| && j <= |sims| && Known(sims, cur)
    requires RowBlocked(v, sims, i, j, cur)
    ensures Inner(v, sims, i, j, cur) == cur
    decreases |sims| - j
  {
    if j < |sims| {
      var k := j + 1;
      InnerSkip(v, sims, i, j, cur);
      InnerAllBlocked(v, sims, i, k, cur);
    }
  }

  lemma {:induction false} OuterAllBlocked(v: Variant, sims: seq<Edge>, i: nat, cur: seq<Edge>)
    requires i <= |sims| && Known(sims, cur)
    requires RowsBlocked(v, sims, i, cur)
    ensures Outer(v, sims, i, cur) == cur
    decreases |sims| - i
  {
    if i < |sims| {
      InnerAllBlocked(v, sims, i, 0, cur);
      OuterAllBlocked(v, sims, i + 1, cur);
    }
  }

  /** In a closed list every pair of simultaneity edges is blocked. */
  lemma PairBlocked(v: Variant, edges: seq<Edge>, e1: Edge, e2: Edge)
    requires SimClosed(edges) && e1 in Sims(edges) && e2 in Sims(edges)
    ensures Blocked(v, e1, e2, edges)
  {
    if Propose(v, e1, e2).Some? {
      var p := Propose(v, e1, e2).value;
      var c := ProposeSound(v, e1, e2);
      var ka :| 0 <= ka < |edges| && edges[ka] == e1;
      var kb :| 0 <= kb < |edges| && edges[kb] == e2;
      assert SimLinked(edges, p.0, c) && SimLinked(edges, c, p.1);
    }
  }

  lemma {:induction false} ClosedRow(v: Variant, edges: seq<Edge>, i: nat, j: nat)
    requires SimClosed(edges) && i < |Sims(edges)| && j <= |Sims(edges)|
    ensures RowBlocked(v, Sims(edges), i, j, edges)
    decreases |Sims(edges)| - j
  {
    var sims := Sims(edges);
    if j < |sims| {
      PairBlocked(v, edges, sims[i], sims[j]);
      ClosedRow(v, edges, i, j + 1);
    }
  }

  lemma {:induction false} ClosedRows(v: Variant, edges: seq<Edge>, i: nat)
    requires SimClosed(edges) && i <= |Sims(edges)|
    ensures RowsBlocked(v, Sims(edges), i, edges)
    decreases |Sims(edges)| - i
  {
    if i < |Sims(edges)| {
      ClosedRow(v, edges, i, 0);
      ClosedRows(v, edges, i + 1);
    }
  }

  /** A list whose simultaneity relation is already transitively closed is
      returned unchanged by either script. */
  lemma ClosedInputUnchanged(v: Variant, edges: seq<Edge>)
    requires SimClosed(edges)
    ensures Expand(v, edges) == edges
  {
    SimsKnown(edges);
    ClosedRows(v, edges, 0);
    OuterAllBlocked(v, Sims(edges), 0, edges);
  }

  // ---------------------------------------------------------------------
  // Only implied links
  // ---------------------------------------------------------------------

  /** Every edge of the snapshot joins a pair linked in `x`. */
  ghost predicate SimsIn(sims: seq<Edge>, x: seq<Edge>)
  {
    forall k :: 0 <= k < |sims| ==> SimLinked(x, sims[k].source, sims[k].target)
  }

  /** A step links only a pair that a closed `x`, holding both edges'
      pairs, already links. */
  lemma StepWithin(x: seq<Edge>, v: Variant, e1: Edge, e2: Edge, cur: seq<Edge>)
    requires e1.source in Ids(cur) && e1.target in Ids(cur)
    requires e2.source in Ids(cur) && e2.target in Ids(cur)
    requires SimClosed(x) && LinksIn(cur, x)
    requires SimLinked(x, e1.source, e1.target) && SimLinked(x, e2.source, e2.target)
    ensures LinksIn(Step(v, e1, e2, cur), x)
  {
    var p := Propose(v, e1, e2);
    if p.Some? && !SimLinked(cur, p.value.0, p.value.1) {
      var c := ProposeSound(v, e1, e2);
      LinkedSymmetric(x, e1.source, e1.target);
      LinkedSymmetric(x, e2.source, e2.target);
      assert SimLinked(x, p.value.0, c) && SimLinked(x, c, p.value.1);
      LinksInPush(cur, Edge(p.value.0, p.value.1, Simultaneity), x);
    }
  }

  lemma {:induction false} InnerWithin(x: seq<Edge>, v: Variant, sims: seq<Edge>, i: nat, j: nat, cur: seq<Edge>)
    requires i < |sims| && j <= |sims| && Known(sims, cur)
    requires SimClosed(x) && LinksIn(cur, x) && SimsIn(sims, x)
    ensures LinksIn(Inner(v, sims, i, j, cur), x)
    decreases |sims| - j
  {
    if j < |sims| {
      var k := j + 1;
      var next := InnerUnfold(v, sims, i, j, k, cur);
      assert LinksIn(next, x) by {
        if i != j {
          StepWithin(x, v, sims[i], sims[j], cur);
        }
      }
      InnerWithin(x, v, sims, i, k, next);
    }
  }

  lemma {:induction false} OuterWithin(x: seq<Edge>, v: Variant, sims: seq<Edge>, i: nat, cur: seq<Edge>)
    requires i <= |sims| && Known(sims, cur)
    requires SimClosed(x) && LinksIn(cur, x) && SimsIn(sims, x)
    ensures LinksIn(Outer(v, sims, i, cur), x)
    decreases |sims| - i
  {
    if i < |sims| {
      var next := Inner(v, sims, i, 0, cur);
      InnerWithin(x, v, sims, i, 0, cur);
      OuterWithin(x, v, sims, i + 1, next);
    }
  }

  lemma RoundWithin(x: seq<Edge>, v: Variant, cur: seq<Edge>)
    requires SimClosed(x) && LinksIn(cur, x)
    ensures LinksIn(Round(v, cur), x)
  {
    var sims := Sims(cur);
    SimsKnown(cur);
    forall k | 0 <= k < |sims| ensures SimLinked(x, sims[k].source, sims[k].target)
    {
      assert sims[k] in sims;
      var i :| 0 <= i < |cur| && cur[i] == sims[k];
      assert Joins(cur[i], sims[k].source, sims[k].target);
    }
    OuterWithin(x, v, sims, 0, cur);
  }

  /** The closure adds no link outside any transitively closed relation
      that holds the input's links: its result is the least closed
      extension of the input's simultaneity relation. */
  lemma {:induction false} ExpandWithin(x: seq<Edge>, v: Variant, edges: seq<Edge>)
    requires SimClosed(x) && LinksIn(edges, x)
    ensures LinksIn(Expand(v, edges), x)
    decreases SimUnlinked(edges)
  {
    var next := Round(v, edges);
    if |next| != |edges| {
      RoundFresh(v, edges);
      FreshLinksShrink(edges, next);
      RoundWithin(x, v, edges);
      ExpandWithin(x, v, next);
    }
  }

  // ---------------------------------------------------------------------
  // The two scripts compared
  // ---------------------------------------------------------------------

  /** One inner iteration takes both scripts to the same state. */
  lemma InnerStepAgree(sims: seq<Edge>, i: nat, j: nat, cur: seq<Edge>) returns (next: seq<Edge>)
    requires i < |sims| && j < |sims| && Known(sims, cur) && "" !in Ids(cur)
    ensures Known(sims, next) && "" !in Ids(next)
    ensures Inner(ExpandSolutions, sims, i, j, cur) == Inner(ExpandSolutions, sims, i, j + 1, next)
    ensures Inner(UpdateHash, sims, i, j, cur) == Inner(UpdateHash, sims, i, j + 1, next)
  {
    next := cur;
    if i != j {
      ProposeAgree(sims[i], sims[j]);
      next := Step(ExpandSolutions, sims[i], sims[j], cur);
      assert Step(UpdateHash, sims[i], sims[j], cur) == next;
    }
  }

  lemma {:induction false} InnerAgree(sims: seq<Edge>, i: nat, j: nat, cur: seq<Edge>)
    requires i < |sims| && j <= |sims| && Known(sims, cur) && "" !in Ids(cur)
    ensures Inner(ExpandSolutions, sims, i, j, cur) == Inner(UpdateHash, sims, i, j, cur)
    decreases |sims| - j
  {
    if j < |sims| {
      var k := j + 1;
      var next := InnerStepAgree(sims, i, j, cur);
      InnerAgree(sims, i, k, next);
    }
  }

  lemma {:induction false} OuterAgree(sims: seq<Edge>, i: nat, cur: seq<Edge>)
    requires i <= |sims| && Known(sims, cur) && "" !in Ids(cur)
    ensures Outer(ExpandSolutions, sims, i, cur) == Outer(UpdateHash, sims, i, cur)
    decreases |sims| - i
  {
    if i < |sims| {
      InnerAgree(sims, i, 0, cur);
      OuterAgree(sims, i + 1, Inner(ExpandSolutions, sims, i, 0, cur));
    }
  }

  lemma RoundAgree(edges: seq<Edge>)
    requires "" !in Ids(edges)
    ensures Round(ExpandSolutions, edges) == Round(UpdateHash, edges)
  {
    SimsKnown(edges);
    OuterAgree(Sims(edges), 0, edges);
  }

  /** With no empty id anywhere, the solution expander and the hash
      updater compute the identical edge list, direction included. */
  lemma {:induction false} ScriptsAgree(edges: seq<Edge>)
    requires "" !in Ids(edges)
    ensures Expand(ExpandSolutions, edges) == Expand(UpdateHash, edges)
    decreases SimUnlinked(edges)
  {
    RoundAgree(edges);
    var next := Round(ExpandSolutions, edges);
    if |next| != |edges| {
      RoundFresh(ExpandSolutions, edges);
      FreshLinksShrink(edges, next);
      ScriptsAgree(next);
    }
  }

  /** With an empty id the scripts diverge: on `A–B, B–""` the expander
      appends `(A, "")` and the hash updater appends `("", A)`. */
  lemma ScriptsDivergeOnEmptyId(p: seq<Edge>)
    requires p == [Edge("A", "B", Simultaneity), Edge("B", "", Simultaneity)]
    ensures Round(ExpandSolutions, p) == p + [Edge("A", "", Simultaneity)]
    ensures Round(UpdateHash, p) == p + [Edge("", "A", Simultaneity)]
  {
    DivergeSims(p);
    DivergeExpander(p);
    DivergeUpdater(p);
  }

  lemma DivergeSims(p: seq<Edge>)
    requires p == [Edge("A", "B", Simultaneity), Edge("B", "", Simultaneity)]
    ensures Sims(p) == p && Known(p, p)
  {
    assert p[1..] == [p[1]];
    assert Sims([p[1]]) == [p[1]];
    IdsHas(p, 0);
    IdsHas(p, 1);
  }

  /** The four proposals on the divergence example. */
  lemma DivergeProposals(ab: Edge, bz: Edge)
    requires ab == Edge("A", "B", Simultaneity) && bz == Edge("B", "", Simultaneity)
    ensures Propose(ExpandSolutions, ab, bz) == Some(("A", ""))
    ensures Propose(ExpandSolutions, bz, ab) == Some(("", "A"))
    ensures Propose(UpdateHash, ab, bz) == None
    ensures Propose(UpdateHash, bz, ab) == Some(("", "A"))
  {
    assert "A" != "B" && "B" != "" && "A" != "";
  }

  /** Two iterations of the outer loop over a two-edge snapshot, each
      inner loop skipping its diagonal. */
  lemma TwoByTwo(v: Variant, p: seq<Edge>, cur: seq<Edge>)
    requires |p| == 2 && Known(p, cur)
    ensures Known(p, Step(v, p[0], p[1], cur))
    ensures Outer(v, p, 0, cur) == Step(v, p[1], p[0], Step(v, p[0], p[1], cur))
  {
    var q := Step(v, p[0], p[1], cur);
    assert Inner(v, p, 0, 1, cur) == Inner(v, p, 0, 2, q);
    assert Inner(v, p, 0, 0, cur) == q;
    var r := Step(v, p[1], p[0], q);
    assert Inner(v, p, 1, 0, q) == Inner(v, p, 1, 1, r);
    assert Inner(v, p, 1, 1, r) == Inner(v, p, 1, 2, r) == r;
    assert Outer(v, p, 1, q) == Outer(v, p, 2, r);
  }

  lemma DivergeExpander(p: seq<Edge>)
    requires p == [Edge("A", "B", Simultaneity), Edge("B", "", Simultaneity)] && Sims(p) == p && Known(p, p)
    ensures Round(ExpandSolutions, p) == p + [Edge("A", "", Simultaneity)]
  {
    var q := p + [Edge("A", "", Simultaneity)];
    DivergeProposals(p[0], p[1]);
    assert !SimLinked(p, "A", "");
    assert Step(ExpandSolutions, p[0], p[1], p) == q;
    assert q[2].kind == Simultaneity && Joins(q[2], "", "A");
    assert Step(ExpandSolutions, p[1], p[0], q) == q;
    TwoByTwo(ExpandSolutions, p, p);
  }

  lemma DivergeUpdater(p: seq<Edge>)
    requires p == [Edge("A", "B", Simultaneity), Edge("B", "", Simultaneity)] && Sims(p) == p && Known(p, p)
    ensures Round(UpdateHash, p) == p + [Edge("", "A", Simultaneity)]
  {
    var q := p + [Edge("", "A", Simultaneity)];
    DivergeProposals(p[0], p[1]);
    assert Step(UpdateHash, p[0], p[1], p) == p;
    assert !SimLinked(p, "", "A");
    assert Step(UpdateHash, p[1], p[0], p) == q;
    TwoByTwo(UpdateHash, p, p);
  }
}
