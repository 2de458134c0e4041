/** The offline simultaneity closure run over authored solution edges before
    hashing. The two build scripts (the solution expander and the hash
    updater) run the same fix-point loop and differ only in how the inner
    loop picks the pair to link; the loop is modelled once and the pair
    choice per script. */
module Closure {
  import opened Edges

  /** Which build script's pair choice to use. */
  datatype Variant = ExpandSolutions | UpdateHash

  /** The simultaneity edges of a list, in order (`filter(e => e.type === 'simultaneity')`). */
  function Sims(edges: seq<Edge>): (r: seq<Edge>)
    ensures forall e :: e in r <==> e in edges && e.kind == Simultaneity
  {
    if edges == [] then []
    else if edges[0].kind == Simultaneity then [edges[0]] + Sims(edges[1..])
    else Sims(edges[1..])
  }

  /** The pair `(start, target)` the inner loop of the given script would
      link for the edge pair `(e1, e2)`, after that script's guards: a
      shared endpoint must exist and be a non-empty string, the hash
      updater also wants a non-empty target, and start and target must
      differ. The existence check is left to `Step`. */
  function Propose(v: Variant, e1: Edge, e2: Edge): (r: Option<(string, string)>)
    ensures r.Some? ==> r.value.0 != r.value.1
    ensures r.Some? ==> (r.value.0 == e1.source || r.value.0 == e1.target)
    ensures r.Some? ==> (r.value.1 == e2.source || r.value.1 == e2.target)
  {
    match v
    case ExpandSolutions =>
      // try the four endpoint matches in the script's order
      var m :=
        if e1.source == e2.source then Some((e1.source, e1.target, e2.target))
        else if e1.source == e2.target then Some((e1.source, e1.target, e2.source))
        else if e1.target == e2.source then Some((e1.target, e1.source, e2.target))
        else if e1.target == e2.target then Some((e1.target, e1.source, e2.source))
        else None;
      if m.Some? && m.value.0 != "" && m.value.1 != m.value.2 then Some((m.value.1, m.value.2)) else None
    case UpdateHash =>
      // the common node is an endpoint of e2 found among e1's endpoints
      var m :=
        if e2.source == e1.source || e2.source == e1.target then Some((e2.source, e2.target))
        else if e2.target == e1.source || e2.target == e1.target then Some((e2.target, e2.source))
        else None;
      if m.Some? && m.value.0 != "" && m.value.1 != "" then
        var start := if e1.source == m.value.0 then e1.target else e1.source;
        if start != m.value.1 then Some((start, m.value.1)) else None
      else None
  }

  /** The two scripts propose the same pair whenever no endpoint is the
      empty string. */
  lemma ProposeAgree(e1: Edge, e2: Edge)
    requires e1.source != "" && e1.target != "" && e2.source != "" && e2.target != ""
    ensures Propose(ExpandSolutions, e1, e2) == Propose(UpdateHash, e1, e2)
  {
  }

  /** Two edges `x–y` and `y–z` with `x != z` make either script propose
      exactly `(x, z)`, provided the shared and far ids are non-empty. */
  lemma ProposeChain(v: Variant, e1: Edge, e2: Edge, x: string, y: string, z: string)
    requires Joins(e1, x, y) && Joins(e2, y, z) && x != z
    requires y != "" && z != ""
    ensures Propose(v, e1, e2) == Some((x, z))
  {
  }

  /** Position `i` of `r` holds a simultaneity edge between distinct ids on
      a pair that no earlier simultaneity edge joins. */
  ghost predicate FreshAt(r: seq<Edge>, i: nat)
    requires i < |r|
  {
    && r[i].kind == Simultaneity
    && r[i].source != r[i].target
    && !SimLinked(r[..i], r[i].source, r[i].target)
  }

  /** The appended tail after `base` consists of fresh simultaneity links. */
  ghost predicate FreshLinks(base: seq<Edge>, r: seq<Edge>)
  {
    && base <= r
    && forall i :: |base| <= i < |r| ==> FreshAt(r, i)
  }

  lemma FreshLinksTrans(a: seq<Edge>, b: seq<Edge>, c: seq<Edge>)
    requires FreshLinks(a, b) && FreshLinks(b, c)
    ensures FreshLinks(a, c)
  {
    forall i | |a| <= i < |c|
      ensures FreshAt(c, i)
    {
      if i < |b| {
        assert FreshAt(b, i);
        assert c[i] == b[i] && c[..i] == b[..i];
      }
    }
  }

  /** Every endpoint of the edges in `sims` is an id of `cur`. */
  predicate Known(sims: seq<Edge>, cur: seq<Edge>)
  {
    forall k :: 0 <= k < |sims| ==> sims[k].source in Ids(cur) && sims[k].target in Ids(cur)
  }

  /** Nothing is left to link for `(e1, e2)` in `cur`. */
  predicate Blocked(v: Variant, e1: Edge, e2: Edge, cur: seq<Edge>)
  {
    var p := Propose(v, e1, e2);
    p.None? || SimLinked(cur, p.value.0, p.value.1)
  }

  /** The existence check and push of the inner loop body. */
  function Step(v: Variant, e1: Edge, e2: Edge, cur: seq<Edge>): (r: seq<Edge>)
    requires e1.source in Ids(cur) && e1.target in Ids(cur)
    requires e2.source in Ids(cur) && e2.target in Ids(cur)
    ensures cur <= r && Ids(r) == Ids(cur) && |r| <= |cur| + 1
    ensures forall i :: |cur| <= i < |r| ==>
              r[i].kind == Simultaneity && !SimLinked(cur, r[i].source, r[i].target)
  {
    var p := Propose(v, e1, e2);
    if p.Some? && !SimLinked(cur, p.value.0, p.value.1) then
      var x := Edge(p.value.0, p.value.1, Simultaneity);
      IdsAppend(cur, x);
      cur + [x]
    else cur
  }

  /** The inner `j` loop for a fixed `i`, from `j` on. */
  function Inner(v: Variant, sims: seq<Edge>, i: nat, j: nat, cur: seq<Edge>): (r: seq<Edge>)
    requires i < |sims| && j <= |sims| && Known(sims, cur)
    ensures cur <= r && Ids(r) == Ids(cur)
    ensures forall k :: |cur| <= k < |r| ==> r[k].kind == Simultaneity
    decreases |sims| - j
  {
    if j == |sims| then cur
    else
      var next := if i == j then cur else Step(v, sims[i], sims[j], cur);
      Inner(v, sims, i, j + 1, next)
  }

  /** The outer `i` loop of one round, from `i` on. */
  function Outer(v: Variant, sims: seq<Edge>, i: nat, cur: seq<Edge>): (r: seq<Edge>)
    requires i <= |sims| && Known(sims, cur)
    ensures cur <= r && Ids(r) == Ids(cur)
    ensures forall k :: |cur| <= k < |r| ==> r[k].kind == Simultaneity
    decreases |sims| - i
  {
    if i == |sims| then cur
    else Outer(v, sims, i + 1, Inner(v, sims, i, 0, cur))
  }

  /** The simultaneity edges of a list have their endpoints among its ids. */
  lemma SimsKnown(edges: seq<Edge>)
    ensures Known(Sims(edges), edges)
  {
    var sims := Sims(edges);
    forall k | 0 <= k < |sims| ensures sims[k].source in Ids(edges) && sims[k].target in Ids(edges)
    {
      assert sims[k] in sims;
    }
  }

  /** One pass of the `while (changed)` loop over a snapshot of the
      simultaneity edges. */
  function Round(v: Variant, cur: seq<Edge>): (r: seq<Edge>)
    ensures cur <= r && Ids(r) == Ids(cur)
    ensures forall k :: |cur| <= k < |r| ==> r[k].kind == Simultaneity
  {
    SimsKnown(cur);
    Outer(v, Sims(cur), 0, cur)
  }

  /** A step leaves the list alone exactly when its pair is blocked. */
  lemma StepBlocked(v: Variant, e1: Edge, e2: Edge, cur: seq<Edge>)
    requires e1.source in Ids(cur) && e1.target in Ids(cur)
    requires e2.source in Ids(cur) && e2.target in Ids(cur)
    ensures Step(v, e1, e2, cur) == cur <==> Blocked(v, e1, e2, cur)
  {
  }

  /** Each step appends at most one fresh simultaneity link. */
  lemma StepFresh(v: Variant, e1: Edge, e2: Edge, cur: seq<Edge>)
    requires e1.source in Ids(cur) && e1.target in Ids(cur)
    requires e2.source in Ids(cur) && e2.target in Ids(cur)
    ensures FreshLinks(cur, Step(v, e1, e2, cur))
  {
    var r := Step(v, e1, e2, cur);
    if r != cur {
      assert r[..|cur|] == cur;
    }
  }

  /** One iteration of the inner loop, named. */
  lemma InnerUnfold(v: Variant, sims: seq<Edge>, i: nat, j: nat, k: nat, cur: seq<Edge>) returns (next: seq<Edge>)
    requires i < |sims| && j < |sims| && k == j + 1 && Known(sims, cur)
    ensures Known(sims, next) && FreshLinks(cur, next)
    ensures next == if i == j then cur else Step(v, sims[i], sims[j], cur)
    ensures Inner(v, sims, i, j, cur) == Inner(v, sims, i, k, next)
  {
    next := cur;
    if i != j {
      next := Step(v, sims[i], sims[j], cur);
      StepFresh(v, sims[i], sims[j], cur);
    }
  }

  lemma {:induction false} InnerFresh(v: Variant, sims: seq<Edge>, i: nat, j: nat, cur: seq<Edge>)
    requires i < |sims| && j <= |sims| && Known(sims, cur)
    ensures FreshLinks(cur, Inner(v, sims, i, j, cur))
    decreases |sims| - j
  {
    if j < |sims| {
      var k := j + 1;
      var next := InnerUnfold(v, sims, i, j, k, cur);
      InnerFresh(v, sims, i, k, next);
      FreshLinksTrans(cur, next, Inner(v, sims, i, k, next));
    }
  }

  lemma {:induction false} OuterFresh(v: Variant, sims: seq<Edge>, i: nat, cur: seq<Edge>)
    requires i <= |sims| && Known(sims, cur)
    ensures FreshLinks(cur, Outer(v, sims, i, cur))
    decreases |sims| - i
  {
    if i < |sims| {
      var next := Inner(v, sims, i, 0, cur);
      InnerFresh(v, sims, i, 0, cur);
      OuterFresh(v, sims, i + 1, next);
      FreshLinksTrans(cur, next, Outer(v, sims, i + 1, next));
    }
  }

  /** A round appends only fresh simultaneity links. */
  lemma RoundFresh(v: Variant, cur: seq<Edge>)
    ensures FreshLinks(cur, Round(v, cur))
  {
    SimsKnown(cur);
    OuterFresh(v, Sims(cur), 0, cur);
  }

  /** A longer fresh extension over the same ids has strictly fewer
      unlinked pairs; any fresh extension has no more. */
  lemma FreshLinksShrink(cur: seq<Edge>, r: seq<Edge>)
    requires FreshLinks(cur, r) && Ids(r) == Ids(cur)
    ensures SimUnlinked(r) <= SimUnlinked(cur)
    ensures |r| > |cur| ==> SimUnlinked(r) < SimUnlinked(cur)
  {
    MeasuresMonotone(cur, r);
    if |r| > |cur| {
      var x := r[|cur|];
      assert FreshAt(r, |cur|);
      assert r[..|cur|] == cur;
      assert r[..|cur| + 1] == cur + [x];
      assert x.source in Ids(r) && x.target in Ids(r);
      SimUnlinkedShrinks(cur, x);
      IdsAppend(cur, x);
      MeasuresMonotone(cur + [x], r);
    }
  }

  /** The whole `while (changed)` loop: rounds until one adds nothing. */
  function Expand(v: Variant, edges: seq<Edge>): (r: seq<Edge>)
    ensures edges <= r && Ids(r) == Ids(edges)
    decreases SimUnlinked(edges)
  {
    var next := Round(v, edges);
    if |next| == |edges| then edges
    else
      RoundFresh(v, edges);
      FreshLinksShrink(edges, next);
      Expand(v, next)
  }

  /** The whole closure appends only fresh simultaneity links. */
  lemma {:induction false} ExpandFresh(v: Variant, edges: seq<Edge>)
    ensures FreshLinks(edges, Expand(v, edges))
    decreases SimUnlinked(edges)
  {
    var next := Round(v, edges);
    if |next| != |edges| {
      RoundFresh(v, edges);
      FreshLinksShrink(edges, next);
      ExpandFresh(v, next);
      FreshLinksTrans(edges, next, Expand(v, next));
    }
  }
}
