/** Shared vocabulary of the relation graph: option values, relation types,
    directed edges, and the connection predicates that the runtime graph and
    the offline closure scripts are stated in. */
module Edges {

  datatype Option<T> = None | Some(value: T)

  /** The closed set of arrow types a player can draw. */
  datatype Relation = Sequence | Consequence | Simultaneity

  /** The string a relation is stored and serialised under. */
  function RelationName(r: Relation): string
  {
    match r
    case Sequence => "sequence"
    case Consequence => "consequence"
    case Simultaneity => "simultaneity"
  }

  /** A directed, typed edge `{source, target, type}`. */
  datatype Edge = Edge(source: string, target: string, kind: Relation)

  /** True when `e` joins `a` and `b`, in either direction. */
  predicate Joins(e: Edge, a: string, b: string)
  {
    (e.source == a && e.target == b) || (e.source == b && e.target == a)
  }

  /** Direction-agnostic existence of an edge of any type between `a` and `b`
      (the runtime graph's `hasAnyConnection`). */
  predicate Connected(edges: seq<Edge>, a: string, b: string)
  {
    exists i :: 0 <= i < |edges| && Joins(edges[i], a, b)
  }

  /** Direction-agnostic existence of a simultaneity edge between `a` and `b`
      (the existence check of the offline scripts). */
  predicate SimLinked(edges: seq<Edge>, a: string, b: string)
  {
    exists i :: 0 <= i < |edges| && edges[i].kind == Simultaneity && Joins(edges[i], a, b)
  }

  /** Existence of an edge on the exact ordered pair `(s, t)`. */
  predicate HasDirected(edges: seq<Edge>, s: string, t: string)
  {
    exists i :: 0 <= i < |edges| && edges[i].source == s && edges[i].target == t
  }

  /** Every id that occurs as an endpoint of some edge. */
  function Ids(edges: seq<Edge>): set<string>
  {
    (set i | 0 <= i < |edges| :: edges[i].source) + (set i | 0 <= i < |edges| :: edges[i].target)
  }

  /** Both endpoints of every edge are ids of the list. */
  lemma IdsHas(edges: seq<Edge>, i: nat)
    requires i < |edges|
    ensures edges[i].source in Ids(edges) && edges[i].target in Ids(edges)
  {
  }

  /** The storage invariant: at most one edge per ordered (source, target) pair. */
  predicate UniquePairs(edges: seq<Edge>)
  {
    forall i, j :: 0 <= i < j < |edges| ==>
      edges[i].source != edges[j].source || edges[i].target != edges[j].target
  }

  /** The ordered id pairs, drawn from the ids of `edges`, that no edge of any
      type connects; the measure that bounds runtime propagation. */
  function Unconnected(edges: seq<Edge>): set<(string, string)>
  {
    set a, b | a in Ids(edges) && b in Ids(edges) && !Connected(edges, a, b) :: (a, b)
  }

  /** The ordered id pairs, drawn from the ids of `edges`, that no
      simultaneity edge links; the measure that bounds the offline closure. */
  function SimUnlinked(edges: seq<Edge>): set<(string, string)>
  {
    set a, b | a in Ids(edges) && b in Ids(edges) && !SimLinked(edges, a, b) :: (a, b)
  }

  /** The undirected simultaneity relation is transitively closed. */
  ghost predicate SimClosed(edges: seq<Edge>)
  {
    forall a, b, c :: SimLinked(edges, a, b) && SimLinked(edges, b, c) && a != c ==> SimLinked(edges, a, c)
  }

  /** Appending an edge whose endpoints are already known keeps the id set. */
  lemma IdsAppend(edges: seq<Edge>, e: Edge)
    requires e.source in Ids(edges) && e.target in Ids(edges)
    ensures Ids(edges + [e]) == Ids(edges)
  {
    var r := edges + [e];
    forall x | x in Ids(r) ensures x in Ids(edges)
    {
      var i :| 0 <= i < |r| && (r[i].source == x || r[i].target == x);
      if i < |edges| {
        assert r[i] == edges[i];
      }
    }
    forall x | x in Ids(edges) ensures x in Ids(r)
    {
      var i :| 0 <= i < |edges| && (edges[i].source == x || edges[i].target == x);
      assert r[i] == edges[i];
    }
  }

  /** Growing the edge list never disconnects a pair. */
  lemma ConnectedGrows(edges: seq<Edge>, more: seq<Edge>, a: string, b: string)
    requires edges <= more
    ensures Connected(edges, a, b) ==> Connected(more, a, b)
    ensures SimLinked(edges, a, b) ==> SimLinked(more, a, b)
  {
    if Connected(edges, a, b) {
      var i :| 0 <= i < |edges| && Joins(edges[i], a, b);
      assert more[i] == edges[i];
    }
    if SimLinked(edges, a, b) {
      var i :| 0 <= i < |edges| && edges[i].kind == Simultaneity && Joins(edges[i], a, b);
      assert more[i] == edges[i];
    }
  }

  /** Appending an edge on a pair that had no connection, over the same ids,
      strictly shrinks the runtime measure. */
  lemma UnconnectedShrinks(edges: seq<Edge>, e: Edge)
    requires e.source in Ids(edges) && e.target in Ids(edges)
    requires !Connected(edges, e.source, e.target)
    ensures Unconnected(edges + [e]) < Unconnected(edges)
  {
    var r := edges + [e];
    IdsAppend(edges, e);
    forall p | p in Unconnected(r) ensures p in Unconnected(edges)
    {
      ConnectedGrows(edges, r, p.0, p.1);
    }
    assert Joins(r[|edges|], e.source, e.target);
    assert (e.source, e.target) !in Unconnected(r);
  }

  /** Appending a simultaneity edge on a pair with no simultaneity link, over
      the same ids, strictly shrinks the offline measure. */
  lemma SimUnlinkedShrinks(edges: seq<Edge>, e: Edge)
    requires e.source in Ids(edges) && e.target in Ids(edges)
    requires e.kind == Simultaneity && !SimLinked(edges, e.source, e.target)
    ensures SimUnlinked(edges + [e]) < SimUnlinked(edges)
  {
    var r := edges + [e];
    IdsAppend(edges, e);
    forall p | p in SimUnlinked(r) ensures p in SimUnlinked(edges)
    {
      ConnectedGrows(edges, r, p.0, p.1);
    }
    assert r[|edges|].kind == Simultaneity && Joins(r[|edges|], e.source, e.target);
    assert (e.source, e.target) !in SimUnlinked(r);
  }

  /** Extending an edge list over the same ids never grows either measure. */
  lemma MeasuresMonotone(edges: seq<Edge>, more: seq<Edge>)
    requires edges <= more && Ids(more) == Ids(edges)
    ensures Unconnected(more) <= Unconnected(edges)
    ensures SimUnlinked(more) <= SimUnlinked(edges)
  {
    forall p | p in Unconnected(more) ensures p in Unconnected(edges)
    {
      ConnectedGrows(edges, more, p.0, p.1);
    }
    forall p | p in SimUnlinked(more) ensures p in SimUnlinked(edges)
    {
      ConnectedGrows(edges, more, p.0, p.1);
    }
  }
  /** Every arrow of the list is a simultaneity arrow. */
  predicate AllSim(edges: seq<Edge>)
  {
    forall e :: e in edges ==> e.kind == Simultaneity
  }

  /** Every simultaneity link of `e` is also a link of `x`, in either
      direction: the undirected relation of `e` is contained in that of `x`. */
  ghost predicate LinksIn(e: seq<Edge>, x: seq<Edge>)
  {
    forall a, b :: SimLinked(e, a, b) ==> SimLinked(x, a, b)
  }

  /** The simultaneity relation is symmetric. */
  lemma LinkedSymmetric(edges: seq<Edge>, a: string, b: string)
    requires SimLinked(edges, a, b)
    ensures SimLinked(edges, b, a)
  {
    var i :| 0 <= i < |edges| && edges[i].kind == Simultaneity && Joins(edges[i], a, b);
    assert Joins(edges[i], b, a);
  }

  /** On a list of simultaneity arrows the runtime's any-type check and the
      scripts' simultaneity check coincide. */
  lemma AllSimGuardsCoincide(edges: seq<Edge>, a: string, b: string)
    requires AllSim(edges)
    ensures Connected(edges, a, b) <==> SimLinked(edges, a, b)
  {
    if Connected(edges, a, b) {
      var i :| 0 <= i < |edges| && Joins(edges[i], a, b);
      assert edges[i] in edges;
    }
  }

  /** Pushing an arrow keeps the containment when the arrow is not a
      simultaneity arrow or its pair is already linked in `x`. */
  lemma LinksInPush(e: seq<Edge>, y: Edge, x: seq<Edge>)
    requires LinksIn(e, x)
    requires y.kind == Simultaneity ==> SimLinked(x, y.source, y.target)
    ensures LinksIn(e + [y], x)
  {
    var r := e + [y];
    forall a, b | SimLinked(r, a, b) ensures SimLinked(x, a, b)
    {
      var i :| 0 <= i < |r| && r[i].kind == Simultaneity && Joins(r[i], a, b);
      if i < |e| {
        assert e[i] == r[i];
      } else if y.source == a {
        assert y.target == b;
      } else {
        LinkedSymmetric(x, y.source, y.target);
      }
    }
  }
}
