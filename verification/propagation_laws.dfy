/** What the runtime propagation guarantees beyond one step. Every arrow it
    pushes is propagated from at once, so on a board of simultaneity arrows
    an insertion keeps the undirected relation transitively closed; and
    every link it adds short-cuts a path of links already there, so it stays
    inside any closed relation that holds the links drawn. */
module PropagationLaws {
  import opened Edges
  import opened Graph
  import opened GraphLaws

  // ---------------------------------------------------------------------
  // Every pushed arrow is propagated from
  // ---------------------------------------------------------------------

  /** Position `i` of `r` has been propagated from: every simultaneity
      neighbour that either end had among the earlier arrows is connected,
      in `r`, to the other end. */
  ghost predicate Settled(r: seq<Edge>, i: nat)
    requires i < |r|
  {
    forall n ::
      && (n != r[i].target && SimLinked(r[..i], r[i].source, n) ==> Connected(r, r[i].target, n))
      && (n != r[i].source && SimLinked(r[..i], r[i].target, n) ==> Connected(r, r[i].source, n))
  }

  /** Every arrow appended after `base` has been propagated from. */
  ghost predicate SettledFrom(base: seq<Edge>, r: seq<Edge>)
  {
    base <= r && forall i :: |base| <= i < |r| ==> Settled(r, i)
  }

  lemma SettledGrows(r: seq<Edge>, more: seq<Edge>, i: nat)
    requires r <= more && i < |r| && Settled(r, i)
    ensures Settled(more, i)
  {
    assert more[..i] == r[..i] && more[i] == r[i];
    forall n
      ensures Connected(r, r[i].target, n) ==> Connected(more, r[i].target, n)
      ensures Connected(r, r[i].source, n) ==> Connected(more, r[i].source, n)
    {
      ConnectedGrows(r, more, r[i].target, n);
      ConnectedGrows(r, more, r[i].source, n);
    }
  }

  lemma SettledFromTrans(a: seq<Edge>, b: seq<Edge>, c: seq<Edge>)
    requires SettledFrom(a, b) && SettledFrom(b, c)
    ensures SettledFrom(a, c)
  {
    forall i | |a| <= i < |b| ensures Settled(c, i)
    {
      SettledGrows(b, c, i);
    }
  }

  /** The neighbour loop leaves every arrow it pushes propagated from. */
  lemma LinkAllSettles(edges: seq<Edge>, hub: string, ns: seq<string>)
    requires hub in Ids(edges) && hub !in ns
    requires forall n :: n in ns ==> n in Ids(edges)
    ensures SettledFrom(edges, LinkAll(edges, hub, ns))
    decreases Unconnected(edges), 0, |ns|
  {
    if ns == [] {
      assert LinkAll(edges, hub, ns) == edges;
    } else {
      var n := ns[0];
      var next := if Connected(edges, hub, n) then edges else LinkOne(edges, hub, n);
      if !Connected(edges, hub, n) {
        LinkOneSettles(edges, hub, n);
      }
      LinkAllSettles(next, hub, ns[1..]);
      SettledFromTrans(edges, next, LinkAll(next, hub, ns[1..]));
    }
  }

  /** Pushing `(hub, n)` and propagating from it settles the pushed arrow
      and everything the propagation pushes. */
  lemma LinkOneSettles(edges: seq<Edge>, hub: string, n: string)
    requires hub in Ids(edges) && n in Ids(edges) && hub != n
    requires !Connected(edges, hub, n)
    ensures SettledFrom(edges, LinkOne(edges, hub, n))
    decreases Unconnected(edges), 0, 0
  {
    var x := Edge(hub, n, Simultaneity);
    var pushed := edges + [x];
    UnconnectedShrinks(edges, x);
    IdsAppend(edges, x);
    PropagateSettles(pushed, hub, n);
    PushSettled(edges, hub, n, Propagate(pushed, hub, n));
  }

  /** An arrow pushed on `edges` and propagated from is settled, along
      with everything the propagation pushed. */
  lemma PushSettled(edges: seq<Edge>, s: string, t: string, r: seq<Edge>)
    requires SettledFrom(edges + [Edge(s, t, Simultaneity)], r)
    requires forall n :: n != t && SimLinked(edges + [Edge(s, t, Simultaneity)], s, n) ==> Connected(r, t, n)
    requires forall n :: n != s && SimLinked(edges + [Edge(s, t, Simultaneity)], t, n) ==> Connected(r, s, n)
    ensures SettledFrom(edges, r)
  {
    var pushed := edges + [Edge(s, t, Simultaneity)];
    assert r[..|edges|] == edges && r[|edges|] == Edge(s, t, Simultaneity);
    forall m
      ensures m != t && SimLinked(edges, s, m) ==> Connected(r, t, m)
      ensures m != s && SimLinked(edges, t, m) ==> Connected(r, s, m)
    {
      ConnectedGrows(edges, pushed, s, m);
      ConnectedGrows(edges, pushed, t, m);
    }
    assert Settled(r, |edges|);
  }

  /** `propagateSimultaneity` leaves every arrow it pushes propagated from. */
  lemma PropagateSettles(edges: seq<Edge>, a: string, b: string)
    requires a in Ids(edges) && b in Ids(edges)
    ensures SettledFrom(edges, Propagate(edges, a, b))
    decreases Unconnected(edges), 1, 0
  {
    var nA := SimNeighbours(edges, a, b);
    var nB := SimNeighbours(edges, b, a);
    var e1 := LinkAll(edges, b, nA);
    LinkAllSettles(edges, b, nA);
    LinkAllSettles(e1, a, nB);
    SettledFromTrans(edges, e1, LinkAll(e1, a, nB));
  }

  // ---------------------------------------------------------------------
  // Closed boards stay closed
  // ---------------------------------------------------------------------

  /** Of two simultaneity arrows sharing `b`, the later one was propagated
      from, so their far ends are linked. */
  lemma LaterLinks(base: seq<Edge>, r: seq<Edge>, i: nat, j: nat, a: string, b: string, c: string)
    requires SimClosed(base) && SettledFrom(base, r) && AllSim(r)
    requires i < j < |r| && r[i].kind == Simultaneity && Joins(r[i], a, b) && Joins(r[j], b, c) && a != c
    ensures SimLinked(r, a, c)
  {
    if j < |base| {
      assert base[i] == r[i] && base[j] == r[j];
      assert SimLinked(base, a, b);
      assert r[j] in r;
      assert SimLinked(base, b, c);
      ConnectedGrows(base, r, a, c);
    } else {
      assert Settled(r, j);
      assert r[..j][i] == r[i];
      assert SimLinked(r[..j], b, a);
      assert Connected(r, c, a);
      AllSimGuardsCoincide(r, c, a);
      LinkedSymmetric(r, c, a);
    }
  }

  /** A closed list extended only by settled simultaneity arrows is closed. */
  lemma SettledClosed(base: seq<Edge>, r: seq<Edge>)
    requires SimClosed(base) && SettledFrom(base, r) && AllSim(r)
    ensures SimClosed(r)
  {
    forall a, b, c | SimLinked(r, a, b) && SimLinked(r, b, c) && a != c
      ensures SimLinked(r, a, c)
    {
      var i :| 0 <= i < |r| && r[i].kind == Simultaneity && Joins(r[i], a, b);
      var j :| 0 <= j < |r| && r[j].kind == Simultaneity && Joins(r[j], b, c);
      if i < j {
        LaterLinks(base, r, i, j, a, b, c);
      } else if j < i {
        LaterLinks(base, r, j, i, c, b, a);
        LinkedSymmetric(r, c, a);
      }
    }
  }

  /** `addEdge(s, t, 'simultaneity')` on a board of simultaneity arrows
      whose relation is transitively closed leaves such a board. */
  lemma AddSimKeepsClosed(g: Graph, s: string, t: string)
    requires AllSim(g.edges) && SimClosed(g.edges)
    ensures AllSim(AddEdge(g, s, t, Simultaneity).edges)
    ensures SimClosed(AddEdge(g, s, t, Simultaneity).edges)
  {
    if !AlreadyThere(g, s, t, Simultaneity) {
      assert GetEdge(g.edges, s, t).None?;
      var x := Edge(s, t, Simultaneity);
      var pushed := g.edges + [x];
      FreshInsertion(g, s, t);
      var r := Propagate(pushed, s, t);
      PropagateSettles(pushed, s, t);
      PushSettled(g.edges, s, t, r);
      FreshSimsAllSim(pushed, r);
      SettledClosed(g.edges, r);
    }
  }

  /** Fresh simultaneity arrows appended to simultaneity arrows. */
  lemma FreshSimsAllSim(base: seq<Edge>, r: seq<Edge>)
    requires FreshSims(base, r) && AllSim(base)
    ensures AllSim(r)
  {
    forall e | e in r ensures e.kind == Simultaneity
    {
      var k :| 0 <= k < |r| && r[k] == e;
      if k < |base| {
        assert base[k] in base;
      }
    }
  }

  // ---------------------------------------------------------------------
  // Propagation adds only implied links
  // ---------------------------------------------------------------------

  /** The neighbour loop links `hub` only to ids that a closed `x` already
      links to it, given a pivot linked in `x` to the hub and to every
      listed neighbour. */
  lemma LinkAllWithin(x: seq<Edge>, edges: seq<Edge>, hub: string, ns: seq<string>, pivot: string)
    requires hub in Ids(edges) && hub !in ns
    requires forall n :: n in ns ==> n in Ids(edges)
    requires SimClosed(x) && LinksIn(edges, x)
    requires SimLinked(x, pivot, hub) && forall n :: n in ns ==> SimLinked(x, pivot, n)
    ensures LinksIn(LinkAll(edges, hub, ns), x)
    decreases Unconnected(edges), 0, |ns|
  {
    if ns != [] {
      var n := ns[0];
      var next := if Connected(edges, hub, n) then edges else LinkOne(edges, hub, n);
      if !Connected(edges, hub, n) {
        LinkedSymmetric(x, pivot, hub);
        assert SimLinked(x, hub, n);
        LinkOneWithin(x, edges, hub, n);
      }
      LinkAllWithin(x, next, hub, ns[1..], pivot);
    }
  }

  lemma LinkOneWithin(x: seq<Edge>, edges: seq<Edge>, hub: string, n: string)
    requires hub in Ids(edges) && n in Ids(edges) && hub != n
    requires !Connected(edges, hub, n)
    requires SimClosed(x) && LinksIn(edges, x) && SimLinked(x, hub, n)
    ensures LinksIn(LinkOne(edges, hub, n), x)
    decreases Unconnected(edges), 0, 0
  {
    var y := Edge(hub, n, Simultaneity);
    var pushed := edges + [y];
    UnconnectedShrinks(edges, y);
    IdsAppend(edges, y);
    LinksInPush(edges, y, x);
    assert Joins(pushed[|edges|], hub, n);
    PropagateWithin(x, pushed, hub, n);
  }

  /** Propagating from a linked pair adds only links a closed `x` holding
      the current links already has. */
  lemma PropagateWithin(x: seq<Edge>, edges: seq<Edge>, a: string, b: string)
    requires a in Ids(edges) && b in Ids(edges)
    requires SimClosed(x) && LinksIn(edges, x) && SimLinked(edges, a, b)
    ensures LinksIn(Propagate(edges, a, b), x)
    decreases Unconnected(edges), 1, 0
  {
    var nA := SimNeighbours(edges, a, b);
    var nB := SimNeighbours(edges, b, a);
    LinkAllWithin(x, edges, b, nA, a);
    var e1 := LinkAll(edges, b, nA);
    LinkedSymmetric(x, a, b);
    LinkAllWithin(x, e1, a, nB, b);
  }

  /** `addEdge(s, t, 'simultaneity')` adds only links that any closed
      relation holding the board's links and `s–t` already has. */
  lemma AddSimWithin(x: seq<Edge>, g: Graph, s: string, t: string)
    requires SimClosed(x) && LinksIn(g.edges, x) && SimLinked(x, s, t)
    ensures LinksIn(AddEdge(g, s, t, Simultaneity).edges, x)
  {
    if !AlreadyThere(g, s, t, Simultaneity) {
      var y := Edge(s, t, Simultaneity);
      var base := if GetEdge(g.edges, s, t).Some? then WithoutPair(g.edges, s, t) else g.edges;
      var pushed := base + [y];
      assert pushed[|base|] == y;
      assert LinksIn(base, x) by {
        forall a, b | SimLinked(base, a, b) ensures SimLinked(x, a, b)
        {
          var i :| 0 <= i < |base| && base[i].kind == Simultaneity && Joins(base[i], a, b);
          assert base[i] in g.edges;
          var k :| 0 <= k < |g.edges| && g.edges[k] == base[i];
          assert SimLinked(g.edges, a, b);
        }
      }
      LinksInPush(base, y, x);
      assert Joins(pushed[|base|], s, t);
      assert AddEdge(g, s, t, Simultaneity).edges == Propagate(pushed, s, t);
      PropagateWithin(x, pushed, s, t);
    }
  }

  /** `addEdge(s, t, 'simultaneity')` keeps every link of the board and
      links `s` with `t`. */
  lemma AddSimKeepsLinks(g: Graph, s: string, t: string)
    ensures LinksIn(g.edges, AddEdge(g, s, t, Simultaneity).edges)
    ensures SimLinked(AddEdge(g, s, t, Simultaneity).edges, s, t)
  {
    var r := AddEdge(g, s, t, Simultaneity).edges;
    var k :| 0 <= k < |r| && r[k] == Edge(s, t, Simultaneity);
    assert Joins(r[k], s, t);
    forall a, b | SimLinked(g.edges, a, b) ensures SimLinked(r, a, b)
    {
      var i :| 0 <= i < |g.edges| && g.edges[i].kind == Simultaneity && Joins(g.edges[i], a, b);
      var e := g.edges[i];
      if e.source == s && e.target == t {
        assert Joins(r[k], a, b);
      } else {
        assert e in r;
        var j :| 0 <= j < |r| && r[j] == e;
      }
    }
  }

  // ---------------------------------------------------------------------
  // Drawing a list of simultaneity links
  // ---------------------------------------------------------------------

  /** The player's moves that draw each pair of `q`, in order, as a
      simultaneity arrow. */
  function SimOps(q: seq<Edge>): (ops: seq<Op>)
    ensures |ops| == |q|
    ensures forall k :: 0 <= k < |q| ==> ops[k] == AddEdgeOp(q[k].source, q[k].target, Simultaneity)
  {
    if q == [] then [] else [AddEdgeOp(q[0].source, q[0].target, Simultaneity)] + SimOps(q[1..])
  }

  /** The board after drawing `q` from `g`. */
  function Draw(g: Graph, q: seq<Edge>): Graph
  {
    Run(g, SimOps(q))
  }

  lemma DrawUnfold(g: Graph, q: seq<Edge>)
    requires q != []
    ensures Draw(g, q) == Draw(AddEdge(g, q[0].source, q[0].target, Simultaneity), q[1..])
  {
    assert SimOps(q)[1..] == SimOps(q[1..]);
  }

  /** Drawing simultaneity arrows on a closed board of simultaneity arrows
      leaves a closed board of simultaneity arrows. */
  lemma {:induction false} DrawClosed(g: Graph, q: seq<Edge>)
    requires AllSim(g.edges) && SimClosed(g.edges)
    ensures AllSim(Draw(g, q).edges) && SimClosed(Draw(g, q).edges)
    decreases |q|
  {
    if q != [] {
      AddSimKeepsClosed(g, q[0].source, q[0].target);
      DrawUnfold(g, q);
      DrawClosed(AddEdge(g, q[0].source, q[0].target, Simultaneity), q[1..]);
    }
  }

  /** The drawn board keeps the links it started with and links every
      drawn pair. */
  lemma {:induction false} DrawKeepsLinks(g: Graph, q: seq<Edge>)
    ensures LinksIn(g.edges, Draw(g, q).edges)
    ensures forall k :: 0 <= k < |q| ==> SimLinked(Draw(g, q).edges, q[k].source, q[k].target)
    decreases |q|
  {
    if q != [] {
      var g1 := AddEdge(g, q[0].source, q[0].target, Simultaneity);
      AddSimKeepsLinks(g, q[0].source, q[0].target);
      DrawUnfold(g, q);
      DrawKeepsLinks(g1, q[1..]);
      var r := Draw(g, q).edges;
      assert SimLinked(r, q[0].source, q[0].target);
      forall k | 1 <= k < |q| ensures SimLinked(r, q[k].source, q[k].target)
      {
        assert q[1..][k - 1] == q[k];
      }
    }
  }

  /** The drawn board holds no link outside a closed relation that holds
      the starting links and every drawn pair. */
  lemma {:induction false} DrawWithin(x: seq<Edge>, g: Graph, q: seq<Edge>)
    requires SimClosed(x) && LinksIn(g.edges, x)
    requires forall k :: 0 <= k < |q| ==> SimLinked(x, q[k].source, q[k].target)
    ensures LinksIn(Draw(g, q).edges, x)
    decreases |q|
  {
    if q != [] {
      AddSimWithin(x, g, q[0].source, q[0].target);
      DrawUnfold(g, q);
      forall k | 0 <= k < |q[1..]| ensures SimLinked(x, q[1..][k].source, q[1..][k].target)
      {
        assert q[1..][k] == q[k + 1];
      }
      DrawWithin(x, AddEdge(g, q[0].source, q[0].target, Simultaneity), q[1..]);
    }
  }
}
