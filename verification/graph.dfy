/** The runtime relation graph: active and archived node maps, the directed
    edge list, edge insertion with overwrite-by-exact-pair, and the recursive
    simultaneity auto-link. Subscriber notification is modelled as a counter
    of `notify` calls. */
module Graph {
  import opened Edges

  /** A clue card. Positions are kept as integers; the board works in pixels. */
  datatype Node = Node(id: string, text: string, kind: string, x: int, y: int)

  datatype Graph = Graph(
    nodes: map<string, Node>,
    binned: map<string, Node>,
    edges: seq<Edge>,
    notifications: nat)

  /** A fresh graph as built by the constructor. */
  function Empty(): (g: Graph)
    ensures g.nodes == map[] && g.binned == map[] && g.edges == [] && g.notifications == 0
  {
    Graph(map[], map[], [], 0)
  }

  // ---------------------------------------------------------------------
  // Edge-list helpers
  // ---------------------------------------------------------------------

  /** The order-preserving filter behind `edges.filter(...)`. */
  function FilterEdges(edges: seq<Edge>, keep: Edge -> bool): (r: seq<Edge>)
    ensures forall e: Edge :: e in r <==> e in edges && keep(e)
    ensures |r| <= |edges|
  {
    if edges == [] then []
    else if keep(edges[0]) then [edges[0]] + FilterEdges(edges[1..], keep)
    else FilterEdges(edges[1..], keep)
  }

  /** Filtering a concatenation filters each part in place: the relative
      order of the edges that survive is kept. */
  lemma {:induction false} FilterEdgesAppend(a: seq<Edge>, b: seq<Edge>, keep: Edge -> bool)
    ensures FilterEdges(a + b, keep) == FilterEdges(a, keep) + FilterEdges(b, keep)
  {
    if a == [] {
      assert a + b == b;
    } else {
      assert (a + b)[0] == a[0];
      assert (a + b)[1..] == a[1..] + b;
      FilterEdgesAppend(a[1..], b, keep);
    }
  }

  /** A filter that keeps every edge changes nothing. */
  lemma {:induction false} FilterEdgesKeepsAll(edges: seq<Edge>, keep: Edge -> bool)
    requires forall e: Edge :: e in edges ==> keep(e)
    ensures FilterEdges(edges, keep) == edges
  {
    if edges != [] {
      assert forall e: Edge :: e in edges[1..] ==> e in edges;
      FilterEdgesKeepsAll(edges[1..], keep);
    }
  }

  /** Filtering a list without repeated ordered pairs leaves none. */
  lemma {:induction false} FilterEdgesUnique(edges: seq<Edge>, keep: Edge -> bool)
    ensures UniquePairs(edges) ==> UniquePairs(FilterEdges(edges, keep))
  {
    if edges != [] && UniquePairs(edges) {
      var rest := edges[1..];
      assert UniquePairs(rest) by {
        forall i, j | 0 <= i < j < |rest|
          ensures rest[i].source != rest[j].source || rest[i].target != rest[j].target
        {
          assert rest[i] == edges[i + 1] && rest[j] == edges[j + 1];
        }
      }
      FilterEdgesUnique(rest, keep);
      if keep(edges[0]) {
        var r := [edges[0]] + FilterEdges(rest, keep);
        forall i, j | 0 <= i < j < |r|
          ensures r[i].source != r[j].source || r[i].target != r[j].target
        {
          if i == 0 {
            assert r[j] in rest;
            var k :| 0 <= k < |rest| && rest[k] == r[j];
            assert edges[k + 1] == r[j];
          }
        }
      }
    }
  }

  /** `getEdge`: the first edge on the exact ordered pair `(s, t)`. */
  function GetEdge(edges: seq<Edge>, s: string, t: string): (r: Option<Edge>)
    ensures r.None? <==> !HasDirected(edges, s, t)
    ensures r.Some? ==> r.value.source == s && r.value.target == t && r.value in edges
    ensures r.Some? && UniquePairs(edges) ==>
      forall i :: 0 <= i < |edges| && edges[i].source == s && edges[i].target == t ==> edges[i] == r.value
  {
    if edges == [] then None
    else if edges[0].source == s && edges[0].target == t then Some(edges[0])
    else
      var r := GetEdge(edges[1..], s, t);
      assert HasDirected(edges, s, t) ==> HasDirected(edges[1..], s, t) by {
        if HasDirected(edges, s, t) {
          var i :| 0 <= i < |edges| && edges[i].source == s && edges[i].target == t;
          assert edges[1..][i - 1] == edges[i];
        }
      }
      assert HasDirected(edges[1..], s, t) ==> HasDirected(edges, s, t) by {
        if HasDirected(edges[1..], s, t) {
          var i :| 0 <= i < |edges[1..]| && edges[1..][i].source == s && edges[1..][i].target == t;
          assert edges[i + 1] == edges[1..][i];
        }
      }
      r
  }

  /** The edges that `removeEdge(s, t)` keeps. */
  function WithoutPair(edges: seq<Edge>, s: string, t: string): (r: seq<Edge>)
    ensures forall e: Edge :: e in r <==> e in edges && !(e.source == s && e.target == t)
    ensures !HasDirected(r, s, t)
    ensures UniquePairs(edges) ==> UniquePairs(r)
  {
    var r := FilterEdges(edges, (e: Edge) => !(e.source == s && e.target == t));
    FilterEdgesUnique(edges, (e: Edge) => !(e.source == s && e.target == t));
    assert forall i :: 0 <= i < |r| ==> r[i] in r;
    r
  }

  /** The edges that `binNode(id)` keeps: none incident to `id`. */
  function WithoutNode(edges: seq<Edge>, id: string): (r: seq<Edge>)
    ensures forall e: Edge :: e in r <==> e in edges && e.source != id && e.target != id
    ensures id !in Ids(r)
  {
    var r := FilterEdges(edges, (e: Edge) => e.source != id && e.target != id);
    assert forall i :: 0 <= i < |r| ==> r[i] in r;
    r
  }

  // ---------------------------------------------------------------------
  // Simultaneity propagation
  // ---------------------------------------------------------------------

  /** The far end of `e` as seen from `a`. */
  function Other(e: Edge, a: string): string
  {
    if e.source == a then e.target else e.source
  }

  /** The simultaneity neighbours of `a` other than `b`, in edge order, with
      repetitions. */
  function SimNeighbours(edges: seq<Edge>, a: string, b: string): (ns: seq<string>)
    ensures forall n :: n in ns <==> n != b && SimLinked(edges, a, n)
    ensures forall n :: n in ns ==> n in Ids(edges)
  {
    if edges == [] then []
    else
      var e := edges[0];
      var rest := SimNeighbours(edges[1..], a, b);
      assert forall n :: SimLinked(edges, a, n) <==>
          (e.kind == Simultaneity && Joins(e, a, n)) || SimLinked(edges[1..], a, n) by {
        forall n ensures SimLinked(edges, a, n) <==>
            (e.kind == Simultaneity && Joins(e, a, n)) || SimLinked(edges[1..], a, n)
        {
          if SimLinked(edges, a, n) {
            var i :| 0 <= i < |edges| && edges[i].kind == Simultaneity && Joins(edges[i], a, n);
            if i > 0 {
              assert edges[1..][i - 1] == edges[i];
            }
          }
          if SimLinked(edges[1..], a, n) {
            var i :| 0 <= i < |edges[1..]| && edges[1..][i].kind == Simultaneity && Joins(edges[1..][i], a, n);
            assert edges[i + 1] == edges[1..][i];
          }
        }
      }
      if e.kind == Simultaneity && (e.source == a || e.target == a) && Other(e, a) != b then
        [Other(e, a)] + rest
      else
        rest
  }

  /** The ordered pairs carried by the edges appended after `base`: each is a
      simultaneity edge between two distinct ids that no edge of any type
      connected when it was pushed. */
  ghost predicate FreshSims(base: seq<Edge>, r: seq<Edge>)
  {
    && base <= r
    && forall i :: |base| <= i < |r| ==>
         && r[i].kind == Simultaneity
         && r[i].source != r[i].target
         && !Connected(r[..i], r[i].source, r[i].target)
  }

  lemma FreshSimsRefl(e: seq<Edge>)
    ensures FreshSims(e, e)
  {
  }

  lemma FreshSimsPush(e: seq<Edge>, x: Edge)
    requires x.kind == Simultaneity && x.source != x.target && !Connected(e, x.source, x.target)
    ensures FreshSims(e, e + [x])
  {
    assert (e + [x])[..|e|] == e;
  }

  lemma FreshSimsTrans(a: seq<Edge>, b: seq<Edge>, c: seq<Edge>)
    requires FreshSims(a, b) && FreshSims(b, c)
    ensures FreshSims(a, c)
  {
    forall i | |a| <= i < |b|
      ensures c[i] == b[i] && c[..i] == b[..i]
    {
    }
  }

  /** Appending fresh simultaneity edges keeps one edge per ordered pair. */
  lemma FreshSimsKeepUnique(base: seq<Edge>, r: seq<Edge>)
    requires FreshSims(base, r) && UniquePairs(base)
    ensures UniquePairs(r)
  {
    forall i, j | 0 <= i < j < |r|
      ensures r[i].source != r[j].source || r[i].target != r[j].target
    {
      if j >= |base| {
        assert r[..j][i] == r[i];
        if r[i].source == r[j].source && r[i].target == r[j].target {
          assert Joins(r[..j][i], r[j].source, r[j].target);
        }
      } else {
        assert r[i] == base[i] && r[j] == base[j];
      }
    }
  }

  /** The neighbour-linking loop of `propagateSimultaneity`: for each `n` in
      `ns`, when `hub` and `n` are not connected in either direction by an
      edge of any type, push `(hub, n)` and propagate from that pair. */
  function LinkAll(edges: seq<Edge>, hub: string, ns: seq<string>): (r: seq<Edge>)
    requires hub in Ids(edges) && hub !in ns
    requires forall n :: n in ns ==> n in Ids(edges)
    ensures FreshSims(edges, r)
    ensures Ids(r) == Ids(edges)
    ensures Unconnected(r) <= Unconnected(edges)
    ensures forall n :: n in ns ==> Connected(r, hub, n)
    decreases Unconnected(edges), 0, |ns|
  {
    if ns == [] then
      FreshSimsRefl(edges);
      edges
    else
      var n := ns[0];
      var next := if Connected(edges, hub, n) then (FreshSimsRefl(edges); edges) else LinkOne(edges, hub, n);
      assert Connected(next, hub, n) by {
        ConnectedGrows(edges, next, hub, n);
      }
      var r := LinkAll(next, hub, ns[1..]);
      FreshSimsTrans(edges, next, r);
      ConnectedGrows(next, r, hub, n);
      forall m | m in ns ensures Connected(r, hub, m)
      {
        if m != n {
          assert m in ns[1..];
        }
      }
      r
  }

  /** One step of that loop on a pair known to be unconnected: push
      `(hub, n)` as a simultaneity edge and propagate from it. */
  function LinkOne(edges: seq<Edge>, hub: string, n: string): (r: seq<Edge>)
    requires hub in Ids(edges) && n in Ids(edges) && hub != n
    requires !Connected(edges, hub, n)
    ensures FreshSims(edges, r)
    ensures Ids(r) == Ids(edges)
    ensures Unconnected(r) < Unconnected(edges)
    ensures Connected(r, hub, n)
    decreases Unconnected(edges), 0, 0
  {
    var x := Edge(hub, n, Simultaneity);
    UnconnectedShrinks(edges, x);
    IdsAppend(edges, x);
    FreshSimsPush(edges, x);
    var p := Propagate(edges + [x], hub, n);
    FreshSimsTrans(edges, edges + [x], p);
    assert Connected(edges + [x], hub, n) by {
      assert Joins((edges + [x])[|edges|], hub, n);
    }
    ConnectedGrows(edges + [x], p, hub, n);
    p
  }

  /** `propagateSimultaneity(a, b)`: links `b` to every simultaneity
      neighbour of `a` and `a` to every simultaneity neighbour of `b`, both
      neighbour lists being taken before any link is added. */
  function Propagate(edges: seq<Edge>, a: string, b: string): (r: seq<Edge>)
    requires a in Ids(edges) && b in Ids(edges)
    ensures FreshSims(edges, r)
    ensures Ids(r) == Ids(edges)
    ensures Unconnected(r) <= Unconnected(edges)
    ensures forall n :: n != b && SimLinked(edges, a, n) ==> Connected(r, b, n)
    ensures forall n :: n != a && SimLinked(edges, b, n) ==> Connected(r, a, n)
    decreases Unconnected(edges), 1, 0
  {
    var nA := SimNeighbours(edges, a, b);
    var nB := SimNeighbours(edges, b, a);
    var e1 := LinkAll(edges, b, nA);
    var r := LinkAll(e1, a, nB);
    FreshSimsTrans(edges, e1, r);
    forall n | n != b && SimLinked(edges, a, n) ensures Connected(r, b, n)
    {
      ConnectedGrows(e1, r, b, n);
    }
    r
  }

  // ---------------------------------------------------------------------
  // Graph operations
  // ---------------------------------------------------------------------

  /** `clear`: empties both node maps and the edge list, and notifies. */
  function Clear(g: Graph): (r: Graph)
    ensures r.nodes == map[] && r.binned == map[] && r.edges == []
    ensures r.notifications == g.notifications + 1
  {
    Graph(map[], map[], [], g.notifications + 1)
  }

  /** `addNode`: inserts or overwrites the active record under its id;
      nothing is notified. */
  function AddNode(g: Graph, n: Node): (r: Graph)
    ensures n.id in r.nodes && r.nodes[n.id] == n
    ensures forall id :: id != n.id ==> (id in r.nodes <==> id in g.nodes)
    ensures forall id :: id != n.id && id in g.nodes ==> r.nodes[id] == g.nodes[id]
    ensures r.binned == g.binned && r.edges == g.edges && r.notifications == g.notifications
  {
    g.(nodes := g.nodes[n.id := n])
  }

  /** `hasAnyConnection`. */
  function HasAnyConnection(g: Graph, a: string, b: string): (r: bool)
    ensures r <==> Connected(g.edges, a, b)
    ensures r <==> Connected(g.edges, b, a)
  {
    exists i :: 0 <= i < |g.edges| && Joins(g.edges[i], a, b)
  }

  /** `removeEdge`: drops every edge on the exact pair `(s, t)`, keeps all
      others in order, and notifies. */
  function RemoveEdge(g: Graph, s: string, t: string): (r: Graph)
    ensures forall e: Edge :: e in r.edges <==> e in g.edges && !(e.source == s && e.target == t)
    ensures !HasDirected(r.edges, s, t)
    ensures !HasDirected(g.edges, s, t) ==> r.edges == g.edges
    ensures r.nodes == g.nodes && r.binned == g.binned
    ensures r.notifications == g.notifications + 1
  {
    assert !HasDirected(g.edges, s, t) ==> WithoutPair(g.edges, s, t) == g.edges by {
      if !HasDirected(g.edges, s, t) {
        FilterEdgesKeepsAll(g.edges, (e: Edge) => !(e.source == s && e.target == t));
      }
    }
    g.(edges := WithoutPair(g.edges, s, t), notifications := g.notifications + 1)
  }

  /** `addEdge` returns early, without notifying, when `(s, t)` already
      carries an edge of the requested type. */
  predicate AlreadyThere(g: Graph, s: string, t: string, kind: Relation)
  {
    GetEdge(g.edges, s, t).Some? && GetEdge(g.edges, s, t).value.kind == kind
  }

  /** `addEdge(s, t, kind)`. */
  function AddEdge(g: Graph, s: string, t: string, kind: Relation): (r: Graph)
    // an identical edge already on (s, t): nothing changes, nothing is notified
    ensures AlreadyThere(g, s, t, kind) ==> r == g
    // otherwise one notification, plus one more for the overwritten edge
    ensures GetEdge(g.edges, s, t).None? ==> r.notifications == g.notifications + 1
    ensures (GetEdge(g.edges, s, t).Some? && GetEdge(g.edges, s, t).value.kind != kind) ==>
              r.notifications == g.notifications + 2
    // the storage invariant is kept
    ensures UniquePairs(g.edges) ==> UniquePairs(r.edges)
    // afterwards (s, t) carries the requested type
    ensures Edge(s, t, kind) in r.edges
    ensures UniquePairs(g.edges) ==> GetEdge(r.edges, s, t) == Some(Edge(s, t, kind))
    // no edge off (s, t) is lost; the reverse direction is untouched
    ensures forall e: Edge :: e in g.edges && !(e.source == s && e.target == t) ==> e in r.edges
    ensures s != t ==> forall e: Edge :: e.source == t && e.target == s ==> (e in r.edges <==> e in g.edges)
    // only (s, t) itself and fresh simultaneity edges are new
    ensures forall e: Edge :: e in r.edges && e !in g.edges ==>
              e == Edge(s, t, kind) || (kind == Simultaneity && e.kind == Simultaneity)
    ensures kind != Simultaneity ==> forall e: Edge :: e in r.edges ==> e in g.edges || e == Edge(s, t, kind)
    // the auto-link: prior simultaneity neighbours of each end reach the other end
    ensures kind == Simultaneity && !AlreadyThere(g, s, t, kind) ==>
              forall n :: n != t && SimLinked(g.edges, s, n) ==> Connected(r.edges, t, n)
    ensures kind == Simultaneity && !AlreadyThere(g, s, t, kind) ==>
              forall n :: n != s && SimLinked(g.edges, t, n) ==> Connected(r.edges, s, n)
    ensures r.nodes == g.nodes && r.binned == g.binned
  {
    if AlreadyThere(g, s, t, kind) then g else Overwrite(g, s, t, kind)
  }

  /** The part of `addEdge` past the early return: drop the edge on
      `(s, t)` if any (notifying), push the new one, propagate when it is a
      simultaneity edge, and notify. */
  function Overwrite(g: Graph, s: string, t: string, kind: Relation): (r: Graph)
    requires !AlreadyThere(g, s, t, kind)
    ensures r.notifications == g.notifications + (if GetEdge(g.edges, s, t).Some? then 2 else 1)
    ensures UniquePairs(g.edges) ==> UniquePairs(r.edges) && GetEdge(r.edges, s, t) == Some(Edge(s, t, kind))
    ensures Edge(s, t, kind) in r.edges
    ensures forall e: Edge :: e in g.edges && !(e.source == s && e.target == t) ==> e in r.edges
    ensures forall e: Edge :: e in r.edges && e !in g.edges ==>
              e == Edge(s, t, kind) || (e.kind == Simultaneity && !Joins(e, s, t) && kind == Simultaneity)
    ensures kind == Simultaneity ==>
              forall n :: n != t && SimLinked(g.edges, s, n) ==> Connected(r.edges, t, n)
    ensures kind == Simultaneity ==>
              forall n :: n != s && SimLinked(g.edges, t, n) ==> Connected(r.edges, s, n)
    ensures r.nodes == g.nodes && r.binned == g.binned
  {
    var existing := GetEdge(g.edges, s, t);
    var base := if existing.Some? then WithoutPair(g.edges, s, t) else g.edges;
    var notes := if existing.Some? then g.notifications + 1 else g.notifications;
    var x := Edge(s, t, kind);
    var pushed := base + [x];
    assert pushed[|base|] == x;
    var final := if kind == Simultaneity then Propagate(pushed, s, t) else (FreshSimsRefl(pushed); pushed);
    PushedKept(base, x, pushed, final);
    UniqueAfterAdd(g.edges, base, x, pushed, final);
    NeighboursSurvive(g.edges, base, x, pushed);
    Graph(g.nodes, g.binned, final, notes + 1)
  }

  /** What propagation appends after the pushed edge: simultaneity edges,
      none of them on the pair (s, t) in either direction. */
  lemma PushedKept(base: seq<Edge>, x: Edge, pushed: seq<Edge>, final: seq<Edge>)
    requires pushed == base + [x] && FreshSims(pushed, final)
    ensures forall e: Edge :: e in pushed ==> e in final
    ensures forall e: Edge :: e in final && e !in pushed ==> e.kind == Simultaneity && !Joins(e, x.source, x.target)
    ensures final[|base|] == x
  {
    assert pushed[|base|] == x;
    forall e: Edge | e in final && e !in pushed
      ensures e.kind == Simultaneity && !Joins(e, x.source, x.target)
    {
      var i :| 0 <= i < |final| && final[i] == e;
      assert forall k :: 0 <= k < |pushed| ==> final[k] == pushed[k];
      if i >= |pushed| {
        assert final[..i][|base|] == x;
        assert Joins(final[..i][|base|], x.source, x.target);
      }
    }
    forall e: Edge | e in pushed ensures e in final
    {
      var i :| 0 <= i < |pushed| && pushed[i] == e;
      assert final[i] == e;
    }
  }

  /** The overwrite keeps one edge per ordered pair, and `(s, t)` ends up
      with exactly the new edge. */
  lemma UniqueAfterAdd(old_: seq<Edge>, base: seq<Edge>, x: Edge, pushed: seq<Edge>, final: seq<Edge>)
    requires forall e: Edge :: e in base <==> e in old_ && !(e.source == x.source && e.target == x.target)
    requires !HasDirected(base, x.source, x.target)
    requires UniquePairs(old_) ==> UniquePairs(base)
    requires pushed == base + [x] && FreshSims(pushed, final)
    ensures UniquePairs(old_) ==> UniquePairs(final) && GetEdge(final, x.source, x.target) == Some(x)
  {
    var s, t := x.source, x.target;
    if UniquePairs(old_) {
      assert UniquePairs(pushed) by {
        forall i, j | 0 <= i < j < |pushed|
          ensures pushed[i].source != pushed[j].source || pushed[i].target != pushed[j].target
        {
          if j == |base| {
            assert pushed[i] == base[i];
            assert !(base[i].source == s && base[i].target == t);
          } else {
            assert pushed[i] == base[i] && pushed[j] == base[j];
          }
        }
      }
      FreshSimsKeepUnique(pushed, final);
      assert final[|base|] == x;
      assert HasDirected(final, s, t);
    }
  }

  /** A prior simultaneity neighbour of either end survives the overwrite. */
  lemma NeighboursSurvive(old_: seq<Edge>, base: seq<Edge>, x: Edge, pushed: seq<Edge>)
    requires forall e: Edge :: e in base <==> e in old_ && !(e.source == x.source && e.target == x.target)
    requires pushed == base + [x]
    ensures forall n :: n != x.target && SimLinked(old_, x.source, n) ==> SimLinked(pushed, x.source, n)
    ensures forall n :: n != x.source && SimLinked(old_, x.target, n) ==> SimLinked(pushed, x.target, n)
  {
    var s, t := x.source, x.target;
    forall n, c | c in {s, t} && n != (if c == s then t else s) && SimLinked(old_, c, n)
      ensures SimLinked(pushed, c, n)
    {
      var i :| 0 <= i < |old_| && old_[i].kind == Simultaneity && Joins(old_[i], c, n);
      assert old_[i] in base;
      var k :| 0 <= k < |base| && base[k] == old_[i];
      assert pushed[k] == base[k];
    }
  }

  /** `binNode`: an active node moves to the archive and every incident edge
      is dropped; an id that is not active changes nothing. */
  function BinNode(g: Graph, id: string): (r: Graph)
    ensures id !in g.nodes ==> r == g
    ensures id in g.nodes ==>
              && r.nodes == g.nodes - {id}
              && r.binned == g.binned[id := g.nodes[id]]
              && id !in Ids(r.edges)
              && (forall e: Edge :: e in r.edges <==> e in g.edges && e.source != id && e.target != id)
              && r.notifications == g.notifications + 1
  {
    if id !in g.nodes then g
    else Graph(g.nodes - {id}, g.binned[id := g.nodes[id]], WithoutNode(g.edges, id), g.notifications + 1)
  }

  /** `restoreNode`: an archived node moves back to the active map with its
      record unchanged; no edge comes back. An id not archived changes nothing. */
  function RestoreNode(g: Graph, id: string): (r: Graph)
    ensures id !in g.binned ==> r == g
    ensures id in g.binned ==>
              && r.nodes == g.nodes[id := g.binned[id]]
              && r.binned == g.binned - {id}
              && r.edges == g.edges
              && r.notifications == g.notifications + 1
  {
    if id !in g.binned then g
    else Graph(g.nodes[id := g.binned[id]], g.binned - {id}, g.edges, g.notifications + 1)
  }
}
