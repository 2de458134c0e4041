/** Laws of the runtime graph that relate several operations: the storage
    invariant over any run of operations, the archive/restore round trip,
    the order kept by `removeEdge`, and the worked scenarios of the design. */
module GraphLaws {
  import opened Edges
  import opened Graph

  /** The mutations a player or the level loader can apply. */
  datatype Op =
    | ClearOp
    | AddNodeOp(node: Node)
    | AddEdgeOp(s: string, t: string, kind: Relation)
    | RemoveEdgeOp(s: string, t: string)
    | BinOp(id: string)
    | RestoreOp(id: string)

  function Apply(g: Graph, op: Op): Graph
  {
    match op
    case ClearOp => Clear(g)
    case AddNodeOp(n) => AddNode(g, n)
    case AddEdgeOp(s, t, k) => AddEdge(g, s, t, k)
    case RemoveEdgeOp(s, t) => RemoveEdge(g, s, t)
    case BinOp(id) => BinNode(g, id)
    case RestoreOp(id) => RestoreNode(g, id)
  }

  function Run(g: Graph, ops: seq<Op>): Graph
    decreases |ops|
  {
    if ops == [] then g else Run(Apply(g, ops[0]), ops[1..])
  }

  /** Every single operation keeps at most one edge per ordered pair. */
  lemma ApplyKeepsUnique(g: Graph, op: Op)
    requires UniquePairs(g.edges)
    ensures UniquePairs(Apply(g, op).edges)
  {
    match op
    case BinOp(id) =>
      if id in g.nodes {
        FilterEdgesUnique(g.edges, (e: Edge) => e.source != id && e.target != id);
      }
    case _ =>
  }

  /** Any run of operations from a graph that satisfies the storage
      invariant ends in one that does too. */
  lemma {:induction false} RunKeepsUnique(g: Graph, ops: seq<Op>)
    requires UniquePairs(g.edges)
    ensures UniquePairs(Run(g, ops).edges)
    decreases |ops|
  {
    if ops != [] {
      ApplyKeepsUnique(g, ops[0]);
      RunKeepsUnique(Apply(g, ops[0]), ops[1..]);
    }
  }

  /** Archiving then restoring an active node gives back the identical
      node record and archive map, while every edge that touched the node
      stays gone and all other edges stay in place. */
  lemma BinRestoreRoundTrip(g: Graph, id: string)
    requires id in g.nodes && id !in g.binned
    ensures RestoreNode(BinNode(g, id), id).nodes == g.nodes
    ensures RestoreNode(BinNode(g, id), id).binned == g.binned
    ensures RestoreNode(BinNode(g, id), id).edges == WithoutNode(g.edges, id)
    ensures id !in Ids(RestoreNode(BinNode(g, id), id).edges)
    ensures RestoreNode(BinNode(g, id), id).notifications == g.notifications + 2
  {
    var b := BinNode(g, id);
    assert b.binned[id] == g.nodes[id];
    assert (g.nodes - {id})[id := g.nodes[id]] == g.nodes;
    assert g.binned[id := g.nodes[id]] - {id} == g.binned;
  }

  /** Restoring then archiving an archived node gives back the archive,
      the active map without the node, and the edges without the node. */
  lemma RestoreBinRoundTrip(g: Graph, id: string)
    requires id in g.binned && id !in g.nodes
    ensures BinNode(RestoreNode(g, id), id).nodes == g.nodes
    ensures BinNode(RestoreNode(g, id), id).binned == g.binned
    ensures BinNode(RestoreNode(g, id), id).edges == WithoutNode(g.edges, id)
  {
    assert g.nodes[id := g.binned[id]] - {id} == g.nodes;
    assert (g.binned - {id})[id := g.binned[id]] == g.binned;
  }

  /** `removeEdge` keeps the surviving edges in their original order: on a
      split list it acts on each part separately. */
  lemma RemoveEdgeKeepsOrder(a: seq<Edge>, b: seq<Edge>, s: string, t: string)
    ensures WithoutPair(a + b, s, t) == WithoutPair(a, s, t) + WithoutPair(b, s, t)
  {
    FilterEdgesAppend(a, b, (e: Edge) => !(e.source == s && e.target == t));
  }

  /** Linking n1 to n2 and then n2 to n3 as simultaneous auto-links n3 to
      n1, giving exactly three simultaneity edges. */
  lemma SimultaneityScenario()
    ensures AddEdge(AddEdge(Empty(), "n1", "n2", Simultaneity), "n2", "n3", Simultaneity).edges
            == [Edge("n1", "n2", Simultaneity), Edge("n2", "n3", Simultaneity), Edge("n3", "n1", Simultaneity)]
  {
    var e12 := Edge("n1", "n2", Simultaneity);
    var e23 := Edge("n2", "n3", Simultaneity);
    ScenarioFirstLink();
    var g1 := AddEdge(Empty(), "n1", "n2", Simultaneity);
    assert g1.edges == [e12];
    assert !HasDirected(g1.edges, "n2", "n3");
    assert g1.edges + [e23] == [e12, e23];
    ScenarioSecondLink();
    FreshInsertion(g1, "n2", "n3");
  }

  /** Inserting a simultaneity edge on a pair with no directed edge pushes
      it and propagates from it. */
  lemma FreshInsertion(g: Graph, s: string, t: string)
    requires !HasDirected(g.edges, s, t)
    ensures s in Ids(g.edges + [Edge(s, t, Simultaneity)]) && t in Ids(g.edges + [Edge(s, t, Simultaneity)])
    ensures AddEdge(g, s, t, Simultaneity).edges == Propagate(g.edges + [Edge(s, t, Simultaneity)], s, t)
  {
    assert (g.edges + [Edge(s, t, Simultaneity)])[|g.edges|] == Edge(s, t, Simultaneity);
  }

  /** The first insertion has nothing to propagate. */
  lemma ScenarioFirstLink()
    ensures AddEdge(Empty(), "n1", "n2", Simultaneity).edges == [Edge("n1", "n2", Simultaneity)]
  {
    var e12 := Edge("n1", "n2", Simultaneity);
    var p := [e12];
    assert p[0] == e12;
    assert "n1" in Ids(p) && "n2" in Ids(p);
    assert SimNeighbours(p, "n1", "n2") == [];
    assert SimNeighbours(p, "n2", "n1") == [];
    assert Propagate(p, "n1", "n2") == p;
    assert [] + [e12] == p;
  }

  /** The second insertion links n3 to n1, the far neighbour of n2. */
  lemma ScenarioSecondLink()
    ensures "n2" in Ids([Edge("n1", "n2", Simultaneity), Edge("n2", "n3", Simultaneity)])
    ensures "n3" in Ids([Edge("n1", "n2", Simultaneity), Edge("n2", "n3", Simultaneity)])
    ensures Propagate([Edge("n1", "n2", Simultaneity), Edge("n2", "n3", Simultaneity)], "n2", "n3")
            == [Edge("n1", "n2", Simultaneity), Edge("n2", "n3", Simultaneity), Edge("n3", "n1", Simultaneity)]
  {
    var e12 := Edge("n1", "n2", Simultaneity);
    var e23 := Edge("n2", "n3", Simultaneity);
    var e31 := Edge("n3", "n1", Simultaneity);
    var p := [e12, e23];
    var q := [e12, e23, e31];
    assert p[0] == e12 && p[1] == e23;
    assert "n1" in Ids(p) && "n2" in Ids(p) && "n3" in Ids(p);
    ScenarioNeighbours();
    assert !Connected(p, "n3", "n1");
    assert p + [e31] == q;
    ScenarioSettled();
    assert LinkOne(p, "n3", "n1") == q;
    assert LinkAll(p, "n3", ["n1"]) == q;
    assert Propagate(p, "n2", "n3") == LinkAll(q, "n2", []);
  }

  lemma ScenarioNeighbours()
    ensures SimNeighbours([Edge("n1", "n2", Simultaneity), Edge("n2", "n3", Simultaneity)], "n2", "n3") == ["n1"]
    ensures SimNeighbours([Edge("n1", "n2", Simultaneity), Edge("n2", "n3", Simultaneity)], "n3", "n2") == []
  {
    var e12 := Edge("n1", "n2", Simultaneity);
    var e23 := Edge("n2", "n3", Simultaneity);
    var p := [e12, e23];
    assert p[0] == e12 && p[1..] == [e23];
    assert SimNeighbours([e23], "n2", "n3") == [];
    assert SimNeighbours([e23], "n3", "n2") == [];
  }

  /** Once n3 and n1 are linked the triangle is complete: propagating from
      the new pair adds nothing. */
  lemma ScenarioSettled()
    ensures "n3" in Ids([Edge("n1", "n2", Simultaneity), Edge("n2", "n3", Simultaneity), Edge("n3", "n1", Simultaneity)])
    ensures "n1" in Ids([Edge("n1", "n2", Simultaneity), Edge("n2", "n3", Simultaneity), Edge("n3", "n1", Simultaneity)])
    ensures Propagate([Edge("n1", "n2", Simultaneity), Edge("n2", "n3", Simultaneity), Edge("n3", "n1", Simultaneity)], "n3", "n1")
            == [Edge("n1", "n2", Simultaneity), Edge("n2", "n3", Simultaneity), Edge("n3", "n1", Simultaneity)]
  {
    var q := [Edge("n1", "n2", Simultaneity), Edge("n2", "n3", Simultaneity), Edge("n3", "n1", Simultaneity)];
    assert q[0].source == "n1" && q[1].source == "n2" && q[2].source == "n3";
    ScenarioTriangleNeighbours();
    assert Joins(q[1], "n3", "n2") && Joins(q[0], "n1", "n2");
    LinkAllConnected(q, "n1", ["n2"]);
    LinkAllConnected(q, "n3", ["n2"]);
  }

  lemma ScenarioTriangleNeighbours()
    ensures SimNeighbours([Edge("n1", "n2", Simultaneity), Edge("n2", "n3", Simultaneity), Edge("n3", "n1", Simultaneity)], "n3", "n1") == ["n2"]
    ensures SimNeighbours([Edge("n1", "n2", Simultaneity), Edge("n2", "n3", Simultaneity), Edge("n3", "n1", Simultaneity)], "n1", "n3") == ["n2"]
  {
    var e12 := Edge("n1", "n2", Simultaneity);
    var e23 := Edge("n2", "n3", Simultaneity);
    var e31 := Edge("n3", "n1", Simultaneity);
    var q := [e12, e23, e31];
    assert q[0] == e12 && q[1..] == [e23, e31];
    assert [e23, e31][0] == e23 && [e23, e31][1..] == [e31];
    assert SimNeighbours([e31], "n3", "n1") == [];
    assert SimNeighbours([e31], "n1", "n3") == [];
    assert SimNeighbours([e23, e31], "n3", "n1") == ["n2"];
    assert SimNeighbours([e23, e31], "n1", "n3") == [];
  }

  /** The neighbour loop adds nothing when the hub already reaches every
      listed neighbour. */
  lemma {:induction false} LinkAllConnected(edges: seq<Edge>, hub: string, ns: seq<string>)
    requires hub in Ids(edges) && hub !in ns
    requires forall n :: n in ns ==> n in Ids(edges) && Connected(edges, hub, n)
    ensures LinkAll(edges, hub, ns) == edges
    decreases |ns|
  {
    if ns != [] {
      LinkAllConnected(edges, hub, ns[1..]);
    }
  }

  /** Drawing a sequence arrow and then a consequence arrow on the same
      ordered pair leaves one edge, typed consequence. */
  lemma OverwriteScenario()
    ensures AddEdge(AddEdge(Empty(), "n1", "n2", Sequence), "n1", "n2", Consequence).edges
            == [Edge("n1", "n2", Consequence)]
  {
    var g1 := AddEdge(Empty(), "n1", "n2", Sequence);
    assert g1.edges == [Edge("n1", "n2", Sequence)];
    assert WithoutPair(g1.edges, "n1", "n2") == [];
  }
}
