/** How the board's own simultaneity propagation compares with the offline
    closure the level hashes are computed from. When the arrows involved
    are all simultaneity arrows the two agree on the undirected relation:
    each closes it, and neither adds a link outside its least closed
    extension. Byte-level agreement is not guaranteed: the two can orient
    an added arrow differently, and serialisation keeps direction. Nor do
    they agree once other arrow types are involved, because the runtime
    skips a pair that an arrow of any type joins while the scripts look
    only at simultaneity arrows. */
module Agreement {
  import opened Edges
  import opened Graph
  import GraphLaws
  import opened PropagationLaws
  import opened Closure
  import ClosureLaws
  import opened Canonical
  import opened Offline
  import opened Levels

  function E12(): Edge { Edge("n1", "n2", Simultaneity) }
  function E23(): Edge { Edge("n2", "n3", Simultaneity) }
  function E13(): Edge { Edge("n1", "n3", Simultaneity) }

  // ---------------------------------------------------------------------
  // Agreement on the undirected relation
  // ---------------------------------------------------------------------

  /** Drawing the pairs of `q` as simultaneity arrows on an empty board and
      closing the authored list `p` offline give the same undirected
      simultaneity relation, whatever the order and direction in which the
      pairs are drawn, provided `q` links exactly the pairs `p` links with
      simultaneity arrows and no id of `p` is the empty string. */
  lemma UndirectedAgreement(v: Variant, p: seq<Edge>, q: seq<Edge>)
    requires AllSim(q) && "" !in Ids(p)
    requires forall a, b :: SimLinked(p, a, b) <==> SimLinked(q, a, b)
    ensures forall a, b :: SimLinked(Draw(Empty(), q).edges, a, b) <==> SimLinked(Expand(v, p), a, b)
  {
    var board := Draw(Empty(), q).edges;
    var closed := Expand(v, p);
    DrawClosed(Empty(), q);
    ClosureLaws.ExpandClosed(v, p);
    DrawKeepsLinks(Empty(), q);
    assert LinksIn(p, board) by {
      forall a, b | SimLinked(p, a, b) ensures SimLinked(board, a, b)
      {
        var k :| 0 <= k < |q| && q[k].kind == Simultaneity && Joins(q[k], a, b);
        if q[k].source != a {
          LinkedSymmetric(board, q[k].source, q[k].target);
        }
      }
    }
    ClosureLaws.ExpandWithin(board, v, p);
    forall k | 0 <= k < |q| ensures SimLinked(closed, q[k].source, q[k].target)
    {
      assert q[k] in q;
      assert SimLinked(q, q[k].source, q[k].target);
      ConnectedGrows(p, closed, q[k].source, q[k].target);
    }
    DrawWithin(closed, Empty(), q);
  }

  /** A board drawn from simultaneity arrows is already closed, so either
      script returns it unchanged; a level authored as such a board is
      accepted when the player draws it again. */
  lemma DrawnSolutionAccepted(v: Variant, h: Hasher, q: seq<Edge>, f: LevelFile, binned: set<string>,
                              mustBin: Option<seq<string>>)
    requires AllBinned(if mustBin.Some? then mustBin.value else [], binned)
    ensures Expand(v, Draw(Empty(), q).edges) == Draw(Empty(), q).edges
    ensures Validate(h, Draw(Empty(), q).edges, binned,
                     Solution(mustBin, UpdateLevel(h, Some(Draw(Empty(), q).edges), f).0.hash)) == Accepted
  {
    var board := Draw(Empty(), q).edges;
    DrawClosed(Empty(), q);
    ClosureLaws.ClosedInputUnchanged(v, board);
    ClosureLaws.ClosedInputUnchanged(UpdateHash, board);
    AuthoredSolutionAccepted(h, board, f, board, binned, mustBin);
  }

  // ---------------------------------------------------------------------
  // Direction: the n1–n2, n2–n3 chain
  // ---------------------------------------------------------------------

  /** Every simultaneity link of the closed triangle joins two distinct
      corners, and any two distinct corners are linked. */
  lemma TriangleLinks(q: seq<Edge>, a: string, b: string)
    requires q == [E12(), E23(), E13()]
    ensures SimLinked(q, a, b) <==> a != b && a in {"n1", "n2", "n3"} && b in {"n1", "n2", "n3"}
  {
    if a != b && a in {"n1", "n2", "n3"} && b in {"n1", "n2", "n3"} {
      if Joins(q[0], a, b) {
      } else if Joins(q[1], a, b) {
      } else {
        assert Joins(q[2], a, b);
      }
    }
  }

  lemma TriangleClosed(q: seq<Edge>)
    requires q == [E12(), E23(), E13()]
    ensures SimClosed(q)
  {
    forall a, b, c | SimLinked(q, a, b) && SimLinked(q, b, c) && a != c
      ensures SimLinked(q, a, c)
    {
      TriangleLinks(q, a, b);
      TriangleLinks(q, b, c);
      TriangleLinks(q, a, c);
    }
  }

  /** The hash updater closes the chain `n1–n2, n2–n3` by appending
      `n1 → n3`. */
  lemma OfflineClosesForward(p: seq<Edge>)
    requires p == [E12(), E23()]
    ensures Expand(UpdateHash, p) == [E12(), E23(), E13()]
  {
    var q := p + [E13()];
    ForwardRound(p);
    TriangleClosed(q);
    ClosureLaws.ClosedInputUnchanged(UpdateHash, q);
  }

  /** One round over the chain appends the forward link and nothing else. */
  lemma ForwardRound(p: seq<Edge>)
    requires p == [E12(), E23()]
    ensures Round(UpdateHash, p) == p + [E13()]
  {
    var q := p + [E13()];
    ChainSims(p);
    IdsAppend(p, E13());
    ClosureLaws.TwoByTwo(UpdateHash, p, p);
    ForwardSteps(p, q);
  }

  lemma ChainSims(p: seq<Edge>)
    requires p == [E12(), E23()]
    ensures Sims(p) == p && Known(p, p)
  {
    assert Sims(p[1..]) == [E23()];
    IdsHas(p, 0);
    IdsHas(p, 1);
  }

  /** The two steps of the round: the first links `n1 → n3`, the second
      finds `n3–n1` already linked. */
  lemma ForwardSteps(p: seq<Edge>, q: seq<Edge>)
    requires p == [E12(), E23()] && q == p + [E13()] && Known(p, p) && Known(p, q)
    ensures Step(UpdateHash, p[0], p[1], p) == q
    ensures Step(UpdateHash, p[1], p[0], q) == q
  {
    assert Propose(UpdateHash, E12(), E23()) == Some(("n1", "n3"));
    assert !SimLinked(p, "n1", "n3");
    assert Propose(UpdateHash, E23(), E12()) == Some(("n3", "n1"));
    assert Joins(q[2], "n3", "n1");
  }

  /** Serialisation keeps direction: the board's triangle and the closed
      chain serialise differently. */
  lemma TrianglesSerialiseApart(board: seq<Edge>, closed: seq<Edge>)
    requires board == [E12(), E23(), Edge("n3", "n1", Simultaneity)]
    requires closed == [E12(), E23(), E13()]
    ensures Serialize(board) != Serialize(closed)
  {
    var back := Edge("n3", "n1", Simultaneity);
    assert back in multiset(board) && back !in multiset(closed);
    if Serialize(board) == Serialize(closed) {
      SerializeDeterminesEdges(board, closed);
    }
  }

  /** Drawing `n1–n2` and then `n2–n3` as simultaneity arrows on an empty
      board ends with `n3 → n1` on the board, while the level's hash is
      taken over the authored chain closed with `n1 → n3`. The two
      serialisations differ, so the player's board is accepted only if the
      hash function collides on them. */
  lemma BoardAndHashDisagree(h: Hasher, f: LevelFile, binned: set<string>, board: seq<Edge>)
    requires board == AddEdge(AddEdge(Empty(), "n1", "n2", Simultaneity), "n2", "n3", Simultaneity).edges
    ensures Serialize(board) != Serialize(Expand(UpdateHash, [E12(), E23()]))
    ensures Validate(h, board, binned, Solution(None, UpdateLevel(h, Some([E12(), E23()]), f).0.hash)) == Accepted
            <==> h(Serialize(board)) == LevelHash(h, [E12(), E23()])
  {
    GraphLaws.SimultaneityScenario();
    OfflineClosesForward([E12(), E23()]);
    TrianglesSerialiseApart(board, [E12(), E23(), E13()]);
    AcceptedIffDigestsMatch(h, board, binned, [E12(), E23()], f);
  }

  // ---------------------------------------------------------------------
  // Mixed arrow types: a sequence arrow n1 → n3 beside the chain
  // ---------------------------------------------------------------------

  function S13(): Edge { Edge("n1", "n3", Sequence) }

  /** Propagation adds nothing when each end already reaches every
      simultaneity neighbour of the other. */
  lemma PropagateSettled(p: seq<Edge>, a: string, b: string)
    requires a in Ids(p) && b in Ids(p)
    requires forall n :: n in SimNeighbours(p, a, b) ==> Connected(p, b, n)
    requires forall n :: n in SimNeighbours(p, b, a) ==> Connected(p, a, n)
    ensures Propagate(p, a, b) == p
  {
    GraphLaws.LinkAllConnected(p, b, SimNeighbours(p, a, b));
    GraphLaws.LinkAllConnected(p, a, SimNeighbours(p, b, a));
  }

  /** The sequence arrow goes first, on an empty board. */
  lemma MixedFirstMove(g: Graph)
    requires g == AddEdge(Empty(), "n1", "n3", Sequence)
    ensures g.edges == [S13()]
  {
  }

  /** Then `n1–n2`, which has no simultaneity neighbour to link. */
  lemma MixedSecondMove(g: Graph, p: seq<Edge>)
    requires g.edges == [S13()] && p == [S13(), E12()]
    ensures AddEdge(g, "n1", "n2", Simultaneity).edges == p
  {
    assert !HasDirected(g.edges, "n1", "n2");
    GraphLaws.FreshInsertion(g, "n1", "n2");
    assert g.edges + [E12()] == p;
    MixedSecondLink(p);
  }

  lemma MixedSecondLink(p: seq<Edge>)
    requires p == [S13(), E12()]
    ensures "n1" in Ids(p) && "n2" in Ids(p)
    ensures Propagate(p, "n1", "n2") == p
  {
    assert p[0] == S13() && p[1..] == [E12()];
    assert SimNeighbours([E12()], "n1", "n2") == [];
    assert SimNeighbours([E12()], "n2", "n1") == [];
    assert SimNeighbours(p, "n1", "n2") == [] && SimNeighbours(p, "n2", "n1") == [];
    IdsHas(p, 1);
    PropagateSettled(p, "n1", "n2");
  }

  /** Then `n2–n3`: `n1` is a simultaneity neighbour of `n2`, but the
      sequence arrow already connects `n3` with `n1`, so the runtime guard
      adds nothing. */
  lemma MixedThirdMove(g: Graph, p: seq<Edge>)
    requires g.edges == [S13(), E12()] && p == [S13(), E12(), E23()]
    ensures AddEdge(g, "n2", "n3", Simultaneity).edges == p
  {
    assert !HasDirected(g.edges, "n2", "n3");
    GraphLaws.FreshInsertion(g, "n2", "n3");
    assert g.edges + [E23()] == p;
    MixedThirdLink(p);
  }

  lemma MixedThirdLink(p: seq<Edge>)
    requires p == [S13(), E12(), E23()]
    ensures "n2" in Ids(p) && "n3" in Ids(p)
    ensures Propagate(p, "n2", "n3") == p
  {
    MixedNeighbours(p);
    assert Joins(p[0], "n3", "n1");
    IdsHas(p, 2);
    PropagateSettled(p, "n2", "n3");
  }

  lemma MixedNeighbours(p: seq<Edge>)
    requires p == [S13(), E12(), E23()]
    ensures SimNeighbours(p, "n2", "n3") == ["n1"]
    ensures SimNeighbours(p, "n3", "n2") == []
  {
    assert p[0] == S13() && p[1..] == [E12(), E23()];
    assert [E12(), E23()][1..] == [E23()];
    assert SimNeighbours([E23()], "n2", "n3") == [];
    assert SimNeighbours([E23()], "n3", "n2") == [];
    assert SimNeighbours([E12(), E23()], "n2", "n3") == ["n1"];
    assert SimNeighbours([E12(), E23()], "n3", "n2") == [];
  }

  /** The runtime counts the sequence arrow as a connection and the
      scripts do not: drawing `n1 → n3` as a sequence arrow and then
      `n1–n2`, `n2–n3` leaves a board without a simultaneity link between
      `n1` and `n3`, so its simultaneity relation is not closed. */
  lemma GuardsDiffer(g1: Graph, g2: Graph, board: seq<Edge>)
    requires g1 == AddEdge(Empty(), "n1", "n3", Sequence)
    requires g2 == AddEdge(g1, "n1", "n2", Simultaneity)
    requires board == AddEdge(g2, "n2", "n3", Simultaneity).edges
    ensures board == [S13(), E12(), E23()]
    ensures Connected(board, "n1", "n3") && !SimLinked(board, "n1", "n3")
    ensures SimLinked(board, "n1", "n2") && SimLinked(board, "n2", "n3") && !SimClosed(board)
  {
    MixedFirstMove(g1);
    MixedSecondMove(g1, [S13(), E12()]);
    MixedThirdMove(g2, [S13(), E12(), E23()]);
    MixedBoardOpen(board);
  }

  lemma MixedBoardOpen(p: seq<Edge>)
    requires p == [S13(), E12(), E23()]
    ensures Connected(p, "n1", "n3") && !SimLinked(p, "n1", "n3")
    ensures SimLinked(p, "n1", "n2") && SimLinked(p, "n2", "n3") && !SimClosed(p)
  {
    assert Joins(p[0], "n1", "n3") && Joins(p[1], "n1", "n2") && Joins(p[2], "n2", "n3");
    var a, b, c := "n1", "n2", "n3";
    assert SimLinked(p, a, b) && SimLinked(p, b, c) && a != c && !SimLinked(p, a, c);
  }

  /** The hash updater closes the same list with a simultaneity arrow
      `n1 → n3` beside the sequence arrow on that ordered pair. */
  lemma MixedClosure(p: seq<Edge>)
    requires p == [S13(), E12(), E23()]
    ensures Expand(UpdateHash, p) == p + [E13()]
  {
    var q := p + [E13()];
    MixedRound(p);
    MixedClosed(q);
    ClosureLaws.ClosedInputUnchanged(UpdateHash, q);
  }

  /** One round over the mixed list links `n1 → n3` and nothing else. */
  lemma MixedRound(p: seq<Edge>)
    requires p == [S13(), E12(), E23()]
    ensures Round(UpdateHash, p) == p + [E13()]
  {
    var chain := [E12(), E23()];
    var q := p + [E13()];
    assert p[1..] == chain && chain[1..] == [E23()];
    assert Sims(p) == chain;
    assert p[1] == E12() && p[2] == E23();
    assert Known(chain, p);
    IdsHas(p, 0);
    IdsAppend(p, E13());
    ClosureLaws.TwoByTwo(UpdateHash, chain, p);
    MixedSteps(p, chain, q);
  }

  lemma MixedSteps(p: seq<Edge>, chain: seq<Edge>, q: seq<Edge>)
    requires p == [S13(), E12(), E23()] && chain == [E12(), E23()] && q == p + [E13()]
    requires Known(chain, p) && Known(chain, q)
    ensures Step(UpdateHash, chain[0], chain[1], p) == q
    ensures Step(UpdateHash, chain[1], chain[0], q) == q
  {
    assert Propose(UpdateHash, E12(), E23()) == Some(("n1", "n3"));
    assert !SimLinked(p, "n1", "n3");
    assert Propose(UpdateHash, E23(), E12()) == Some(("n3", "n1"));
    assert Joins(q[3], "n3", "n1");
  }

  /** The closed list links exactly the triangle; the sequence arrow does
      not count. */
  lemma MixedClosed(q: seq<Edge>)
    requires q == [S13(), E12(), E23(), E13()]
    ensures SimClosed(q)
  {
    var t := [E12(), E23(), E13()];
    assert q[1..] == t;
    forall a, b ensures SimLinked(q, a, b) <==> SimLinked(t, a, b)
    {
      if SimLinked(q, a, b) {
        var i :| 0 <= i < |q| && q[i].kind == Simultaneity && Joins(q[i], a, b);
        assert t[i - 1] == q[i];
      }
      if SimLinked(t, a, b) {
        var i :| 0 <= i < |t| && t[i].kind == Simultaneity && Joins(t[i], a, b);
        assert q[i + 1] == t[i];
      }
    }
    TriangleClosed(t);
  }

  /** A list with one arrow per ordered pair never serialises like the
      closed mixed list, which holds two arrows on `n1 → n3`. */
  lemma MixedSerialisesApart(p: seq<Edge>, y: seq<Edge>)
    requires p == [S13(), E12(), E23()] && UniquePairs(y)
    ensures Serialize(y) != Serialize(Expand(UpdateHash, p))
  {
    var closed := Expand(UpdateHash, p);
    MixedClosure(p);
    assert closed[0] == S13() && closed[3] == E13();
    assert S13() in multiset(closed) && E13() in multiset(closed);
    NoTwinArrows(y, S13(), E13());
    if Serialize(y) == Serialize(closed) {
      SerializeDeterminesEdges(y, closed);
    }
  }

  /** Two distinct arrows on one ordered pair cannot both be stored. */
  lemma NoTwinArrows(y: seq<Edge>, e1: Edge, e2: Edge)
    requires UniquePairs(y) && e1 != e2 && e1.source == e2.source && e1.target == e2.target
    ensures !(e1 in multiset(y) && e2 in multiset(y))
  {
    if e1 in y {
      var i :| 0 <= i < |y| && y[i] == e1;
      forall j | 0 <= j < |y| ensures y[j] != e2
      {
        if j != i {
          assert i < j || j < i;
        }
      }
    }
  }

  /** A level authored as `n1 → n3` (sequence), `n1–n2`, `n2–n3` carries a
      hash that no board matches except by a collision: every board any
      run of operations reaches stores one arrow per ordered pair, and
      so serialises differently from the closed list. */
  lemma MixedHashUnreachable(h: Hasher, p: seq<Edge>, ops: seq<GraphLaws.Op>, f: LevelFile, binned: set<string>)
    requires p == [S13(), E12(), E23()]
    ensures Serialize(GraphLaws.Run(Empty(), ops).edges) != Serialize(Expand(UpdateHash, p))
    ensures Validate(h, GraphLaws.Run(Empty(), ops).edges, binned, Solution(None, UpdateLevel(h, Some(p), f).0.hash)) == Accepted
            <==> h(Serialize(GraphLaws.Run(Empty(), ops).edges)) == LevelHash(h, p)
  {
    var board := GraphLaws.Run(Empty(), ops).edges;
    GraphLaws.RunKeepsUnique(Empty(), ops);
    MixedSerialisesApart(p, board);
    AcceptedIffDigestsMatch(h, board, binned, p, f);
  }
}
