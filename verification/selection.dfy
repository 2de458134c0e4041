/** The board's selection logic: which clue is picked up, which arrow is
    highlighted, linking two clues by clicking them in turn, and cycling an
    arrow's type. Rendering is not modelled. */
module Selection {
  import opened Edges
  import opened Graph

  /** The `{source, target}` reference to a selected arrow. */
  datatype EdgeRef = EdgeRef(source: string, target: string)

  datatype Selection = Selection(node: Option<string>, edge: Option<EdgeRef>)

  function Nothing(): Selection
  {
    Selection(None, None)
  }

  /** JavaScript truthiness of the selected id: `null` and `""` are falsy. */
  predicate Picked(s: Selection)
  {
    s.node.Some? && s.node.value != ""
  }

  /** `handleNodeClick(id)`. Clicking the picked clue again puts it down;
      with no clue picked the clicked one is picked up; otherwise the picked
      clue is linked to the clicked one with a sequence arrow unless an arrow
      already runs that way, and that arrow becomes the selection. */
  function HandleNodeClick(s: Selection, g: Graph, id: string): (r: (Selection, Graph))
    ensures s.node == Some(id) ==> r == (s.(node := None), g)
    ensures s.node != Some(id) && !Picked(s) ==> r == (s.(node := Some(id)), g)
    ensures s.node != Some(id) && Picked(s) ==>
              && r.0 == Selection(None, Some(EdgeRef(s.node.value, id)))
              && (HasDirected(g.edges, s.node.value, id) ==> r.1 == g)
              && (!HasDirected(g.edges, s.node.value, id) ==> r.1 == AddEdge(g, s.node.value, id, Sequence))
  {
    if s.node == Some(id) then (s.(node := None), g)
    else if !Picked(s) then (s.(node := Some(id)), g)
    else
      var source := s.node.value;
      var g' := if GetEdge(g.edges, source, id).None? then AddEdge(g, source, id, Sequence) else g;
      (Selection(None, Some(EdgeRef(source, id))), g')
  }

  /** A click never draws an arrow from a clue to itself, never disturbs an
      existing arrow, and keeps one arrow per ordered pair; after a link the
      selected arrow exists. */
  lemma ClickSafe(s: Selection, g: Graph, id: string)
    requires UniquePairs(g.edges)
    ensures UniquePairs(HandleNodeClick(s, g, id).1.edges)
    ensures forall e :: e in HandleNodeClick(s, g, id).1.edges && e !in g.edges ==> e.source != e.target
    ensures forall e :: e in g.edges ==> e in HandleNodeClick(s, g, id).1.edges
    ensures s.node != Some(id) && Picked(s) ==> HasDirected(HandleNodeClick(s, g, id).1.edges, s.node.value, id)
  {
    if s.node != Some(id) && Picked(s) {
      var src := s.node.value;
      var g' := HandleNodeClick(s, g, id).1;
      if !HasDirected(g.edges, src, id) {
        assert Edge(src, id, Sequence) in g'.edges;
        var i :| 0 <= i < |g'.edges| && g'.edges[i] == Edge(src, id, Sequence);
        assert HasDirected(g'.edges, src, id);
        forall e | e in g.edges ensures e in g'.edges
        {
          var k :| 0 <= k < |g.edges| && g.edges[k] == e;
          assert !(g.edges[k].source == src && g.edges[k].target == id);
        }
      }
    }
  }

  /** Picking up a clue and clicking it again leaves everything as it was. */
  lemma PickPutDown(g: Graph, id: string, edge: Option<EdgeRef>)
    requires id != ""
    ensures HandleNodeClick(HandleNodeClick(Selection(None, edge), g, id).0, g, id) == (Selection(None, edge), g)
  {
  }

  /** Clicking two distinct clues in turn, with nothing picked, links them
      with a sequence arrow (unless one already runs that way) and selects
      that arrow. */
  lemma ClickTwice(g: Graph, a: string, b: string)
    requires a != "" && a != b && UniquePairs(g.edges)
    ensures HandleNodeClick(HandleNodeClick(Nothing(), g, a).0, g, b).0 == Selection(None, Some(EdgeRef(a, b)))
    ensures !HasDirected(g.edges, a, b) ==>
              GetEdge(HandleNodeClick(HandleNodeClick(Nothing(), g, a).0, g, b).1.edges, a, b) == Some(Edge(a, b, Sequence))
    ensures HasDirected(g.edges, a, b) ==> HandleNodeClick(HandleNodeClick(Nothing(), g, a).0, g, b).1 == g
  {
  }

  // ---------------------------------------------------------------------
  // Arrow types
  // ---------------------------------------------------------------------

  /** The order the type button steps through. */
  const Cycle: seq<Relation> := [Sequence, Consequence, Simultaneity]

  /** `types.indexOf(type)`; every relation is in the list. */
  function IndexOf(k: Relation): (i: nat)
    ensures i < |Cycle| && Cycle[i] == k
  {
    match k
    case Sequence => 0
    case Consequence => 1
    case Simultaneity => 2
  }

  /** `types[(indexOf(type) + 1) % types.length]`. */
  function NextKind(k: Relation): (r: Relation)
    ensures r != k && r in Cycle
  {
    Cycle[(IndexOf(k) + 1) % |Cycle|]
  }

  /** The cycle moves sequence to consequence to simultaneity and back: every
      step changes the type, and three steps return to the start. */
  lemma CycleLaws(k: Relation)
    ensures NextKind(k) != k
    ensures NextKind(NextKind(NextKind(k))) == k
    ensures k == Sequence ==> NextKind(k) == Consequence
    ensures k == Consequence ==> NextKind(k) == Simultaneity
    ensures k == Simultaneity ==> NextKind(k) == Sequence
  {
  }

  /** `cycleArrowType(ref)`: nothing happens when no arrow runs from
      `ref.source` to `ref.target`; otherwise that arrow is re-added with the
      next type. */
  function CycleArrowType(g: Graph, ref: EdgeRef): (r: Graph)
    ensures !HasDirected(g.edges, ref.source, ref.target) ==> r == g
    ensures UniquePairs(g.edges) ==> UniquePairs(r.edges)
    ensures UniquePairs(g.edges) && HasDirected(g.edges, ref.source, ref.target) ==>
              GetEdge(r.edges, ref.source, ref.target)
                == Some(Edge(ref.source, ref.target, NextKind(GetEdge(g.edges, ref.source, ref.target).value.kind)))
  {
    var edge := GetEdge(g.edges, ref.source, ref.target);
    if edge.None? then g
    else AddEdge(g, ref.source, ref.target, NextKind(edge.value.kind))
  }

  /** Three presses on the type button of an arrow bring its type back. */
  lemma ThreePresses(g: Graph, ref: EdgeRef)
    requires UniquePairs(g.edges) && HasDirected(g.edges, ref.source, ref.target)
    ensures GetEdge(CycleArrowType(CycleArrowType(CycleArrowType(g, ref), ref), ref).edges, ref.source, ref.target)
            == GetEdge(g.edges, ref.source, ref.target)
  {
    var k := GetEdge(g.edges, ref.source, ref.target).value.kind;
    var g1 := CycleArrowType(g, ref);
    var g2 := CycleArrowType(g1, ref);
    var g3 := CycleArrowType(g2, ref);
    CycleLaws(k);
    assert GetEdge(g1.edges, ref.source, ref.target).Some?;
    assert GetEdge(g2.edges, ref.source, ref.target).Some?;
  }

  // ---------------------------------------------------------------------
  // Clearing the selection
  // ---------------------------------------------------------------------

  /** `deselectAll`. */
  function DeselectAll(s: Selection): (r: Selection)
    ensures r.node.None? && r.edge.None?
  {
    Nothing()
  }

  /** The check at the top of `renderEdgeControls`: a selected arrow that no
      longer exists is dropped; anything else is kept. */
  function DropStale(s: Selection, g: Graph): (r: Selection)
    ensures r.node == s.node
    ensures r.edge.Some? ==> HasDirected(g.edges, r.edge.value.source, r.edge.value.target)
    ensures s.edge.Some? && HasDirected(g.edges, s.edge.value.source, s.edge.value.target) ==> r == s
    ensures s.edge.None? ==> r == s
  {
    if s.edge.Some? && GetEdge(g.edges, s.edge.value.source, s.edge.value.target).None? then s.(edge := None)
    else s
  }

  /** Dropping twice is dropping once. */
  lemma DropStaleIdempotent(s: Selection, g: Graph)
    ensures DropStale(DropStale(s, g), g) == DropStale(s, g)
  {
  }
}
