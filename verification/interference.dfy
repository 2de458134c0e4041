/** Node morphing: a clue registered to morph starts a hidden countdown the
    first time it is linked to anything, and when that countdown ends its
    text is silently replaced. The random delay and the timer itself are
    not modelled; `ExecuteMorph` is what the timer finally runs. */
module Interference {
  import opened Edges
  import opened Graph

  /** The configuration stored per morphing node. */
  datatype Morph = Morph(newText: string, minTime: int, maxTime: int)

  datatype Engine = Engine(active: map<string, Morph>, triggered: set<string>, completed: set<string>)

  const DefaultMinTime: int := 60000
  const DefaultMaxTime: int := 120000

  /** The engine as constructed: nothing registered, started or done. */
  function Idle(): (e: Engine)
    ensures e.active == map[] && e.triggered == {} && e.completed == {}
  {
    Engine(map[], {}, {})
  }

  /** `x || fallback` on an optional number: both a missing value and 0 are
      falsy. */
  function OrDefault(x: Option<int>, fallback: int): int
  {
    if x.None? || x.value == 0 then fallback else x.value
  }

  /** `setLevelIntensity(val)`: forgets every registration, every started
      countdown and every completed morph. The argument is not used. */
  function SetLevelIntensity(e: Engine, intensity: int): (r: Engine)
    ensures r.active == map[] && r.triggered == {} && r.completed == {}
  {
    Idle()
  }

  /** The reset does not depend on the engine's state or on the argument. */
  lemma IntensityIgnored(e1: Engine, e2: Engine, a: int, b: int)
    ensures SetLevelIntensity(e1, a) == SetLevelIntensity(e2, b)
  {
  }

  /** `registerMorph`: sets (or replaces) the configuration of `id`, with
      falsy bounds defaulting to 60 000 and 120 000 milliseconds. */
  function RegisterMorph(e: Engine, id: string, text: string, minTime: Option<int>, maxTime: Option<int>): (r: Engine)
    ensures r.active.Keys == e.active.Keys + {id}
    ensures r.active[id].newText == text
    ensures r.active[id].minTime == (if minTime.Some? && minTime.value != 0 then minTime.value else DefaultMinTime)
    ensures r.active[id].maxTime == (if maxTime.Some? && maxTime.value != 0 then maxTime.value else DefaultMaxTime)
    ensures forall k :: k in e.active && k != id ==> r.active[k] == e.active[k]
    ensures r.triggered == e.triggered && r.completed == e.completed
  {
    e.(active := e.active[id := Morph(text, OrDefault(minTime, DefaultMinTime), OrDefault(maxTime, DefaultMaxTime))])
  }

  /** `edges.some(e => e.source === id || e.target === id)`. */
  function Incident(edges: seq<Edge>, id: string): (r: bool)
    ensures r <==> id in Ids(edges)
    decreases |edges|
  {
    if edges == [] then false
    else if edges[0].source == id || edges[0].target == id then (IdsHas(edges, 0); true)
    else
      var r := Incident(edges[1..], id);
      IdsTail(edges);
      r
  }

  lemma IdsTail(edges: seq<Edge>)
    requires edges != []
    ensures Ids(edges) == {edges[0].source, edges[0].target} + Ids(edges[1..])
  {
    var t := edges[1..];
    forall x ensures x in Ids(edges) <==> x == edges[0].source || x == edges[0].target || x in Ids(t)
    {
      if x in Ids(t) {
        var i :| 0 <= i < |t| && (t[i].source == x || t[i].target == x);
        assert edges[i + 1] == t[i];
      }
      if x in Ids(edges) {
        var i :| 0 <= i < |edges| && (edges[i].source == x || edges[i].target == x);
        if i > 0 {
          assert t[i - 1] == edges[i];
        }
      }
    }
  }

  /** `checkForTriggers(graph)`: every registered node not yet started that
      some edge touches is started now. The map's iteration order only
      orders the `setTimeout` calls, which are not modelled. */
  function CheckForTriggers(e: Engine, edges: seq<Edge>): (r: Engine)
    ensures r.active == e.active && r.completed == e.completed
    ensures e.triggered <= r.triggered
    ensures forall id :: id in r.triggered && id !in e.triggered <==>
              id in e.active && id !in e.triggered && id in Ids(edges)
  {
    e.(triggered := e.triggered + set id | id in e.active && id !in e.triggered && Incident(edges, id))
  }

  /** The ids a check starts. */
  function Started(e: Engine, edges: seq<Edge>): set<string>
  {
    CheckForTriggers(e, edges).triggered - e.triggered
  }

  /** The checks run on successive graph notifications. */
  function Checks(e: Engine, snapshots: seq<seq<Edge>>): Engine
    decreases |snapshots|
  {
    if snapshots == [] then e else Checks(CheckForTriggers(e, snapshots[0]), snapshots[1..])
  }

  /** Checks never forget a started countdown and change nothing else. */
  lemma {:induction false} ChecksGrow(e: Engine, snapshots: seq<seq<Edge>>)
    ensures e.triggered <= Checks(e, snapshots).triggered
    ensures Checks(e, snapshots).active == e.active && Checks(e, snapshots).completed == e.completed
    decreases |snapshots|
  {
    if snapshots != [] {
      ChecksGrow(CheckForTriggers(e, snapshots[0]), snapshots[1..]);
    }
  }

  lemma ChecksSplit(e: Engine, snapshots: seq<seq<Edge>>, i: nat)
    requires i < |snapshots|
    ensures Checks(e, snapshots[..i + 1]) == CheckForTriggers(Checks(e, snapshots[..i]), snapshots[i])
  {
    ChecksAppend(e, snapshots[..i], snapshots[i]);
    assert snapshots[..i] + [snapshots[i]] == snapshots[..i + 1];
  }

  lemma {:induction false} ChecksAppend(e: Engine, a: seq<seq<Edge>>, x: seq<Edge>)
    ensures Checks(e, a + [x]) == CheckForTriggers(Checks(e, a), x)
    decreases |a|
  {
    if a == [] {
      assert [] + [x] == [x];
    } else {
      assert (a + [x])[1..] == a[1..] + [x];
      ChecksAppend(CheckForTriggers(e, a[0]), a[1..], x);
    }
  }

  /** Over any run of checks without a reset, a node's countdown is started
      at most once: the ids started by two different checks are disjoint,
      and each was registered and touched by an edge at that moment. */
  lemma StartedOnce(e: Engine, snapshots: seq<seq<Edge>>, i: nat, j: nat)
    requires i < j < |snapshots|
    ensures Started(Checks(e, snapshots[..i]), snapshots[i]) !! Started(Checks(e, snapshots[..j]), snapshots[j])
    ensures forall id :: id in Started(Checks(e, snapshots[..j]), snapshots[j]) ==>
              id in e.active && id in Ids(snapshots[j])
  {
    var before := Checks(e, snapshots[..i]);
    var after := Checks(e, snapshots[..i + 1]);
    var later := Checks(e, snapshots[..j]);
    ChecksSplit(e, snapshots, i);
    var k := i + 1;
    assert snapshots[..j] == snapshots[..k] + snapshots[k..j];
    ChecksConcat(e, snapshots[..k], snapshots[k..j]);
    ChecksGrow(after, snapshots[k..j]);
    ChecksGrow(e, snapshots[..j]);
  }

  lemma {:induction false} ChecksConcat(e: Engine, a: seq<seq<Edge>>, b: seq<seq<Edge>>)
    ensures Checks(e, a + b) == Checks(Checks(e, a), b)
    decreases |a|
  {
    if a == [] {
      assert [] + b == b;
    } else {
      assert (a + b)[1..] == a[1..] + b;
      ChecksConcat(CheckForTriggers(e, a[0]), a[1..], b);
    }
  }

  /** Started countdowns belong to registered nodes. */
  predicate Consistent(e: Engine)
  {
    e.triggered <= e.active.Keys
  }

  lemma OperationsKeepConsistent(e: Engine, g: Graph, edges: seq<Edge>, id: string, text: string,
                                 lo: Option<int>, hi: Option<int>, level: int)
    requires Consistent(e)
    ensures Consistent(CheckForTriggers(e, edges))
    ensures Consistent(RegisterMorph(e, id, text, lo, hi))
    ensures Consistent(SetLevelIntensity(e, level))
    ensures Consistent(ExecuteMorph(e, g, id, text).0)
  {
  }

  /** `executeMorph(id, newText)`: when `id` is an active clue on the board
      its text becomes `newText`, it is marked completed and subscribers are
      notified; otherwise nothing happens. */
  function ExecuteMorph(e: Engine, g: Graph, id: string, newText: string): (r: (Engine, Graph))
    ensures id !in g.nodes ==> r == (e, g)
    ensures id in g.nodes ==>
              && r.1.nodes.Keys == g.nodes.Keys
              && r.1.nodes[id] == g.nodes[id].(text := newText)
              && (forall k :: k in g.nodes && k != id ==> r.1.nodes[k] == g.nodes[k])
              && r.1.edges == g.edges && r.1.binned == g.binned
              && r.1.notifications == g.notifications + 1
              && r.0.completed == e.completed + {id}
              && r.0.active == e.active && r.0.triggered == e.triggered
  {
    if id !in g.nodes then (e, g)
    else
      var node := g.nodes[id];
      (e.(completed := e.completed + {id}),
       g.(nodes := g.nodes[id := node.(text := newText)], notifications := g.notifications + 1))
  }
}
