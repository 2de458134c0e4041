/** The level manager: building the board for a level, the verdict on the
    player's board (archived clues first, then the hash of the serialised
    arrows), and what a fulfilled contract leads to: a casebook entry, the
    saved progress, and the next level or the victory sequence. Fetching
    level files, feedback modals, audio playback and delays are not
    modelled. */
module Levels {
  import opened Edges
  import opened Canonical
  import opened Closure
  import opened Offline
  import opened Graph
  import CaseLog
  import Timer
  import Interference

  const InsufficientData: string := "ANALYSIS FAILED: INSUFFICIENT DATA."
  const MissingHash: string := "SYSTEM ERROR: MISSING HASH"
  const ContractFulfilled: string := "CONTRACT FULFILLED. UPLOADING..."
  const DefaultJournal: string := "Case resolved."

  /** The last level; fulfilling it starts the victory sequence. */
  const LastLevel: int := 30

  // ---------------------------------------------------------------------
  // Level data
  // ---------------------------------------------------------------------

  datatype Meta = Meta(
    id: int,
    title: string,
    journal: Option<string>,
    timerSeconds: Option<int>,
    glitchIntensity: Option<int>)

  datatype MorphSpec = MorphSpec(text: string, minTime: Option<int>, maxTime: Option<int>)

  datatype NodeSpec = NodeSpec(
    id: string,
    text: string,
    kind: string,
    position: Option<(int, int)>,
    morph: Option<MorphSpec>)

  datatype Solution = Solution(mustBin: Option<seq<string>>, hash: Option<string>)

  datatype Level = Level(meta: Meta, nodes: seq<NodeSpec>, solution: Solution)

  // ---------------------------------------------------------------------
  // The verdict
  // ---------------------------------------------------------------------

  /** `solution.mustBin || []`. */
  function RequiredBins(s: Solution): seq<string>
  {
    if s.mustBin.Some? then s.mustBin.value else []
  }

  /** The target hash is truthy: present and not the empty string. */
  predicate HashPresent(s: Solution)
  {
    s.hash.Some? && s.hash.value != ""
  }

  predicate AllBinned(required: seq<string>, binned: set<string>)
  {
    forall i :: 0 <= i < |required| ==> required[i] in binned
  }

  /** The bin loop: the first required clue that is not archived. */
  function FirstMissing(required: seq<string>, binned: set<string>): (r: Option<string>)
    ensures r.None? <==> AllBinned(required, binned)
    ensures r.Some? ==> r.value in required && r.value !in binned
    decreases |required|
  {
    if required == [] then None
    else if required[0] !in binned then Some(required[0])
    else
      var r := FirstMissing(required[1..], binned);
      assert AllBinned(required[1..], binned) ==> AllBinned(required, binned) by {
        if AllBinned(required[1..], binned) {
          forall i | 0 <= i < |required| ensures required[i] in binned
          {
            if i > 0 {
              assert required[i] == required[1..][i - 1];
            }
          }
        }
      }
      r
  }

  datatype Verdict = Rejected(message: string) | Accepted

  /** The decision of `validateSolution` on the player's arrows and the set
      of archived clue ids. */
  function Validate(h: Hasher, edges: seq<Edge>, binned: set<string>, sol: Solution): (v: Verdict)
    // a clue that should be archived but is not: the generic failure, before the hash is looked at
    ensures !AllBinned(RequiredBins(sol), binned) ==> v == Rejected(InsufficientData)
    // bins fine but no usable hash: the distinct system error
    ensures AllBinned(RequiredBins(sol), binned) && !HashPresent(sol) ==> v == Rejected(MissingHash)
    // success exactly when the bins are fine and the digests match
    ensures v == Accepted <==>
              AllBinned(RequiredBins(sol), binned) && HashPresent(sol) && h(Serialize(edges)) == sol.hash.value
    // every failure says one of two things
    ensures v.Rejected? ==> v.message == InsufficientData || v.message == MissingHash
  {
    if FirstMissing(RequiredBins(sol), binned).Some? then Rejected(InsufficientData)
    else if !HashPresent(sol) then Rejected(MissingHash)
    else
      var playerString := Serialize(edges);
      var playerHash: string := h(playerString);
      if playerHash == sol.hash.value then Accepted else Rejected(InsufficientData)
  }

  /** The feedback shown for a verdict of `Validate`: the success message
      exactly on acceptance, one of the two failure messages otherwise. */
  function Feedback(v: Verdict): (m: string)
    requires v.Rejected? ==> v.message == InsufficientData || v.message == MissingHash
    ensures m == ContractFulfilled <==> v.Accepted?
    ensures v.Rejected? ==> m == v.message
  {
    if v.Accepted? then ContractFulfilled else v.message
  }

  /** A player cannot tell a clue left on the board from wrong arrows: both
      failures produce the identical verdict. */
  lemma FailuresIndistinguishable(h: Hasher, e1: seq<Edge>, b1: set<string>, s1: Solution,
                                  e2: seq<Edge>, b2: set<string>, s2: Solution)
    requires !AllBinned(RequiredBins(s1), b1)
    requires AllBinned(RequiredBins(s2), b2) && HashPresent(s2) && h(Serialize(e2)) != s2.hash.value
    ensures Validate(h, e1, b1, s1) == Validate(h, e2, b2, s2) == Rejected(InsufficientData)
  {
  }

  /** The verdict depends on the arrows only through their serialised form:
      the order in which they were drawn does not matter. */
  lemma VerdictIgnoresOrder(h: Hasher, e1: seq<Edge>, e2: seq<Edge>, binned: set<string>, sol: Solution)
    requires multiset(e1) == multiset(e2)
    ensures Validate(h, e1, binned, sol) == Validate(h, e2, binned, sol)
  {
    SerializePermutation(e1, e2);
  }

  /** The authored solution, closed and hashed by the updater, is accepted
      when the player's board holds its arrows in any order with the
      required clues archived. */
  lemma AuthoredSolutionAccepted(h: Hasher, admin: seq<Edge>, f: LevelFile, player: seq<Edge>,
                                 binned: set<string>, mustBin: Option<seq<string>>)
    requires multiset(player) == multiset(Expand(UpdateHash, admin))
    requires AllBinned(if mustBin.Some? then mustBin.value else [], binned)
    ensures Validate(h, player, binned, Solution(mustBin, UpdateLevel(h, Some(admin), f).0.hash)) == Accepted
  {
    SerializePermutation(player, Expand(UpdateHash, admin));
  }

  /** Against a freshly updated level file with no clues to archive, the
      board is accepted exactly when its digest equals the level hash. */
  lemma AcceptedIffDigestsMatch(h: Hasher, board: seq<Edge>, binned: set<string>, admin: seq<Edge>, f: LevelFile)
    ensures Validate(h, board, binned, Solution(None, UpdateLevel(h, Some(admin), f).0.hash)) == Accepted
            <==> h(Serialize(board)) == LevelHash(h, admin)
  {
    var digest: string := h(Serialize(Expand(UpdateHash, admin)));
    assert |digest| == 64;
  }

  // ---------------------------------------------------------------------
  // After a fulfilled contract
  // ---------------------------------------------------------------------

  /** `meta.journal || "Case resolved."`. */
  function JournalText(m: Meta): string
  {
    if m.journal.None? || m.journal.value == "" then DefaultJournal else m.journal.value
  }

  datatype Next = Victory | Load(id: int)

  /** Where a fulfilled level leads: the following level, or the victory
      sequence once the following level would be past the last one. */
  function NextStep(current: int): (n: Next)
    ensures n.Load? ==> n.id == current + 1 && n.id <= LastLevel
    ensures n == Victory <==> current >= LastLevel
  {
    var nextId := current + 1;
    if nextId > LastLevel then Victory else Load(nextId)
  }

  /** The player's persistent state: the level on screen, the saved
      progress and the casebook. */
  datatype Progress = Progress(current: int, saved: Option<int>, log: seq<CaseLog.Entry>)

  datatype Outcome = Outcome(verdict: Verdict, progress: Progress, next: Option<Next>)

  /** `validateSolution` with its effects: on success the level is logged
      with its journal text, progress is saved as the following level, and
      that level (or the victory sequence) follows; on failure nothing
      changes. */
  function ValidateSolution(h: Hasher, g: Graph, level: Level, p: Progress): (o: Outcome)
    ensures o.verdict == Validate(h, g.edges, g.binned.Keys, level.solution)
    ensures o.verdict.Rejected? ==> o.progress == p && o.next.None?
    ensures o.verdict.Accepted? ==>
              && o.progress.current == p.current
              && o.progress.saved == Some(p.current + 1)
              && CaseLog.HasId(o.progress.log, p.current)
              && o.progress.log == CaseLog.SaveEntry(p.log, p.current, level.meta.title, JournalText(level.meta))
              && o.next == Some(NextStep(p.current))
  {
    var v := Validate(h, g.edges, g.binned.Keys, level.solution);
    if v.Rejected? then Outcome(v, p, None)
    else
      var log := CaseLog.SaveEntry(p.log, p.current, level.meta.title, JournalText(level.meta));
      Outcome(v, Progress(p.current, Some(p.current + 1), log), Some(NextStep(p.current)))
  }

  /** Loading the level a success leads to; the victory sequence stays put. */
  function Follow(p: Progress, n: Next): Progress
  {
    match n
    case Victory => p
    case Load(id) => p.(current := id)
  }

  /** The effect of fulfilling the level on screen, with `title` naming it. */
  function Fulfil(p: Progress, title: string): Progress
  {
    Follow(Progress(p.current, Some(p.current + 1), CaseLog.SaveEntry(p.log, p.current, title, DefaultJournal)),
           NextStep(p.current))
  }

  /** `k` levels fulfilled in a row. */
  function Campaign(p: Progress, title: int -> string, k: nat): Progress
    decreases k
  {
    if k == 0 then p else Campaign(Fulfil(p, title(p.current)), title, k - 1)
  }

  /** The state after fulfilling levels `1..k` from a fresh start: on the
      following level (the last one once all are done), progress saved as
      `k + 1`, and exactly those levels in the casebook, in order. */
  predicate AfterLevels(p: Progress, k: int)
  {
    && p.current == (if k < LastLevel then k + 1 else LastLevel)
    && p.saved == Some(k + 1)
    && |p.log| == k
    && forall i :: 0 <= i < |p.log| ==> p.log[i].id == i + 1
  }

  /** Fulfilling the level on screen extends the run by one. */
  lemma FulfilStep(q: Progress, title: string, j: int)
    requires 1 <= j < LastLevel && AfterLevels(q, j)
    ensures AfterLevels(Fulfil(q, title), j + 1)
  {
    var k := j + 1;
    assert forall i :: 0 <= i < |q.log| ==> q.log[i].id != k;
    var log := CaseLog.SaveEntry(q.log, q.current, title, DefaultJournal);
    assert log == q.log + [CaseLog.Entry(k, title, DefaultJournal)];
  }

  /** From a fresh start on level 1, fulfilling `k` levels in a row (at most
      thirty) leaves the player on level `k + 1` (on level 30 once all are
      done), with progress saved as `k + 1` and exactly the levels `1..k`
      in the casebook, in that order. */
  lemma {:induction false} CampaignProgress(title: int -> string, k: nat)
    requires 1 <= k <= LastLevel
    ensures AfterLevels(Campaign(Progress(1, None, []), title, k), k)
    decreases k
  {
    var p := Progress(1, None, []);
    if k == 1 {
      assert !CaseLog.HasId([], 1);
      assert Campaign(p, title, 1) == Fulfil(p, title(1));
    } else {
      var j := k - 1;
      CampaignProgress(title, j);
      var q := Campaign(p, title, j);
      CampaignSplit(p, title, j);
      FulfilStep(q, title(q.current), j);
    }
  }

  lemma {:induction false} CampaignSplit(p: Progress, title: int -> string, k: nat)
    ensures Campaign(p, title, k + 1) == Fulfil(Campaign(p, title, k), title(Campaign(p, title, k).current))
    decreases k
  {
    if k > 0 {
      CampaignSplit(Fulfil(p, title(p.current)), title, k - 1);
    }
  }

  /** The thirtieth success in a row is the one that starts the victory
      sequence; none before it does. */
  lemma VictoryAfterThirty(title: int -> string, k: nat)
    requires 1 <= k <= LastLevel
    ensures NextStep(Campaign(Progress(1, None, []), title, k - 1).current) == Victory <==> k == LastLevel
  {
    if k > 1 {
      CampaignProgress(title, k - 1);
    }
  }

  // ---------------------------------------------------------------------
  // Music
  // ---------------------------------------------------------------------

  datatype Track = Calm | Tense | Action

  /** The track `setupLevel` plays for a level id. */
  function TrackFor(id: int): (r: Track)
    ensures r == Calm <==> id <= 10
    ensures r == Tense <==> 11 <= id <= 25
    ensures r == Action <==> id >= 26
  {
    if id >= 26 then Action else if id >= 11 then Tense else Calm
  }

  function Intensity(t: Track): nat
  {
    match t
    case Calm => 0
    case Tense => 1
    case Action => 2
  }

  /** The music never calms down as the level number grows, and the three
      bands are levels up to 10, 11 to 25, and 26 onwards. */
  lemma TrackMonotone(a: int, b: int)
    requires a <= b
    ensures Intensity(TrackFor(a)) <= Intensity(TrackFor(b))
    ensures TrackFor(a) == Calm <==> a <= 10
    ensures TrackFor(a) == Action <==> a >= 26
  {
  }

  // ---------------------------------------------------------------------
  // Building the board
  // ---------------------------------------------------------------------

  /** What `setupLevel` starts: the board, the morph engine, the countdown,
      and the music. */
  datatype Session = Session(graph: Graph, engine: Interference.Engine, timer: Timer.Timer, track: Track)

  /** `timerSeconds || null`: a missing or zero limit means none. */
  function TimeLimit(m: Meta): Option<int>
  {
    if m.timerSeconds.None? || m.timerSeconds.value == 0 then None else m.timerSeconds
  }

  /** The node record `addNode` receives; `jitter` stands for the random
      position of a node the level does not place. */
  function NodeOf(n: NodeSpec, jitter: (int, int)): Node
  {
    var pos := if n.position.Some? then n.position.value else jitter;
    Node(n.id, n.text, n.kind, pos.0, pos.1)
  }

  /** No later node in the list carries the same id as node `i`, so its
      registrations are the ones that stay. */
  predicate LastOf(nodes: seq<NodeSpec>, i: int)
    requires 0 <= i < |nodes|
  {
    forall j :: i < j < |nodes| ==> nodes[j].id != nodes[i].id
  }

  function IdsFrom(nodes: seq<NodeSpec>, from: nat): set<string>
    requires from <= |nodes|
  {
    set i | from <= i < |nodes| :: nodes[i].id
  }

  function MorphIdsFrom(nodes: seq<NodeSpec>, from: nat): set<string>
    requires from <= |nodes|
  {
    set i | from <= i < |nodes| && nodes[i].morph.Some? :: nodes[i].id
  }

  /** The board half of the spawn loop, from node `from` on: every node
      is added, a later node replacing an earlier one with the same id. The
      loop's two halves do not interact, so they are modelled as two passes. */
  function SpawnBoard(g: Graph, nodes: seq<NodeSpec>, jitter: int -> (int, int), from: nat): (r: Graph)
    requires from <= |nodes|
    ensures r.edges == g.edges && r.binned == g.binned && r.notifications == g.notifications
    ensures r.nodes.Keys == g.nodes.Keys + IdsFrom(nodes, from)
    ensures forall i :: from <= i < |nodes| && LastOf(nodes, i) ==> r.nodes[nodes[i].id] == NodeOf(nodes[i], jitter(i))
    ensures forall k :: k in g.nodes && k !in IdsFrom(nodes, from) ==> r.nodes[k] == g.nodes[k]
    decreases |nodes| - from
  {
    if from == |nodes| then g
    else
      var k := from + 1;
      var r := SpawnBoard(AddNode(g, NodeOf(nodes[from], jitter(from))), nodes, jitter, k);
      SpawnSets(nodes, from, k);
      assert LastOf(nodes, from) ==> nodes[from].id !in IdsFrom(nodes, k);
      r
  }

  /** The morph half of the spawn loop: every node with a morph is
      registered, a later registration replacing an earlier one. */
  function SpawnMorphs(e: Interference.Engine, nodes: seq<NodeSpec>, from: nat): (r: Interference.Engine)
    requires from <= |nodes|
    ensures r.active.Keys == e.active.Keys + MorphIdsFrom(nodes, from)
    ensures forall i :: from <= i < |nodes| && LastOf(nodes, i) && nodes[i].morph.Some? ==>
              r.active[nodes[i].id].newText == nodes[i].morph.value.text
    ensures forall k :: k in e.active && k !in IdsFrom(nodes, from) ==> r.active[k] == e.active[k]
    ensures r.triggered == e.triggered && r.completed == e.completed
    decreases |nodes| - from
  {
    if from == |nodes| then e
    else
      var n := nodes[from];
      var e' := if n.morph.Some? then Interference.RegisterMorph(e, n.id, n.morph.value.text, n.morph.value.minTime, n.morph.value.maxTime) else e;
      var k := from + 1;
      var r := SpawnMorphs(e', nodes, k);
      SpawnSets(nodes, from, k);
      assert LastOf(nodes, from) ==> n.id !in IdsFrom(nodes, k);
      r
  }

  lemma SpawnSets(nodes: seq<NodeSpec>, from: nat, k: nat)
    requires from < |nodes| && k == from + 1
    ensures IdsFrom(nodes, from) == {nodes[from].id} + IdsFrom(nodes, k)
    ensures MorphIdsFrom(nodes, from)
            == (if nodes[from].morph.Some? then {nodes[from].id} else {}) + MorphIdsFrom(nodes, k)
  {
    assert nodes[from].id in IdsFrom(nodes, from);
  }

  /** The ids of the level's morphing nodes. */
  function MorphIds(level: Level): set<string>
  {
    MorphIdsFrom(level.nodes, 0)
  }

  /** `setupLevel` as written: the board is cleared, the nodes are spawned
      and their morphs registered, the countdown starts, and only then is
      the morph engine reset for the level's intensity. */
  function SetupAsWritten(s: Session, level: Level, jitter: int -> (int, int)): (r: Session)
    ensures r.graph.edges == [] && r.graph.binned == map[]
    ensures r.graph.nodes.Keys == IdsFrom(level.nodes, 0)
    ensures r.engine.active == map[]
    ensures r.timer == Timer.Start(s.timer, TimeLimit(level.meta))
    ensures r.track == TrackFor(level.meta.id)
  {
    var g := Clear(s.graph);
    var board := SpawnBoard(g, level.nodes, jitter, 0);
    var armed := SpawnMorphs(s.engine, level.nodes, 0);
    var t := Timer.Start(s.timer, TimeLimit(level.meta));
    var e := Interference.SetLevelIntensity(armed, Interference.OrDefault(level.meta.glitchIntensity, 0));
    Session(board, e, t, TrackFor(level.meta.id))
  }

  /** A one-node level whose node is meant to morph, showing the loss. */
  lemma AsWrittenCounterexample(s: Session, jitter: int -> (int, int))
    ensures var level := Level(Meta(5, "CASE", None, None, None),
                               [NodeSpec("n1", "A", "fact", None, Some(MorphSpec("B", None, None)))],
                               Solution(None, None));
            MorphIds(level) == {"n1"} && "n1" !in SetupAsWritten(s, level, jitter).engine.active
  {
    var level := Level(Meta(5, "CASE", None, None, None),
                       [NodeSpec("n1", "A", "fact", None, Some(MorphSpec("B", None, None)))],
                       Solution(None, None));
    SpawnSets(level.nodes, 0, 1);
  }

  /** `setupLevel` with the reset moved before the spawn loop, so that the
      registrations of the new level survive it. */
  function Setup(s: Session, level: Level, jitter: int -> (int, int)): (r: Session)
    ensures r.graph.edges == [] && r.graph.binned == map[]
    ensures r.graph.nodes.Keys == IdsFrom(level.nodes, 0)
    ensures forall i :: 0 <= i < |level.nodes| && LastOf(level.nodes, i) ==>
              r.graph.nodes[level.nodes[i].id] == NodeOf(level.nodes[i], jitter(i))
    ensures r.engine.active.Keys == MorphIds(level)
    ensures forall i :: 0 <= i < |level.nodes| && LastOf(level.nodes, i) && level.nodes[i].morph.Some? ==>
              r.engine.active[level.nodes[i].id].newText == level.nodes[i].morph.value.text
    ensures r.engine.triggered == {} && r.engine.completed == {}
    ensures r.timer == Timer.Start(s.timer, TimeLimit(level.meta))
    ensures r.track == TrackFor(level.meta.id)
  {
    var g := Clear(s.graph);
    var e := Interference.SetLevelIntensity(s.engine, Interference.OrDefault(level.meta.glitchIntensity, 0));
    var t := Timer.Start(s.timer, TimeLimit(level.meta));
    Session(SpawnBoard(g, level.nodes, jitter, 0), SpawnMorphs(e, level.nodes, 0), t, TrackFor(level.meta.id))
  }

  /** With the reset first, every morph the level declares is armed and
      consistent, and what the engine holds depends only on the level:
      nothing registered, started or completed before survives. */
  lemma SetupArmsMorphs(s1: Session, s2: Session, level: Level, jitter: int -> (int, int))
    ensures Setup(s1, level, jitter).engine == Setup(s2, level, jitter).engine
    ensures Interference.Consistent(Setup(s1, level, jitter).engine)
    ensures MorphIds(level) <= Setup(s1, level, jitter).graph.nodes.Keys
  {
    assert MorphIds(level) <= IdsFrom(level.nodes, 0);
  }

  /** With the corrected setup, the first board that links a morphing clue
      starts its countdown; as written, no board ever starts one. */
  lemma FirstLinkStartsMorph(s: Session, level: Level, jitter: int -> (int, int), edges: seq<Edge>, id: string)
    requires id in MorphIds(level) && id in Ids(edges)
    ensures id in Interference.Started(Setup(s, level, jitter).engine, edges)
    ensures Interference.Started(SetupAsWritten(s, level, jitter).engine, edges) == {}
  {
  }
}
