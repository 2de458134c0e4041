# The Dublin Contract — a verified model of the deduction engine

*The Dublin Contract* is a browser detective game. Each level shows a board
of clue cards. The player archives the false clues ("bins" them) and draws
typed arrows between the rest. The arrow types are sequence, consequence
and simultaneity. A board is accepted when its arrows, sorted and
serialised, hash to the digest stored in the level file. Two build
scripts prepare those digests:
- the solution expander closes each authored solution under simultaneity;
- the hash updater closes each solution again, serialises it, hashes it
  and writes the hash into the level file.

This project models, in Dafny, the parts of the game that decide what a
board means and whether it is accepted:

- `Edges`: the arrow record and the connection predicates everything is
  stated in (`Connected`, `SimLinked`, `HasDirected`, `UniquePairs`,
  `SimClosed`).
- `Graph`: the runtime graph. It covers insertion with overwrite per ordered
  pair, the recursive simultaneity auto-link, removal, archiving and
  restoring, and a counter of subscriber notifications. `GraphLaws` relates
  several graph operations. `PropagationLaws` states what the recursive
  auto-link achieves over many insertions: on a board of simultaneity
  arrows it keeps the undirected relation transitively closed, and it adds
  no link outside the least closed relation holding the drawn ones.
- `Closure` and `ClosureLaws`: the offline closure loop, written once. A
  `Variant` parameter picks which script's pair choice it uses. The laws
  cover append-only growth, closure at exit, idempotence, and when the two
  scripts agree.
- `Canonical`: `serializeEdges`, a stable sort of source/target/type
  triples. Serialisation ignores the order of the input and, conversely,
  determines the multiset of edges.
- `Offline`: the two scripts' main loops. `UpdateLevel` and `UpdateAll`
  model the hash updater; `WriteBack` and `ExpandAll` model the solution
  expander.
- `Levels`: the verdict of `validateSolution`, its effects on progress and
  the casebook, the level-30 victory, the music tier, and building the board
  for a level.
- `Selection`: clicking clues, cycling an arrow's type, and clearing the
  selection.
- `Timer`: the mission countdown and its `mm:ss` display.
- `CaseLog`: the casebook. Entries are deduplicated per level and shown
  newest first with a `#NNN` label.
- `Interference`: node morphing. A registered clue starts a hidden countdown
  when first linked, and its text is later replaced.
- `Agreement`: compares the board's own simultaneity propagation with the
  offline closure. On boards of simultaneity arrows the two give the same
  undirected relation; the arrows' directions can differ, and so can the
  relation once another arrow type joins a pair, because the runtime skips a
  pair joined by an arrow of any type (engine/graph.js:25-30, 81, 90) while
  the scripts look only at simultaneity arrows.
- `Text`: integer-to-string and `padStart`, with a read-back function.

## Model

| member | source | states |
|---|---|---|
| Graph.Empty | engine/graph.js:6-11 | a new graph has no nodes, no archived nodes, no arrows and no notifications |
| Graph.GetEdge | engine/graph.js:60-62 | finds an arrow on the ordered pair exactly when one exists; with one arrow per pair it is that arrow |
| Graph.Clear | engine/graph.js:13-18 | empties both maps and the arrow list and notifies once |
| Graph.AddNode | engine/graph.js:20-22 | the node is stored under its id; every other id, the archive and the arrows are untouched; no notification |
| Graph.HasAnyConnection | engine/graph.js:25-30 | true exactly when an arrow of any type joins the two ids, in either direction (symmetric) |
| Graph.RemoveEdge | engine/graph.js:55-58 | exactly the arrows on the ordered pair are dropped, the list is unchanged when there were none, and one notification is sent |
| Graph.AddEdge | engine/graph.js:33-53 | an identical arrow already there: nothing changes. Otherwise (s,t) ends up with the requested type; the other arrows survive and the reverse direction is untouched; only simultaneity links are added besides (s,t); one arrow per pair is kept; every earlier simultaneity neighbour of one end becomes connected to the other end; notifications are 1, or 2 on overwrite |
| Graph.Overwrite | engine/graph.js:39-52 | drop, push and propagate past the early return, with the same guarantees and the exact notification count |
| Graph.SimNeighbours | engine/graph.js:67-76 | lists exactly the ids joined to `a` by a simultaneity arrow, other than `b` |
| Graph.LinkAll | engine/graph.js:79-94 | afterwards the hub is connected to every listed neighbour; everything appended is a simultaneity arrow on a pair no arrow of any type connected before; the id set does not grow |
| Graph.LinkOne | engine/graph.js:81-84 | pushing (hub, n) on an unconnected pair connects it and strictly shrinks the unconnected pairs, which bounds the recursion |
| Graph.Propagate | engine/graph.js:65-95 | every simultaneity neighbour of `a` (other than `b`) ends connected to `b`, and vice versa, adding only fresh simultaneity arrows |
| Graph.BinNode | engine/graph.js:99-108 | an active node moves to the archive and every arrow touching it is removed, the rest kept; an unknown id is a no-op |
| Graph.RestoreNode | engine/graph.js:110-118 | an archived node moves back to the active map with its arrows unchanged; an unknown id is a no-op |
| GraphLaws.ApplyKeepsUnique | engine/graph.js:13-118 | every graph operation keeps at most one arrow per ordered pair |
| GraphLaws.RunKeepsUnique | engine/graph.js:13-118 | any sequence of graph operations keeps at most one arrow per ordered pair |
| GraphLaws.BinRestoreRoundTrip | engine/graph.js:99-118 | archive then restore gives back the node and the archive; the node's arrows stay gone and all others stay; two notifications |
| GraphLaws.RestoreBinRoundTrip | engine/graph.js:99-118 | restore then archive gives back both maps, with the node's arrows removed |
| GraphLaws.RemoveEdgeKeepsOrder | engine/graph.js:56 | removal acts on each part of a split list separately, so survivors keep their order |
| GraphLaws.SimultaneityScenario | engine/graph.js:33-95 | linking n1–n2 and then n2–n3 as simultaneous gives exactly n1→n2, n2→n3, n3→n1 |
| GraphLaws.OverwriteScenario | engine/graph.js:33-53 | a consequence arrow drawn over a sequence arrow on the same pair leaves one arrow, typed consequence |
| GraphLaws.LinkAllConnected | engine/graph.js:79-85 | when the hub already reaches every neighbour the linking loop adds nothing |
| Edges.AllSimGuardsCoincide | engine/graph.js:25-30 | on a board of simultaneity arrows, the runtime's any-type connection test and the scripts' simultaneity-only test agree |
| PropagationLaws.PropagateSettles | engine/graph.js:65-95 | every arrow the propagation pushes is itself propagated from: each end ends up connected to every simultaneity neighbour the other end had when it was pushed |
| PropagationLaws.AddSimKeepsClosed | engine/graph.js:33-95 | drawing a simultaneity arrow on a board of simultaneity arrows whose relation is transitively closed leaves such a board |
| PropagationLaws.AddSimKeepsLinks | engine/graph.js:33-95 | drawing a simultaneity arrow keeps every existing link and links its two ends |
| PropagationLaws.AddSimWithin | engine/graph.js:33-95 | every link the insertion and its propagation add lies inside any transitively closed relation that holds the board's links and the drawn pair |
| PropagationLaws.DrawClosed | engine/graph.js:33-95 | drawing any list of simultaneity arrows from a closed board of simultaneity arrows keeps it closed |
| PropagationLaws.DrawKeepsLinks | engine/graph.js:33-95 | after drawing a list, every drawn pair and every earlier link is linked |
| PropagationLaws.DrawWithin | engine/graph.js:33-95 | drawing a list adds no link outside any closed relation holding the earlier links and the drawn pairs |
| Closure.Sims | expand-solutions.js:24 | keeps exactly the simultaneity arrows |
| Closure.Propose | expand-solutions.js:33-41 | a proposed link joins an endpoint of the first arrow to an endpoint of the second, and never links an id to itself |
| Closure.ProposeAgree | update-hash.js:39-58 | the two scripts' pair choices coincide whenever no endpoint is the empty string |
| Closure.ProposeChain | update-hash.js:39-59 | for arrows x–y and y–z with x ≠ z, either script proposes exactly (x, z) |
| Closure.Step | expand-solutions.js:41-53 | the list grows by at most one arrow; an added arrow is a simultaneity arrow on a pair no simultaneity arrow joined, and no new id appears |
| Closure.Round | expand-solutions.js:24-56 | one pass over the snapshot of simultaneity arrows keeps the input as a prefix, appends only simultaneity arrows and introduces no id |
| Closure.Expand | expand-solutions.js:17-59 | the input is a prefix of the result, and no new id appears |
| ClosureLaws.ExpandAppendOnly | expand-solutions.js:17-59 | the input survives as a prefix; every appended arrow is a simultaneity link between two distinct ids already present, on a pair no earlier simultaneity arrow joined |
| ClosureLaws.ExpandClosed | expand-solutions.js:22-57 | with no empty id, the result's simultaneity relation is transitively closed |
| ClosureLaws.ExpandIsFixpoint | expand-solutions.js:22-57 | one more round over the result adds nothing |
| ClosureLaws.ExpandIdempotent | update-hash.js:21-67 | closing a closed list changes nothing |
| ClosureLaws.ProposeSound | expand-solutions.js:33-39 | every proposal short-cuts a two-arrow path through a common id |
| ClosureLaws.ClosedInputUnchanged | expand-solutions.js:22-57 | an already closed list is returned unchanged |
| ClosureLaws.ExpandWithin | expand-solutions.js:22-57 | the closure adds no link outside any closed relation holding the input's links, so it is the least closed extension |
| ClosureLaws.ScriptsAgree | update-hash.js:19-67 | with no empty id, the expander and the updater compute the identical list, direction included |
| ClosureLaws.ScriptsDivergeOnEmptyId | update-hash.js:46 | on A–B, B–"" the expander appends (A, "") and the updater appends ("", A), because "" is falsy |
| Canonical.TripleOrder | engine/level-manager.js:133-137 | the comparator (source, then target, then type) is a strict total order |
| Canonical.Insert | engine/level-manager.js:133-137 | inserting into a sorted list keeps it sorted and adds exactly that element |
| Canonical.Sort | engine/level-manager.js:133-137 | the result is sorted and a permutation of the input |
| Canonical.SortedUnique | engine/level-manager.js:133-137 | two sorted permutations of the same triples are equal |
| Canonical.Serialize | engine/level-manager.js:126-140 | the result is sorted, the same length as the input, and a permutation of the input's triples |
| Canonical.SerializePermutation | update-hash.js:70-84 | any reordering of the arrows serialises identically |
| Canonical.SerializeDeterminesEdges | engine/level-manager.js:126-140 | equal serialisations come only from permutations of the same arrows |
| Canonical.TriplesCount | engine/level-manager.js:127-131 | each arrow occurs among the triples as often as in the list |
| Offline.UpdateLevel | update-hash.js:103-130 | no authored solution: the file is untouched. Otherwise the stored hash becomes the closure's digest; the file is rewritten, with stray edges removed, exactly when the old hash differed |
| Offline.UpdateLevelIdempotent | update-hash.js:122-130 | a second run of the updater rewrites nothing |
| Offline.UpdateAll | update-hash.js:91-137 | each file is updated on its own, files without a solution stay as they were, and the count is the number of files that changed |
| Offline.WriteBack | expand-solutions.js:64-73 | what stays in the solutions file is the closure, and the level is counted exactly when the closure added something |
| Offline.WriteBackRerun | expand-solutions.js:64-73 | a second expander run counts nothing and changes nothing |
| Offline.ExpandAll | expand-solutions.js:62-73 | every solution is replaced by its closure, and the count is the number that changed |
| Offline.PipelineStable | update-hash.js:103-116 | with no empty id, running the expander first does not change any level's hash |
| Levels.FirstMissing | engine/level-manager.js:192-199 | finds a clue that should be archived but is not, exactly when one exists |
| Levels.Validate | engine/level-manager.js:186-240 | accepted exactly when every required clue is archived, a hash is present, and the digests match. A missing clue gives the generic failure, even before a missing hash. A missing hash gives the system error. Wrong arrows give the generic failure |
| Levels.Feedback | engine/level-manager.js:196-238 | the success message is shown exactly on acceptance |
| Levels.FailuresIndistinguishable | engine/level-manager.js:196-238 | a clue left on the board and wrong arrows produce the identical verdict |
| Levels.VerdictIgnoresOrder | engine/level-manager.js:210-213 | the verdict does not depend on the order the arrows were drawn in |
| Levels.AcceptedIffDigestsMatch | engine/level-manager.js:202-213 | against a freshly updated level file with no clues to archive, a board is accepted exactly when its digest equals the level hash |
| Levels.AuthoredSolutionAccepted | engine/level-manager.js:210-215 | a board holding the closed authored solution in any order, with the required clues archived, is accepted against the hash the updater wrote |
| Levels.NextStep | engine/level-manager.js:220-234 | a fulfilled level leads to the next one, or to the victory sequence exactly when the current level is 30 or beyond |
| Levels.ValidateSolution | engine/level-manager.js:186-240 | on failure nothing changes. On success the level is logged with its journal text, progress is saved as the next id, and the next level or the victory follows |
| Levels.FulfilStep | engine/level-manager.js:217-234 | fulfilling the level on screen extends a fresh run by one logged level |
| Levels.CampaignProgress | engine/level-manager.js:217-234 | after k successes from level 1, the player is on level k+1 (level 30 once all are done), progress is saved as k+1, and the casebook holds levels 1..k in order |
| Levels.VictoryAfterThirty | engine/level-manager.js:220-228 | the thirtieth success in a row, and no earlier one, starts the victory sequence |
| Levels.TrackFor | engine/level-manager.js:115-121 | the three music bands: calm up to level 10, tense for 11 to 25, action from 26 |
| Levels.TrackMonotone | engine/level-manager.js:115-121 | the music never calms as the level grows: calm up to 10, tense from 11, action from 26 |
| Levels.SpawnBoard | engine/level-manager.js:82-91 | every level node is on the board with its given or jittered position; the last node with an id wins; arrows and archive untouched |
| Levels.SpawnMorphs | engine/level-manager.js:93-100 | exactly the nodes with a morph are registered, each with its replacement text |
| Levels.SetupAsWritten | engine/level-manager.js:68-121 | as written: the board holds the level's nodes and no arrows, the countdown and the music are as the level says, and no morph is registered, whatever the level |
| Levels.AsWrittenCounterexample | engine/level-manager.js:93-112 | a one-node level whose node should morph ends with that node unregistered |
| Levels.Setup | engine/level-manager.js:68-122 | corrected setup: the board holds exactly the level's nodes and no arrows; every morphing node is registered with its text; nothing is started; the countdown and the music are as the level says |
| Levels.SetupArmsMorphs | engine/level-manager.js:68-112 | the engine a level starts with depends only on the level, is consistent, and registers only nodes on the board |
| Levels.FirstLinkStartsMorph | engine/interference.js:32-44 | after the corrected setup, the first board linking a morphing clue starts its countdown; as written no countdown ever starts |
| Selection.HandleNodeClick | engine/ui.js:181-206 | clicking the picked clue puts it down; with nothing picked the clue is picked; otherwise the two are linked by a sequence arrow unless one already runs that way, and that arrow is selected |
| Selection.ClickSafe | engine/ui.js:194-203 | a click never draws a self-loop, never loses an arrow, keeps one arrow per pair, and after a link the selected arrow exists |
| Selection.PickPutDown | engine/ui.js:181-192 | picking a clue and clicking it again restores the selection and the graph |
| Selection.ClickTwice | engine/ui.js:181-206 | clicking two distinct clues in turn selects the arrow between them, creating a sequence arrow when none existed |
| Selection.IndexOf | engine/ui.js:219-220 | every arrow type has its place in the button's cycle |
| Selection.NextKind | engine/ui.js:219-221 | the next type is one of the three and never the current one |
| Selection.CycleLaws | engine/ui.js:219-221 | each press changes the type: sequence → consequence → simultaneity → sequence |
| Selection.CycleArrowType | engine/ui.js:215-224 | a missing arrow is a no-op; otherwise the arrow on that pair gets the next type, and one arrow per pair is kept |
| Selection.ThreePresses | engine/ui.js:215-224 | three presses bring the arrow's type back |
| Selection.DeselectAll | engine/ui.js:161-167 | nothing stays selected |
| Selection.DropStale | engine/ui.js:440-451 | a selected arrow that no longer exists is dropped; an existing one, and the picked clue, are kept |
| Selection.DropStaleIdempotent | engine/ui.js:446-450 | dropping twice is dropping once |
| Text.Digits | utils/timers.js:63 | the decimal spelling is all digits, with no leading zero |
| Text.IntToString | utils/timers.js:63 | a non-negative number is spelled in digits; a negative one as a minus sign and the digits of its magnitude |
| Text.PadStart | utils/timers.js:63 | the string is kept as the suffix, filled on the left up to the width |
| Text.ValueDigits | utils/timers.js:63 | the decimal spelling reads back as the number |
| Text.PaddedValue | engine/case-log.js:89 | a zero-padded spelling is all digits, reads back as the number, and is at least the width |
| Timer.Initial | utils/timers.js:7-13 | a new timer is stopped at zero and has never expired |
| Timer.JsRem | utils/timers.js:61 | JavaScript's truncating remainder: the Euclidean one for non-negative counts; for a negative count, the negated remainder of its magnitude, so the quotient is truncated toward zero and the remainder is above -d and at most 0 |
| Timer.Stop | utils/timers.js:34-40 | the timer stops; nothing else changes |
| Timer.Start | utils/timers.js:15-32 | no limit or a non-positive one: stopped, showing the no-limit notice, not red. Otherwise running from that many seconds and showing them |
| Timer.Tick | utils/timers.js:42-57 | a stopped timer ignores ticks. A running one loses a second, is red exactly at 30 or below, stops exactly at 0, and expires exactly once, when it reaches 0 |
| Timer.OperationsKeepValid | utils/timers.js:15-57 | every operation keeps the count from going below zero, and a running timer always has time left |
| Timer.Running | utils/timers.js:42-57 | fewer ticks than the seconds left: still running, one second gone per tick, no expiry |
| Timer.Stopped | utils/timers.js:34-57 | a stopped timer stays as it is, however many ticks follow |
| Timer.Countdown | utils/timers.js:15-57 | started with s > 0 seconds, the timer runs for exactly s ticks, expires once at the s-th, and nothing changes afterwards |
| Timer.Display | utils/timers.js:59-65 | at least five characters with a colon; for a non-negative count the colon is third from the end, and a negative count is shown with a leading minus sign |
| Timer.Field | utils/timers.js:63 | a zero-padded field has at least two characters, exactly two below 100, and a leading minus sign when negative |
| Timer.DisplayReadable | utils/timers.js:59-65 | for a non-negative count the display is mm:ss with ss below 60 and 60·mm + ss equal to the count |
| Timer.ValidShown | utils/timers.js:59-65 | a valid timer never shows a negative clock |
| CaseLog.Find | engine/case-log.js:20 | finds an entry with the id exactly when one exists |
| CaseLog.SaveEntry | engine/case-log.js:18-31 | a level already logged is left alone; otherwise exactly one entry is appended; either way the level is logged |
| CaseLog.SaveKeepsUnique | engine/case-log.js:18-31 | saving keeps one entry per level |
| CaseLog.SaveIdempotent | engine/case-log.js:18-31 | saving a level again changes nothing, whatever the new title and text |
| CaseLog.SaveAllLaws | engine/case-log.js:18-31 | over any run of saves, ids stay unique, earlier entries keep their place, every saved level is present, and every entry comes from a save |
| CaseLog.InsertDesc | engine/case-log.js:81 | inserting into a descending list keeps it descending and adds exactly that entry |
| CaseLog.SortDesc | engine/case-log.js:81 | the sorted copy is descending by id and a permutation of the log |
| CaseLog.Render | engine/case-log.js:71-95 | the no-cases notice exactly for an empty log, otherwise one card per entry |
| CaseLog.RenderOrder | engine/case-log.js:80-94 | card i shows the i-th entry of a descending permutation of the log |
| CaseLog.DescendingUnique | engine/case-log.js:81 | with unique ids there is only one descending arrangement, so the rendered order is determined |
| CaseLog.Label | engine/case-log.js:89 | every label is '#' followed by at least three characters |
| CaseLog.LabelReadsBack | engine/case-log.js:89 | for a non-negative id, the label is '#' followed by at least three digits that read back as the id |
| Interference.Idle | engine/interference.js:6-14 | a new engine has nothing registered, started or completed |
| Interference.SetLevelIntensity | engine/interference.js:16-21 | forgets every registration, started countdown and completed morph |
| Interference.IntensityIgnored | engine/interference.js:16-21 | the reset depends on neither the engine's state nor the intensity argument |
| Interference.RegisterMorph | engine/interference.js:24-30 | registers or replaces the id's morph, with 0 or missing bounds defaulting to 60000 and 120000 ms; other ids untouched |
| Interference.Incident | engine/interference.js:38 | true exactly when some arrow touches the id |
| Interference.CheckForTriggers | engine/interference.js:32-48 | starts exactly the registered, not yet started ids that some arrow touches; never forgets a start |
| Interference.ChecksGrow | engine/interference.js:32-48 | repeated checks only add starts and change nothing else |
| Interference.StartedOnce | engine/interference.js:32-48 | between resets, each morph countdown starts at most once, and only for a registered, linked node |
| Interference.OperationsKeepConsistent | engine/interference.js:16-69 | every engine operation, the final morph included, keeps started countdowns among registered nodes |
| Interference.ExecuteMorph | engine/interference.js:58-69 | an active clue gets the new text, is marked completed, and one notification is sent; nothing else changes; an absent id is a no-op |
| Agreement.OfflineClosesForward | update-hash.js:21-67 | the updater closes n1–n2, n2–n3 by appending n1→n3 |
| Agreement.TrianglesSerialiseApart | engine/level-manager.js:126-140 | the triangle with n3→n1 and the one with n1→n3 serialise differently |
| Agreement.BoardAndHashDisagree | update-hash.js:19-21 | drawing n1–n2 then n2–n3 as simultaneous leaves n3→n1 on the board, while the hash covers n1→n3, so the board is accepted only if the hash collides |
| Agreement.UndirectedAgreement | update-hash.js:21-67 | drawing simultaneity arrows on an empty board and closing the authored list offline give the same undirected simultaneity relation, whatever the order and direction of drawing, when the drawn pairs are the list's simultaneity pairs and no id is empty |
| Agreement.DrawnSolutionAccepted | engine/level-manager.js:202-213 | a board drawn from simultaneity arrows is already closed, so either script leaves it unchanged and, authored as is, it is accepted when drawn again |
| Agreement.GuardsDiffer | engine/graph.js:25-30 | drawing n1→n3 as a sequence arrow, then n1–n2 and n2–n3 as simultaneous, adds no n1–n3 link, because the sequence arrow already connects the pair; the board's simultaneity relation is left open |
| Agreement.MixedClosure | update-hash.js:52-59 | the updater, which looks only at simultaneity arrows, closes the same list by appending n1→n3 as a simultaneity arrow beside the sequence arrow |
| Agreement.MixedSerialisesApart | engine/level-manager.js:126-140 | no board with one arrow per ordered pair serialises like that closure, which has two arrows on n1→n3 |
| Agreement.MixedHashUnreachable | engine/level-manager.js:202-213 | for the level authored with that list, no board the player can build serialises like the hashed closure, so one is accepted only if the hash collides |

## Left out

- Rendering, DOM, CSS classes, modals, drag and pan, audio playback and the console logs are not modelled.
- Subscriber callbacks become a notification counter. `checkForTriggers` runs on every `notify`; that wiring is left out, and `Interference.Checks` takes the sequence of boards the checks see.
- SHA-256 and `JSON.stringify` are not modelled. The digest is a function parameter `Hasher` from triple lists to 64-character strings. Serialising triples to JSON is one-to-one, so hashing the triples stands for hashing the text.
- Sorting uses code-unit order for `localeCompare`. The locale order can tie distinct strings; level ids and type names are ASCII.
- Arrow types are the closed set of three. A level file with any other type string is not modelled.
- Random node positions are a `jitter` parameter. The random morph delay and the `setTimeout` that runs `executeMorph` are not modelled; `ExecuteMorph` is what the timer finally runs.
- A morph countdown still pending when the next level loads may still fire. That needs the clock, which is left out.
- `PropagationLaws.AddSimKeepsClosed`: transitive closure after an insertion is proved only for boards whose arrows are all simultaneity arrows. `Agreement.GuardsDiffer` shows it fails once a sequence or consequence arrow joins a pair.
- `Agreement.UndirectedAgreement` is about the undirected relation only. `Agreement.BoardAndHashDisagree` shows the directions, and so the serialisations, can differ. No byte-level agreement is claimed.
- Whether authored solutions ever mix a sequence or consequence arrow with a simultaneity path over the same pair is not known here, because the solutions file is not part of this model. `Agreement.MixedHashUnreachable` shows such a level could not be solved.
- `ClosureLaws.ExpandClosed` and `ClosureLaws.ScriptsAgree` require that no id is the empty string; `ScriptsDivergeOnEmptyId` shows what happens otherwise.
- Fetching a level file, and the "ALL CONTRACTS FULFILLED." screen after a failed fetch, are I/O and not modelled. `saveProgress` and the case-log storage become fields of `Levels.Progress`, and the entry timestamp is left out.
- The hash updater's file-name parsing, the `.json` filter, reading and writing files, and the per-file error handler are left out. `Offline.UpdateAll` takes the parsed ids and contents.
- The developer backdoor that draws the admin solution is left out.
- The order of `Map` iteration in `checkForTriggers` only orders the `setTimeout` calls, so the model uses a set.
- `CaseLog.SortDesc`: the stable order of entries with equal ids is implemented but not stated. Saved logs never hold two entries with the same id.
- Positions are integers, while the source uses floating point pixels.
- `Timer.Display` of a negative count follows JavaScript (`Math.floor` and a truncating `%`). `Timer.DisplayReadable` is stated only for non-negative counts, which are the only ones a valid timer shows.
- `Levels.Fulfil` and `Levels.Campaign` log the default journal text. The campaign lemma is about ids, saved progress and order, not the text.

## Findings

| source | as written | input that shows it | evidently intended | confidence | as-written member | corrected member |
|---|---|---|---|---|---|---|
| engine/level-manager.js:93-112 | `setupLevel` registers each morphing node (lines 93-100) and then calls `setLevelIntensity` (line 112), which clears every registration | a level with one node `n1` carrying a `morph`: after setup `n1` is not registered, so no countdown ever starts and no clue morphs | reset the engine before the spawn loop, so the level's morphing nodes stay armed | high; not executed | Levels.AsWrittenCounterexample | Levels.Setup |
