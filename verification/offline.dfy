/** The two maintenance scripts run over the authored solutions: the
    expander rewrites the solutions file with every solution closed under
    simultaneity, and the hash updater stores in each level file the digest
    of the serialised, closed solution. File reading, JSON parsing and the
    log lines are not modelled. */
module Offline {
  import opened Edges
  import opened Closure
  import opened ClosureLaws
  import opened Canonical

  /** A SHA-256 digest in lower-case hexadecimal: 64 characters. */
  type Digest = s: string | |s| == 64
    witness "0000000000000000000000000000000000000000000000000000000000000000"

  /** The digest of the serialised text of an edge list. Serialising to
      JSON is one-to-one on triple lists, so the digest is taken over the
      triples directly; the hash function itself is a parameter. */
  type Hasher = seq<Triple> -> Digest

  /** The hash a level's solution should carry. */
  function LevelHash(h: Hasher, admin: seq<Edge>): string
  {
    h(Serialize(Expand(UpdateHash, admin)))
  }

  // ---------------------------------------------------------------------
  // The hash updater
  // ---------------------------------------------------------------------

  /** The part of a level file the updater touches: `solution.hash`, and a
      stray `solution.edges` list that must not be shipped. */
  datatype LevelFile = LevelFile(hash: Option<string>, edges: Option<seq<Edge>>)

  /** One level of the updater: a level with no authored solution is
      skipped; otherwise the file is rewritten, without stray edges, exactly
      when its stored hash differs from the fresh one. The flag says whether
      the file was rewritten. An authored empty list is an (empty) solution,
      since an empty array is truthy. */
  function UpdateLevel(h: Hasher, admin: Option<seq<Edge>>, f: LevelFile): (r: (LevelFile, bool))
    ensures admin.None? ==> r == (f, false)
    ensures admin.Some? ==> r.0.hash == Some(LevelHash(h, admin.value))
    ensures r.1 <==> admin.Some? && f.hash != Some(LevelHash(h, admin.value))
    ensures r.1 ==> r.0.edges.None?
    ensures r.1 <==> r.0 != f
  {
    if admin.None? then (f, false)
    else
      var edgeString := Serialize(Expand(UpdateHash, admin.value));
      var newHash: string := h(edgeString);
      if f.hash != Some(newHash) then (LevelFile(Some(newHash), None), true) else (f, false)
  }

  /** Running the updater twice rewrites nothing the second time. */
  lemma UpdateLevelIdempotent(h: Hasher, admin: Option<seq<Edge>>, f: LevelFile)
    ensures !UpdateLevel(h, admin, UpdateLevel(h, admin, f).0).1
    ensures UpdateLevel(h, admin, UpdateLevel(h, admin, f).0).0 == UpdateLevel(h, admin, f).0
  {
  }

  /** The number of positions at which two equally long lists differ. */
  function Differing<T(==)>(a: seq<T>, b: seq<T>): nat
    requires |a| == |b|
    decreases |a|
  {
    if a == [] then 0 else (if a[0] != b[0] then 1 else 0) + Differing(a[1..], b[1..])
  }

  lemma DifferingAppend<T>(a: seq<T>, b: seq<T>, x: T, y: T)
    requires |a| == |b|
    ensures Differing(a + [x], b + [y]) == Differing(a, b) + (if x != y then 1 else 0)
    decreases |a|
  {
    if a != [] {
      assert (a + [x])[1..] == a[1..] + [x];
      assert (b + [y])[1..] == b[1..] + [y];
      DifferingAppend(a[1..], b[1..], x, y);
    }
  }

  lemma DifferingStep<T>(a: seq<T>, b: seq<T>, i: nat, y: T)
    requires i < |a| && |b| == i
    ensures Differing(a[..i + 1], b + [y]) == Differing(a[..i], b) + (if a[i] != y then 1 else 0)
  {
    assert a[..i + 1] == a[..i] + [a[i]];
    DifferingAppend(a[..i], b, a[i], y);
  }

  /** The admin solution of a level, if there is one. */
  function Lookup(admin: map<int, seq<Edge>>, id: int): Option<seq<Edge>>
  {
    if id in admin then Some(admin[id]) else None
  }

  /** The updater's main loop over the level files (id and content): each
      file is processed on its own, and the count is the number of files
      rewritten. */
  method UpdateAll(h: Hasher, admin: map<int, seq<Edge>>, ids: seq<int>, files: seq<LevelFile>)
    returns (out: seq<LevelFile>, updated: nat)
    requires |ids| == |files|
    ensures |out| == |files|
    ensures forall i :: 0 <= i < |files| ==> out[i] == UpdateLevel(h, Lookup(admin, ids[i]), files[i]).0
    ensures forall i :: 0 <= i < |files| && ids[i] in admin ==> out[i].hash == Some(LevelHash(h, admin[ids[i]]))
    ensures forall i :: 0 <= i < |files| && ids[i] !in admin ==> out[i] == files[i]
    ensures updated == Differing(files, out)
    ensures updated <= |files|
  {
    out := [];
    updated := 0;
    var i := 0;
    while i < |files|
      invariant 0 <= i <= |files| && |out| == i
      invariant forall k :: 0 <= k < i ==> out[k] == UpdateLevel(h, Lookup(admin, ids[k]), files[k]).0
      invariant updated == Differing(files[..i], out)
      invariant updated <= i
    {
      var r := UpdateLevel(h, Lookup(admin, ids[i]), files[i]);
      DifferingStep(files, out, i, r.0);
      UpdatesExtend(h, admin, ids, files, out, i, r.0);
      out := out + [r.0];
      if r.1 {
        updated := updated + 1;
      }
      i := i + 1;
    }
    assert files[..i] == files;
    UpdatedFiles(h, admin, ids, files, out);
  }

  lemma UpdatesExtend(h: Hasher, admin: map<int, seq<Edge>>, ids: seq<int>, files: seq<LevelFile>,
                      out: seq<LevelFile>, i: nat, y: LevelFile)
    requires |ids| == |files| && i < |files| && |out| == i
    requires forall k :: 0 <= k < i ==> out[k] == UpdateLevel(h, Lookup(admin, ids[k]), files[k]).0
    requires y == UpdateLevel(h, Lookup(admin, ids[i]), files[i]).0
    ensures forall k :: 0 <= k < i + 1 ==> (out + [y])[k] == UpdateLevel(h, Lookup(admin, ids[k]), files[k]).0
  {
  }

  /** What each rewritten entry holds, read off the per-file update. */
  lemma UpdatedFiles(h: Hasher, admin: map<int, seq<Edge>>, ids: seq<int>, files: seq<LevelFile>, out: seq<LevelFile>)
    requires |ids| == |files| == |out|
    requires forall i :: 0 <= i < |files| ==> out[i] == UpdateLevel(h, Lookup(admin, ids[i]), files[i]).0
    ensures forall i :: 0 <= i < |files| && ids[i] in admin ==> out[i].hash == Some(LevelHash(h, admin[ids[i]]))
    ensures forall i :: 0 <= i < |files| && ids[i] !in admin ==> out[i] == files[i]
  {
  }

  // ---------------------------------------------------------------------
  // The solution expander
  // ---------------------------------------------------------------------

  /** One level of the expander: the closed list is written back, and the
      level counted, only when it is longer than the original. Either way
      what stays in the file is the closed list, and the level is counted
      exactly when the closure added something. */
  function WriteBack(original: seq<Edge>): (r: (seq<Edge>, bool))
    ensures r.0 == Expand(ExpandSolutions, original)
    ensures r.1 <==> r.0 != original
  {
    var expanded := Expand(ExpandSolutions, original);
    if |expanded| > |original| then (expanded, true)
    else
      assert expanded == expanded[..|original|];
      (original, false)
  }

  /** A second run of the expander counts nothing and changes nothing. */
  lemma WriteBackRerun(original: seq<Edge>)
    ensures WriteBack(WriteBack(original).0) == (WriteBack(original).0, false)
  {
    ExpandIdempotent(ExpandSolutions, original);
  }

  /** The expander's main loop over the solutions file. */
  method ExpandAll(solutions: seq<seq<Edge>>) returns (out: seq<seq<Edge>>, updated: nat)
    ensures |out| == |solutions|
    ensures forall i :: 0 <= i < |solutions| ==> out[i] == Expand(ExpandSolutions, solutions[i])
    ensures updated == Differing(solutions, out)
  {
    out := [];
    updated := 0;
    var i := 0;
    while i < |solutions|
      invariant 0 <= i <= |solutions| && |out| == i
      invariant forall k :: 0 <= k < i ==> out[k] == Expand(ExpandSolutions, solutions[k])
      invariant updated == Differing(solutions[..i], out)
    {
      var r := WriteBack(solutions[i]);
      DifferingStep(solutions, out, i, r.0);
      ClosuresExtend(solutions, out, i, r.0);
      out := out + [r.0];
      if r.1 {
        updated := updated + 1;
      }
      i := i + 1;
    }
    assert solutions[..i] == solutions;
  }

  lemma ClosuresExtend(solutions: seq<seq<Edge>>, out: seq<seq<Edge>>, i: nat, y: seq<Edge>)
    requires i < |solutions| && |out| == i
    requires forall k :: 0 <= k < i ==> out[k] == Expand(ExpandSolutions, solutions[k])
    requires y == Expand(ExpandSolutions, solutions[i])
    ensures forall k :: 0 <= k < i + 1 ==> (out + [y])[k] == Expand(ExpandSolutions, solutions[k])
  {
  }

  /** Running the expander before the updater does not change any level's
      hash, provided no id is the empty string: the two closures agree and
      closing twice is closing once. */
  lemma PipelineStable(h: Hasher, original: seq<Edge>)
    requires "" !in Ids(original)
    ensures LevelHash(h, WriteBack(original).0) == LevelHash(h, original)
  {
    var x := Expand(ExpandSolutions, original);
    ScriptsAgree(original);
    assert Ids(x) == Ids(original);
    ScriptsAgree(x);
    ExpandIdempotent(UpdateHash, original);
  }
}
