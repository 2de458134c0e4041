/** The casebook: a persistent list of resolved cases, at most one per
    level id, shown newest level first with a zero-padded `#NNN` label.
    Storage is the list itself; the timestamp is not modelled. */
module CaseLog {
  import opened Edges
  import opened Text
  import Canonical

  datatype Entry = Entry(id: int, title: string, text: string)

  predicate HasId(entries: seq<Entry>, id: int)
  {
    exists i :: 0 <= i < |entries| && entries[i].id == id
  }

  predicate UniqueIds(entries: seq<Entry>)
  {
    forall i, j :: 0 <= i < j < |entries| ==> entries[i].id != entries[j].id
  }

  /** `entries.find(e => e.id === id)`: the first entry with that id. */
  function Find(entries: seq<Entry>, id: int): (r: Option<Entry>)
    ensures r.None? <==> !HasId(entries, id)
    ensures r.Some? ==> r.value in entries && r.value.id == id
    decreases |entries|
  {
    if entries == [] then None
    else if entries[0].id == id then Some(entries[0])
    else
      var r := Find(entries[1..], id);
      assert HasId(entries, id) ==> HasId(entries[1..], id) by {
        if HasId(entries, id) {
          var i :| 0 <= i < |entries| && entries[i].id == id;
          assert entries[1..][i - 1] == entries[i];
        }
      }
      assert HasId(entries[1..], id) ==> HasId(entries, id) by {
        if HasId(entries[1..], id) {
          var i :| 0 <= i < |entries[1..]| && entries[1..][i].id == id;
          assert entries[i + 1] == entries[1..][i];
        }
      }
      r
  }

  /** `saveEntry`: a level already logged is left alone; otherwise exactly
      one entry with the given id, title and text is appended. */
  function SaveEntry(entries: seq<Entry>, id: int, title: string, text: string): (r: seq<Entry>)
    ensures HasId(entries, id) ==> r == entries
    ensures !HasId(entries, id) ==> r == entries + [Entry(id, title, text)]
    ensures HasId(r, id)
  {
    if Find(entries, id).Some? then entries
    else
      var r := entries + [Entry(id, title, text)];
      assert r[|entries|].id == id;
      r
  }

  /** Saving keeps the ids unique. */
  lemma SaveKeepsUnique(entries: seq<Entry>, id: int, title: string, text: string)
    requires UniqueIds(entries)
    ensures UniqueIds(SaveEntry(entries, id, title, text))
  {
  }

  /** Saving the same level a second time changes nothing, whatever the new
      title and text. */
  lemma SaveIdempotent(entries: seq<Entry>, id: int, t1: string, x1: string, t2: string, x2: string)
    ensures SaveEntry(SaveEntry(entries, id, t1, x1), id, t2, x2) == SaveEntry(entries, id, t1, x1)
  {
  }

  /** One `saveEntry` call. */
  datatype Save = Save(id: int, title: string, text: string)

  function SaveAll(entries: seq<Entry>, saves: seq<Save>): seq<Entry>
    decreases |saves|
  {
    if saves == [] then entries
    else SaveAll(SaveEntry(entries, saves[0].id, saves[0].title, saves[0].text), saves[1..])
  }

  /** Over any run of saves the ids stay unique, every saved level is
      logged, earlier entries keep their place, and no entry comes from
      anywhere but a save. */
  lemma {:induction false} SaveAllLaws(entries: seq<Entry>, saves: seq<Save>)
    requires UniqueIds(entries)
    ensures UniqueIds(SaveAll(entries, saves))
    ensures entries <= SaveAll(entries, saves)
    ensures forall k :: 0 <= k < |saves| ==> HasId(SaveAll(entries, saves), saves[k].id)
    ensures forall e :: e in SaveAll(entries, saves) ==> e in entries || Save(e.id, e.title, e.text) in saves
    decreases |saves|
  {
    if saves != [] {
      var s := saves[0];
      var next := SaveEntry(entries, s.id, s.title, s.text);
      SaveKeepsUnique(entries, s.id, s.title, s.text);
      SaveAllLaws(next, saves[1..]);
      var r := SaveAll(next, saves[1..]);
      assert HasId(r, s.id) by {
        var i :| 0 <= i < |next| && next[i].id == s.id;
        assert r[i] == next[i];
      }
      forall k | 0 <= k < |saves| ensures HasId(r, saves[k].id)
      {
        if k > 0 {
          assert saves[1..][k - 1] == saves[k];
        }
      }
      forall e | e in r ensures e in entries || Save(e.id, e.title, e.text) in saves
      {
        if e !in next {
          assert Save(e.id, e.title, e.text) in saves[1..];
        }
      }
    }
  }

  // ---------------------------------------------------------------------
  // Rendering
  // ---------------------------------------------------------------------

  const NoCases: string := "NO CASES RESOLVED."

  /** Higher ids first. */
  predicate Descending(entries: seq<Entry>)
  {
    forall i, j :: 0 <= i < j < |entries| ==> entries[i].id >= entries[j].id
  }

  /** Inserts `e`, which came earlier in the log than everything in
      `sorted`, in front of the first entry whose id is not above its own:
      a stable sort by `b.id - a.id` keeps it ahead of equal ids. */
  function InsertDesc(e: Entry, sorted: seq<Entry>): (r: seq<Entry>)
    requires Descending(sorted)
    ensures Descending(r)
    ensures multiset(r) == multiset(sorted) + multiset{e}
    ensures sorted != [] ==> r[0] == e || r[0] == sorted[0]
    decreases |sorted|
  {
    if sorted == [] then [e]
    else if e.id >= sorted[0].id then
      ConsDesc(e, sorted);
      [e] + sorted
    else
      var rest := InsertDesc(e, sorted[1..]);
      assert sorted == [sorted[0]] + sorted[1..];
      HeadStaysFirst(sorted[0], e, sorted[1..], rest);
      [sorted[0]] + rest
  }

  lemma ConsDesc(e: Entry, sorted: seq<Entry>)
    requires Descending(sorted) && sorted != [] && e.id >= sorted[0].id
    ensures Descending([e] + sorted)
  {
    var r := [e] + sorted;
    forall i, j | 0 <= i < j < |r| ensures r[i].id >= r[j].id
    {
      assert r[j] == sorted[j - 1];
      if i > 0 {
        assert r[i] == sorted[i - 1];
      } else if j > 1 {
        assert sorted[0].id >= sorted[j - 1].id;
      }
    }
  }

  lemma HeadStaysFirst(h: Entry, e: Entry, tail: seq<Entry>, rest: seq<Entry>)
    requires Descending([h] + tail) && e.id <= h.id && Descending(rest)
    requires multiset(rest) == multiset(tail) + multiset{e}
    ensures Descending([h] + rest)
  {
    var l := [h] + tail;
    var r := [h] + rest;
    forall i, j | 0 <= i < j < |r| ensures r[i].id >= r[j].id
    {
      if i == 0 {
        var x := rest[j - 1];
        assert x in multiset(rest);
        if x != e {
          assert x in multiset(tail);
          var k :| 0 <= k < |tail| && tail[k] == x;
          assert l[0] == h && l[k + 1] == x;
        }
      } else {
        assert r[i] == rest[i - 1] && r[j] == rest[j - 1];
      }
    }
  }

  /** The copy `[...entries].sort((a, b) => b.id - a.id)`. */
  function SortDesc(entries: seq<Entry>): (r: seq<Entry>)
    ensures Descending(r)
    ensures multiset(r) == multiset(entries)
    decreases |entries|
  {
    if entries == [] then []
    else
      assert entries == [entries[0]] + entries[1..];
      InsertDesc(entries[0], SortDesc(entries[1..]))
  }

  /** `'#' + id.toString().padStart(3, '0')`. */
  function Label(id: int): (r: string)
    ensures |r| >= 4 && r[0] == '#'
  {
    "#" + PadStart(IntToString(id), 3, '0')
  }

  /** One rendered card: title, label and body text. */
  datatype Card = Card(title: string, idLabel: string, text: string)

  datatype View = Empty(message: string) | Cards(cards: seq<Card>)

  function CardOf(e: Entry): Card
  {
    Card(e.title, Label(e.id), e.text)
  }

  /** `render`: the empty-log notice, or one card per entry in the sorted
      copy. The entry list itself is an input and is not changed. */
  function Render(entries: seq<Entry>): (v: View)
    ensures v.Empty? <==> entries == []
    ensures v.Empty? ==> v.message == NoCases
    ensures v.Cards? ==> |v.cards| == |entries|
  {
    if |entries| == 0 then Empty(NoCases)
    else
      var sorted := SortDesc(entries);
      assert |sorted| == |multiset(sorted)| == |entries|;
      Cards(seq(|sorted|, i requires 0 <= i < |sorted| => CardOf(sorted[i])))
  }

  /** The cards are the entries, each exactly once, newest level first:
      card `i` shows the `i`-th entry of a descending permutation of the
      log. */
  lemma RenderOrder(entries: seq<Entry>)
    requires entries != []
    ensures Render(entries).Cards?
    ensures multiset(SortDesc(entries)) == multiset(entries) && Descending(SortDesc(entries))
    ensures forall i :: 0 <= i < |entries| ==> Render(entries).cards[i] == CardOf(SortDesc(entries)[i])
  {
    var sorted := SortDesc(entries);
    assert |sorted| == |multiset(sorted)| == |entries|;
  }

  /** With unique ids there is only one descending arrangement, so the
      rendered order is fully determined by the set of entries. */
  lemma {:induction false} DescendingUnique(a: seq<Entry>, b: seq<Entry>)
    requires Descending(a) && Descending(b) && UniqueIds(a) && multiset(a) == multiset(b)
    ensures a == b
    decreases |a|
  {
    assert |a| == |multiset(a)| == |multiset(b)| == |b|;
    if a != [] {
      SameFirst(a, b);
      TailsMatch(a, b);
      DescendingTail(a);
      DescendingTail(b);
      DescendingUnique(a[1..], b[1..]);
      assert a == [a[0]] + a[1..] && b == [b[0]] + b[1..];
    }
  }

  /** Two descending permutations of a log with unique ids start alike. */
  lemma SameFirst(a: seq<Entry>, b: seq<Entry>)
    requires Descending(a) && Descending(b) && UniqueIds(a) && multiset(a) == multiset(b)
    requires a != [] && |b| == |a|
    ensures a[0] == b[0]
  {
    assert a[0] in multiset(b) && b[0] in multiset(a);
    var i :| 0 <= i < |b| && b[i] == a[0];
    var j :| 0 <= j < |a| && a[j] == b[0];
    assert a[0].id >= a[j].id && b[0].id >= b[i].id;
    assert j == 0;
  }

  lemma TailsMatch(a: seq<Entry>, b: seq<Entry>)
    requires a != [] && b != [] && a[0] == b[0] && multiset(a) == multiset(b)
    ensures multiset(a[1..]) == multiset(b[1..])
  {
    assert a == [a[0]] + a[1..] && b == [b[0]] + b[1..];
    assert multiset(a) == multiset{a[0]} + multiset(a[1..]);
    assert multiset(b) == multiset{b[0]} + multiset(b[1..]);
    Canonical.Cancel(a[0], multiset(a[1..]), multiset(b[1..]));
  }

  lemma DescendingTail(a: seq<Entry>)
    requires a != [] && Descending(a)
    ensures Descending(a[1..]) && (UniqueIds(a) ==> UniqueIds(a[1..]))
  {
  }

  /** The label is `#`, then at least three characters; for a level id that
      is not negative those are digits that read back as the id. */
  lemma LabelReadsBack(id: int)
    requires id >= 0
    ensures |Label(id)| >= 4 && Label(id)[0] == '#'
    ensures IsDigits(Label(id)[1..]) && Value(Label(id)[1..]) == id
  {
    PaddedValue(id, 3);
    assert Label(id)[1..] == PadStart(Digits(id), 3, '0');
  }
}
