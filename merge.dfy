/** `performMerge` of App.tsx: an incoming batch of cards is folded into the deck, which is
    held in an insertion-ordered map keyed by card id; then the deck is sorted newest first. */
module Merge {
  import opened JsString
  import opened Types

  // The `Map<string, Flashcard>` of `performMerge` is modelled by the sequence of its entries in
  // insertion order. Every entry is stored under its own id, so the key of an entry is `id`.

  /** No card of the deck has the empty id. */
  ghost predicate NonEmptyIds(deck: seq<Flashcard>) {
    forall i :: 0 <= i < |deck| ==> deck[i].id != ""
  }

  /** The position of the entry stored under `id`, if any. */
  function IndexOfId(entries: seq<Flashcard>, id: string): (r: Option<nat>)
    ensures r.Some? ==> r.value < |entries| && entries[r.value].id == id
    ensures r.None? <==> id !in Ids(entries)
  {
    if entries == [] then None
    else if entries[0].id == id then Some(0)
    else
      match IndexOfId(entries[1..], id)
      case None =>
        assert Ids(entries) == {entries[0].id} + Ids(entries[1..]) by { IdsCons(entries); }
        None
      case Some(p) =>
        assert Ids(entries) == {entries[0].id} + Ids(entries[1..]) by { IdsCons(entries); }
        Some(p + 1)
  }

  lemma IdsCons(entries: seq<Flashcard>)
    requires entries != []
    ensures Ids(entries) == {entries[0].id} + Ids(entries[1..])
  {
    assert entries == [entries[0]] + entries[1..];
    forall c | c in entries ensures c == entries[0] || c in entries[1..] {
    }
  }

  lemma NotInIds(entries: seq<Flashcard>, id: string)
    requires forall j :: 0 <= j < |entries| ==> entries[j].id != id
    ensures id !in Ids(entries)
  {
    assert forall y :: y in entries ==> y.id != id;
  }

  lemma IdsAt(entries: seq<Flashcard>, i: nat)
    requires i < |entries|
    ensures entries[i].id in Ids(entries)
  {
    assert entries[i] in entries;
  }

  /** `cardMap.set(c.id, c)`: a card whose id is already a key replaces that entry where it
      stands; a card with a new id is appended. */
  function MapSet(entries: seq<Flashcard>, c: Flashcard): (r: seq<Flashcard>)
    ensures c in r
    ensures Ids(r) == Ids(entries) + {c.id}
    ensures c.id in Ids(entries) ==> |r| == |entries|
    ensures c.id !in Ids(entries) ==> r == entries + [c]
    ensures UniqueIds(entries) ==> UniqueIds(r)
    ensures UniqueIds(entries) ==>
      forall i :: 0 <= i < |entries| ==> r[i] == (if entries[i].id == c.id then c else entries[i])
  {
    match IndexOfId(entries, c.id)
    case None =>
      var r := entries + [c];
      assert Ids(r) == Ids(entries) + {c.id} by {
        forall x | x in r ensures x in entries || x == c { }
      }
      r
    case Some(p) =>
      var r := entries[p := c];
      assert r[p] == c;
      assert Ids(r) == Ids(entries) + {c.id} by {
        forall x | x in Ids(entries) ensures x in Ids(r) {
          var y :| y in entries && y.id == x;
          var j :| 0 <= j < |entries| && entries[j] == y;
          if j == p {
            assert r[p].id == x;
            IdsAt(r, p);
          } else {
            IdsAt(r, j);
          }
        }
        forall x | x in Ids(r) ensures x in Ids(entries) + {c.id} {
          var y :| y in r && y.id == x;
          var j :| 0 <= j < |r| && r[j] == y;
          if j != p {
            IdsAt(entries, j);
          }
        }
      }
      r
  }

  /** The first pass of `performMerge`: every card of the previous deck is put into an empty
      map, in deck order. */
  function Build(prev: seq<Flashcard>): (m: seq<Flashcard>)
    ensures UniqueIds(m)
    ensures Ids(m) == Ids(prev)
    ensures |m| <= |prev|
    decreases |prev|
  {
    if prev == [] then []
    else
      var front := prev[..|prev| - 1];
      var last := prev[|prev| - 1];
      assert Ids(prev) == Ids(front) + {last.id} by {
        assert prev == front + [last];
        forall x | x in prev ensures x in front || x == last { }
      }
      MapSet(Build(front), last)
  }

  /** A deck whose ids are already unique comes out of the map unchanged, order included. */
  lemma {:induction false} BuildKeepsUniqueDeck(prev: seq<Flashcard>)
    requires UniqueIds(prev)
    ensures Build(prev) == prev
    decreases |prev|
  {
    if prev != [] {
      var front := prev[..|prev| - 1];
      var last := prev[|prev| - 1];
      LastIdNew(prev);
      BuildKeepsUniqueDeck(front);
      calc {
        Build(prev);
        { BuildSnoc(prev); }
        MapSet(Build(front), last);
        MapSet(front, last);
        { MapSetAppends(front, last); }
        front + [last];
        { SnocSplit(prev); }
        prev;
      }
    }
  }

  /** A non-empty sequence is its front followed by its last element. */
  lemma SnocSplit<T>(s: seq<T>)
    requires s != []
    ensures s[..|s| - 1] + [s[|s| - 1]] == s
  {
  }

  /** The map of a deck is the map of all but its last card, with the last card set. */
  lemma BuildSnoc(prev: seq<Flashcard>)
    requires prev != []
    ensures Build(prev) == MapSet(Build(prev[..|prev| - 1]), prev[|prev| - 1])
  {
  }

  /** A card whose id is new is appended. */
  lemma MapSetAppends(entries: seq<Flashcard>, c: Flashcard)
    requires c.id !in Ids(entries)
    ensures MapSet(entries, c) == entries + [c]
  {
  }

  /** In a deck with unique ids, the last card's id is not among the others, which have unique
      ids themselves. */
  lemma LastIdNew(prev: seq<Flashcard>)
    requires UniqueIds(prev) && prev != []
    ensures UniqueIds(prev[..|prev| - 1])
    ensures prev[|prev| - 1].id !in Ids(prev[..|prev| - 1])
  {
    var front := prev[..|prev| - 1];
    forall j | 0 <= j < |front| ensures front[j].id != prev[|prev| - 1].id {
      assert front[j] == prev[j];
    }
    NotInIds(front, prev[|prev| - 1].id);
  }

  /** The content-key scan of `performMerge`: the first entry, in insertion order, with the
      incoming card's word (case-insensitively) and definition. */
  function FindMatch(entries: seq<Flashcard>, c: Flashcard): (r: Option<nat>)
    ensures r.Some? ==> r.value < |entries| && SameContent(entries[r.value], c)
    ensures r.Some? ==> forall j :: 0 <= j < r.value ==> !SameContent(entries[j], c)
    ensures r.None? ==> forall j :: 0 <= j < |entries| ==> !SameContent(entries[j], c)
  {
    if entries == [] then None
    else if SameContent(entries[0], c) then Some(0)
    else
      match FindMatch(entries[1..], c)
      case None => None
      case Some(p) => Some(p + 1)
  }

  /** `{ ...existing, ...c, id: duplicateId }`: every field the incoming card has overwrites the
      existing one, an optional field the incoming card lacks keeps the existing value, and the
      id stays the existing card's. */
  function Overlay(existing: Flashcard, c: Flashcard): (r: Flashcard)
    ensures r.id == existing.id
    ensures r.word == c.word && r.mainDefinition == c.mainDefinition && r.partOfSpeech == c.partOfSpeech
    ensures r.status == c.status && r.lastReviewed == c.lastReviewed && r.createdAt == c.createdAt
    ensures r.phonetic == (if c.phonetic.Some? then c.phonetic else existing.phonetic)
    ensures r.example == (if c.example.Some? then c.example else existing.example)
    ensures KeyOf(r) == KeyOf(c)
  {
    Flashcard(
      existing.id,
      c.word,
      if c.phonetic.Some? then c.phonetic else existing.phonetic,
      c.mainDefinition,
      if c.example.Some? then c.example else existing.example,
      c.partOfSpeech,
      c.status,
      c.lastReviewed,
      c.createdAt)
  }

  /** One pass of the second loop of `performMerge`. A content match whose key is the empty
      string is falsy in `if (duplicateId)`, so it is treated like no match at all. */
  function MergeStep(entries: seq<Flashcard>, c: Flashcard): (r: seq<Flashcard>)
    ensures |entries| <= |r| <= |entries| + 1
    ensures Ids(entries) <= Ids(r) <= Ids(entries) + {c.id}
    ensures UniqueIds(entries) ==> UniqueIds(r)
  {
    match FindMatch(entries, c)
    case Some(p) =>
      if entries[p].id != "" then
        var r := entries[p := Overlay(entries[p], c)];
        assert Ids(r) == Ids(entries) by {
          forall i | 0 <= i < |entries| ensures r[i].id == entries[i].id { }
          SameIds(entries, r);
        }
        r
      else MapSet(entries, c)
    case None => MapSet(entries, c)
  }

  lemma SameIds(a: seq<Flashcard>, b: seq<Flashcard>)
    requires |a| == |b|
    requires forall i :: 0 <= i < |a| ==> a[i].id == b[i].id
    ensures Ids(a) == Ids(b)
  {
    forall x | x in Ids(a) ensures x in Ids(b) {
      var y :| y in a && y.id == x;
      var j :| 0 <= j < |a| && a[j] == y;
      IdsAt(b, j);
    }
    forall x | x in Ids(b) ensures x in Ids(a) {
      var y :| y in b && y.id == x;
      var j :| 0 <= j < |b| && b[j] == y;
      IdsAt(a, j);
    }
  }

  /** A content match under a non-empty key overlays the incoming card onto that entry, in
      place, and leaves every other entry as it was. */
  lemma {:induction false} MatchOverlays(entries: seq<Flashcard>, c: Flashcard, p: nat)
    requires FindMatch(entries, c) == Some(p) && entries[p].id != ""
    ensures |MergeStep(entries, c)| == |entries|
    ensures MergeStep(entries, c)[p] == Overlay(entries[p], c)
    ensures MergeStep(entries, c)[p].id == entries[p].id
    ensures forall j :: 0 <= j < |entries| && j != p ==> MergeStep(entries, c)[j] == entries[j]
  {
  }

  /** Without a content match the incoming card replaces, wholesale, the entry with its id, or
      is appended when its id is new. */
  lemma {:induction false} NoMatchUpserts(entries: seq<Flashcard>, c: Flashcard)
    requires UniqueIds(entries)
    requires forall j :: 0 <= j < |entries| ==> !SameContent(entries[j], c)
    ensures c in MergeStep(entries, c)
    ensures c.id in Ids(entries) ==> |MergeStep(entries, c)| == |entries|
    ensures c.id in Ids(entries) ==> forall j :: 0 <= j < |entries| ==>
      MergeStep(entries, c)[j] == (if entries[j].id == c.id then c else entries[j])
    ensures c.id !in Ids(entries) ==> MergeStep(entries, c) == entries + [c]
  {
  }

  /** The second loop of `performMerge`: the incoming cards are merged one by one, in order. */
  function MergeAll(entries: seq<Flashcard>, incoming: seq<Flashcard>): (r: seq<Flashcard>)
    ensures |entries| <= |r| <= |entries| + |incoming|
    ensures Ids(entries) <= Ids(r) <= Ids(entries) + Ids(incoming)
    ensures UniqueIds(entries) ==> UniqueIds(r)
    decreases |incoming|
  {
    if incoming == [] then entries
    else
      var front := incoming[..|incoming| - 1];
      var last := incoming[|incoming| - 1];
      assert Ids(incoming) == Ids(front) + {last.id} by {
        assert incoming == front + [last];
        forall x | x in incoming ensures x in front || x == last { }
      }
      MergeStep(MergeAll(entries, front), last)
  }

  /** `y` goes before the first card that is not newer than it; with `createdAt` ties it goes
      first, which is where a stable sort leaves the card that came earlier. */
  function InsertPos(y: Flashcard, sorted: seq<Flashcard>): (k: nat)
    ensures k <= |sorted|
    ensures forall j :: 0 <= j < k ==> sorted[j].createdAt > y.createdAt
    ensures k < |sorted| ==> sorted[k].createdAt <= y.createdAt
  {
    if sorted == [] || sorted[0].createdAt <= y.createdAt then 0
    else 1 + InsertPos(y, sorted[1..])
  }

  function Insert(y: Flashcard, sorted: seq<Flashcard>): (r: seq<Flashcard>)
    ensures |r| == |sorted| + 1
  {
    var k := InsertPos(y, sorted);
    sorted[..k] + [y] + sorted[k..]
  }

  /** `sort((a, b) => b.createdAt - a.createdAt)`: a stable sort, newest first. */
  function SortNewestFirst(s: seq<Flashcard>): (r: seq<Flashcard>)
    ensures NewestFirst(r)
    ensures multiset(r) == multiset(s)
    ensures UniqueIds(s) ==> UniqueIds(r)
    ensures UniqueKeys(s) ==> UniqueKeys(r)
    decreases |s|
  {
    if s == [] then []
    else
      var rest := SortNewestFirst(s[1..]);
      assert s == [s[0]] + s[1..];
      InsertSorted(s[0], rest);
      SortStepKeeps(s, rest);
      Insert(s[0], rest)
  }

  lemma SortStepKeeps(s: seq<Flashcard>, rest: seq<Flashcard>)
    requires s != [] && multiset(rest) == multiset(s[1..])
    requires UniqueIds(s[1..]) ==> UniqueIds(rest)
    requires UniqueKeys(s[1..]) ==> UniqueKeys(rest)
    ensures UniqueIds(s) ==> UniqueIds(Insert(s[0], rest))
    ensures UniqueKeys(s) ==> UniqueKeys(Insert(s[0], rest))
  {
    forall z | z in rest ensures exists j :: 1 <= j < |s| && s[j] == z {
      assert z in multiset(s[1..]);
      var j :| 0 <= j < |s[1..]| && s[1..][j] == z;
      assert s[j + 1] == z;
    }
    if UniqueIds(s) {
      InsertKeepsIds(s[0], rest);
    }
    if UniqueKeys(s) {
      InsertKeepsKeys(s[0], rest);
    }
  }

  lemma InsertSorted(y: Flashcard, sorted: seq<Flashcard>)
    requires NewestFirst(sorted)
    ensures NewestFirst(Insert(y, sorted))
    ensures multiset(Insert(y, sorted)) == multiset(sorted) + multiset{y}
  {
    InsertOrder(y, sorted);
    InsertElements(y, sorted);
  }

  lemma InsertOrder(y: Flashcard, sorted: seq<Flashcard>)
    requires NewestFirst(sorted)
    ensures NewestFirst(Insert(y, sorted))
  {
    var r := Insert(y, sorted);
    forall i, j | 0 <= i < j < |r| ensures r[i].createdAt >= r[j].createdAt {
      InsertAt(y, sorted, i);
      InsertAt(y, sorted, j);
    }
  }

  lemma InsertElements(y: Flashcard, sorted: seq<Flashcard>)
    ensures multiset(Insert(y, sorted)) == multiset(sorted) + multiset{y}
  {
    var k := InsertPos(y, sorted);
    assert sorted == sorted[..k] + sorted[k..];
  }

  /** The card at position i after the insertion: a card from before the insertion point, the
      inserted card, or a card from after it, one place further on. */
  lemma InsertAt(y: Flashcard, sorted: seq<Flashcard>, i: nat)
    requires i <= |sorted|
    ensures i < InsertPos(y, sorted) ==> Insert(y, sorted)[i] == sorted[i]
    ensures i == InsertPos(y, sorted) ==> Insert(y, sorted)[i] == y
    ensures i > InsertPos(y, sorted) ==> Insert(y, sorted)[i] == sorted[i - 1]
  {
  }

  lemma InsertKeepsIds(y: Flashcard, sorted: seq<Flashcard>)
    requires UniqueIds(sorted)
    requires forall z :: z in sorted ==> z.id != y.id
    ensures UniqueIds(Insert(y, sorted))
  {
    var k := InsertPos(y, sorted);
    var r := Insert(y, sorted);
    forall i, j | 0 <= i < j < |r| ensures r[i].id != r[j].id {
      InsertAt(y, sorted, i);
      InsertAt(y, sorted, j);
      if i == k {
        assert sorted[j - 1] in sorted;
      } else if j == k {
        assert sorted[i] in sorted;
      }
    }
  }

  lemma InsertKeepsKeys(y: Flashcard, sorted: seq<Flashcard>)
    requires UniqueKeys(sorted)
    requires forall z :: z in sorted ==> KeyOf(z) != KeyOf(y)
    ensures UniqueKeys(Insert(y, sorted))
  {
    var k := InsertPos(y, sorted);
    var r := Insert(y, sorted);
    forall i, j | 0 <= i < j < |r| ensures KeyOf(r[i]) != KeyOf(r[j]) {
      InsertAt(y, sorted, i);
      InsertAt(y, sorted, j);
      if i == k {
        assert sorted[j - 1] in sorted;
      } else if j == k {
        assert sorted[i] in sorted;
      }
    }
  }

  /** Sorting a deck that is already newest first changes nothing. */
  lemma {:induction false} SortKeepsSorted(s: seq<Flashcard>)
    requires NewestFirst(s)
    ensures SortNewestFirst(s) == s
    decreases |s|
  {
    if s != [] {
      TailNewestFirst(s);
      SortKeepsSorted(s[1..]);
      InsertFront(s);
    }
  }

  lemma TailNewestFirst(s: seq<Flashcard>)
    requires s != [] && NewestFirst(s)
    ensures NewestFirst(s[1..])
  {
    forall i, j | 0 <= i < j < |s| - 1 ensures s[1..][i].createdAt >= s[1..][j].createdAt {
      assert s[1..][i] == s[i + 1] && s[1..][j] == s[j + 1];
    }
  }

  /** The newest card of a deck sorted newest first goes back in front of the rest. */
  lemma InsertFront(s: seq<Flashcard>)
    requires s != [] && NewestFirst(s)
    ensures Insert(s[0], s[1..]) == s
  {
    if |s| > 1 {
      assert s[1..][0] == s[1];
    }
    assert InsertPos(s[0], s[1..]) == 0;
    assert [s[0]] + s[1..] == s;
  }

  /** The multiset of a sequence determines its ids. */
  lemma SameElementsSameIds(a: seq<Flashcard>, b: seq<Flashcard>)
    requires multiset(a) == multiset(b)
    ensures Ids(a) == Ids(b)
  {
    forall x | x in a ensures x in b {
      assert x in multiset(a);
    }
    forall x | x in b ensures x in a {
      assert x in multiset(b);
    }
  }

  /** The deck `performMerge` leaves: the previous deck put into the map, the incoming cards
      merged into it, and the map's values sorted newest first. */
  function Merged(prev: seq<Flashcard>, incoming: seq<Flashcard>): (r: seq<Flashcard>)
    ensures NewestFirst(r)
    ensures UniqueIds(r)
    ensures Ids(prev) <= Ids(r) <= Ids(prev) + Ids(incoming)
    ensures |r| <= |prev| + |incoming|
  {
    var m := MergeAll(Build(prev), incoming);
    var r := SortNewestFirst(m);
    SameElementsSameIds(r, m);
    assert |r| == |m| by { assert |multiset(r)| == |multiset(m)|; }
    r
  }

  /** `performMerge` as the source runs it: a loop that fills the map, a loop that merges the
      incoming cards into it, each with its linear content-key scan, and the final sort. */
  method PerformMerge(prev: seq<Flashcard>, incoming: seq<Flashcard>) returns (merged: seq<Flashcard>)
    ensures merged == Merged(prev, incoming)
  {
    var cardMap: seq<Flashcard> := [];
    for i := 0 to |prev|
      invariant cardMap == Build(prev[..i])
    {
      BuildStep(prev, i);
      cardMap := MapSet(cardMap, prev[i]);
    }
    assert prev[..|prev|] == prev;
    var base := cardMap;
    for i := 0 to |incoming|
      invariant cardMap == MergeAll(base, incoming[..i])
    {
      MergeAllStep(base, incoming, i);
      cardMap := MergeOne(cardMap, incoming[i]);
    }
    assert incoming[..|incoming|] == incoming;
    merged := SortNewestFirst(cardMap);
  }

  /** One pass of the second loop: the content-key scan, then the overlay onto a match with a
      non-empty key, or `cardMap.set(c.id, c)`. */
  method MergeOne(cardMap: seq<Flashcard>, c: Flashcard) returns (next: seq<Flashcard>)
    ensures next == MergeStep(cardMap, c)
  {
    var duplicate := FindDuplicate(cardMap, c);
    if duplicate.Some? && cardMap[duplicate.value].id != "" {
      next := cardMap[duplicate.value := Overlay(cardMap[duplicate.value], c)];
    } else {
      next := MapSet(cardMap, c);
    }
  }

  lemma BuildStep(prev: seq<Flashcard>, i: nat)
    requires i < |prev|
    ensures Build(prev[..i + 1]) == MapSet(Build(prev[..i]), prev[i])
  {
    assert prev[..i + 1][..i] == prev[..i];
  }

  lemma MergeAllStep(base: seq<Flashcard>, incoming: seq<Flashcard>, i: nat)
    requires i < |incoming|
    ensures MergeAll(base, incoming[..i + 1]) == MergeStep(MergeAll(base, incoming[..i]), incoming[i])
  {
    assert incoming[..i + 1][..i] == incoming[..i];
  }

  /** `Array.from(cardMap.keys()).find(...)` as a loop over the entries. */
  method FindDuplicate(entries: seq<Flashcard>, c: Flashcard) returns (r: Option<nat>)
    ensures r == FindMatch(entries, c)
  {
    var i := 0;
    while i < |entries|
      invariant 0 <= i <= |entries|
      invariant forall j :: 0 <= j < i ==> !SameContent(entries[j], c)
    {
      if Lower(entries[i].word) == Lower(c.word) && entries[i].mainDefinition == c.mainDefinition {
        FirstMatchUnique(entries, c, i);
        return Some(i);
      }
      i := i + 1;
    }
    r := None;
  }

  lemma FirstMatchUnique(entries: seq<Flashcard>, c: Flashcard, i: nat)
    requires i < |entries| && SameContent(entries[i], c)
    requires forall j :: 0 <= j < i ==> !SameContent(entries[j], c)
    ensures FindMatch(entries, c) == Some(i)
  {
  }

  // ---------------------------------------------------------------------------------------
  // Content keys

  /** With non-empty ids everywhere, merging keeps content keys unique: a match is overlaid under
      the matched key, and an unmatched card brings a key no entry has. The previous deck may
      repeat an id; the map then keeps one card per id. */
  lemma KeysStayUnique(prev: seq<Flashcard>, incoming: seq<Flashcard>)
    requires UniqueKeys(prev)
    requires NonEmptyIds(prev) && NonEmptyIds(incoming)
    ensures UniqueKeys(Merged(prev, incoming))
  {
    BuildKeepsKeys(prev);
    MergeAllKeepsKeys(Build(prev), incoming);
  }

  /** Every entry of `cardMap.set(c.id, c)` was already an entry, or is `c`. */
  lemma MapSetFrom(entries: seq<Flashcard>, c: Flashcard)
    ensures forall x :: x in MapSet(entries, c) ==> x in entries || x == c
  {
    match IndexOfId(entries, c.id)
    case None =>
    case Some(p) =>
      var r := entries[p := c];
      forall x | x in r ensures x in entries || x == c {
        var j :| 0 <= j < |r| && r[j] == x;
        if j != p {
          assert entries[j] == x;
        }
      }
  }

  /** The map filled from a deck holds only cards of that deck. */
  lemma {:induction false} BuildFromPrev(prev: seq<Flashcard>)
    ensures forall x :: x in Build(prev) ==> x in prev
    decreases |prev|
  {
    if prev != [] {
      var front := prev[..|prev| - 1];
      var last := prev[|prev| - 1];
      BuildFromPrev(front);
      MapSetFrom(Build(front), last);
      assert prev == front + [last];
    }
  }

  /** Filling the map keeps content keys unique and ids non-empty: two entries with different
      ids are cards from two different positions of the deck. */
  lemma BuildKeepsKeys(prev: seq<Flashcard>)
    requires UniqueKeys(prev) && NonEmptyIds(prev)
    ensures UniqueKeys(Build(prev)) && NonEmptyIds(Build(prev))
  {
    var m := Build(prev);
    BuildFromPrev(prev);
    forall i, j | 0 <= i < j < |m| ensures KeyOf(m[i]) != KeyOf(m[j]) {
      assert m[i] in m && m[j] in m;
      var a :| 0 <= a < |prev| && prev[a] == m[i];
      var b :| 0 <= b < |prev| && prev[b] == m[j];
      assert m[i].id != m[j].id;
      if a < b {
        assert KeyOf(prev[a]) != KeyOf(prev[b]);
      } else {
        assert KeyOf(prev[b]) != KeyOf(prev[a]);
      }
    }
    forall i | 0 <= i < |m| ensures m[i].id != "" {
      assert m[i] in m;
      var a :| 0 <= a < |prev| && prev[a] == m[i];
    }
  }

  lemma {:induction false} MergeAllKeepsKeys(entries: seq<Flashcard>, incoming: seq<Flashcard>)
    requires UniqueIds(entries) && UniqueKeys(entries)
    requires NonEmptyIds(entries) && NonEmptyIds(incoming)
    ensures UniqueKeys(MergeAll(entries, incoming)) && NonEmptyIds(MergeAll(entries, incoming))
    decreases |incoming|
  {
    if incoming != [] {
      var front := incoming[..|incoming| - 1];
      MergeAllKeepsKeys(entries, front);
      MergeStepKeepsKeys(MergeAll(entries, front), incoming[|incoming| - 1]);
    }
  }

  lemma MergeStepKeepsKeys(entries: seq<Flashcard>, c: Flashcard)
    requires UniqueIds(entries) && UniqueKeys(entries) && NonEmptyIds(entries) && c.id != ""
    ensures UniqueKeys(MergeStep(entries, c)) && NonEmptyIds(MergeStep(entries, c))
  {
    match FindMatch(entries, c)
    case Some(p) =>
      OverlayKeepsKeys(entries, c, p);
    case None =>
      if c.id in Ids(entries) {
        ReplaceKeepsKeys(entries, c);
      } else {
        AppendKeepsKeys(entries, c);
      }
  }

  lemma OverlayKeepsKeys(entries: seq<Flashcard>, c: Flashcard, p: nat)
    requires UniqueKeys(entries) && NonEmptyIds(entries)
    requires FindMatch(entries, c) == Some(p)
    ensures UniqueKeys(MergeStep(entries, c)) && NonEmptyIds(MergeStep(entries, c))
  {
    var r := MergeStep(entries, c);
    forall i | 0 <= i < |entries| ensures KeyOf(r[i]) == KeyOf(entries[i]) && r[i].id == entries[i].id { }
  }

  lemma ReplaceKeepsKeys(entries: seq<Flashcard>, c: Flashcard)
    requires UniqueIds(entries) && UniqueKeys(entries) && NonEmptyIds(entries) && c.id != ""
    requires FindMatch(entries, c).None? && c.id in Ids(entries)
    ensures UniqueKeys(MergeStep(entries, c)) && NonEmptyIds(MergeStep(entries, c))
  {
    var r := MergeStep(entries, c);
    assert |r| == |entries|;
    forall i | 0 <= i < |r| ensures r[i] == (if entries[i].id == c.id then c else entries[i]) { }
    forall i, j | 0 <= i < j < |r| ensures KeyOf(r[i]) != KeyOf(r[j]) {
      if r[i] == c && r[j] == c {
        assert entries[i].id == c.id && entries[j].id == c.id;
      }
    }
  }

  lemma AppendKeepsKeys(entries: seq<Flashcard>, c: Flashcard)
    requires UniqueIds(entries) && UniqueKeys(entries) && NonEmptyIds(entries) && c.id != ""
    requires FindMatch(entries, c).None? && c.id !in Ids(entries)
    ensures UniqueKeys(MergeStep(entries, c)) && NonEmptyIds(MergeStep(entries, c))
  {
    assert MergeStep(entries, c) == entries + [c];
  }

  // ---------------------------------------------------------------------------------------
  // Scenarios

  /** Merging into the deck nothing at all returns the deck unchanged when its ids are unique and
      it is already newest first. */
  lemma MergeNothing(prev: seq<Flashcard>)
    requires UniqueIds(prev) && NewestFirst(prev)
    ensures Merged(prev, []) == prev
  {
    BuildKeepsUniqueDeck(prev);
    SortKeepsSorted(prev);
  }

  /** An incoming card with the content of a saved card (the word in another case) is merged into
      the saved card: one card, under the saved card's id, with the incoming fields. */
  lemma MatchKeepsSavedId(saved: Flashcard, incoming: Flashcard)
    requires SameContent(saved, incoming) && saved.id != ""
    ensures Merged([saved], [incoming]) == [Overlay(saved, incoming)]
    ensures Merged([saved], [incoming])[0].id == saved.id
  {
    BuildKeepsUniqueDeck([saved]);
    assert MergeAll([saved], [incoming]) == MergeStep([saved], incoming) by {
      assert [incoming][..0] == [];
    }
    assert FindMatch([saved], incoming) == Some(0);
    assert MergeStep([saved], incoming) == [Overlay(saved, incoming)];
    SortKeepsSorted([Overlay(saved, incoming)]);
  }

  /** Two incoming cards with the same content and different ids become one card, under the id
      of the first. */
  lemma SameContentCollapses(a: Flashcard, b: Flashcard)
    requires SameContent(a, b) && a.id != ""
    ensures |Merged([], [a, b])| == 1
    ensures Merged([], [a, b])[0].id == a.id
  {
    assert [a, b][..1] == [a];
    assert [a][..0] == [];
    assert MergeAll([], [a]) == [a];
    assert FindMatch([a], b) == Some(0);
    assert MergeAll([], [a, b]) == [Overlay(a, b)];
  }

  /** The guard `if (duplicateId)` is false for the empty key: a saved card with the empty id
      and an incoming card with the same content both stay, and the deck holds the same content
      key twice. */
  lemma EmptyIdKeepsDuplicate(saved: Flashcard, incoming: Flashcard)
    requires SameContent(saved, incoming) && saved.id == "" && incoming.id != ""
    ensures |Merged([saved], [incoming])| == 2
    ensures !UniqueKeys(Merged([saved], [incoming]))
  {
    EmptyIdUpserts(saved, incoming);
    var r := Merged([saved], [incoming]);
    assert r == SortNewestFirst([saved, incoming]);
    PairKeys(r, saved, incoming);
  }

  lemma EmptyIdUpserts(saved: Flashcard, incoming: Flashcard)
    requires SameContent(saved, incoming) && saved.id == "" && incoming.id != ""
    ensures MergeAll(Build([saved]), [incoming]) == [saved, incoming]
  {
    calc {
      MergeAll(Build([saved]), [incoming]);
      { BuildKeepsUniqueDeck([saved]); }
      MergeAll([saved], [incoming]);
      { assert [incoming][..0] == []; }
      MergeStep([saved], incoming);
      { assert FindMatch([saved], incoming) == Some(0); }
      MapSet([saved], incoming);
      { assert incoming.id !in Ids([saved]); MapSetAppends([saved], incoming); }
      [saved] + [incoming];
    }
  }

  /** Any ordering of two cards with one content key holds that key twice. */
  lemma PairKeys(r: seq<Flashcard>, a: Flashcard, b: Flashcard)
    requires multiset(r) == multiset([a, b]) && KeyOf(a) == KeyOf(b)
    ensures |r| == 2 && !UniqueKeys(r)
  {
    assert |r| == |multiset(r)| == 2;
    assert r[0] in multiset([a, b]) && r[1] in multiset([a, b]);
  }
}
