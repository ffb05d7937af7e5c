/** The deck mutations of App.tsx: `handleAddCard`, `handleUpdateStatus` and `handleDeleteCard`,
    each a transformation of the previous deck. */
module Deck {
  import opened Types

  /** The card `handleAddCard` builds for a looked-up entry; `crypto.randomUUID()` and `Date.now()`
      are given as `id` and `now`. */
  function NewCard(id: string, entry: WordEntry, definition: string, example: string,
                   partOfSpeech: string, now: nat): (c: Flashcard)
    ensures c.id == id && c.word == entry.word && c.phonetic == entry.phonetic
    ensures c.mainDefinition == definition && c.example == Some(example) && c.partOfSpeech == partOfSpeech
    ensures c.status == New && c.lastReviewed == 0 && c.createdAt == now
  {
    Flashcard(id, entry.word, entry.phonetic, definition, Some(example), partOfSpeech, New, 0, now)
  }

  /** `handleAddCard`: the new card goes in front of the deck, which is otherwise unchanged. */
  function AddCard(deck: seq<Flashcard>, id: string, entry: WordEntry, definition: string,
                   example: string, partOfSpeech: string, now: nat): (r: seq<Flashcard>)
    ensures |r| == |deck| + 1
    ensures r[0] == NewCard(id, entry, definition, example, partOfSpeech, now)
    ensures r[1..] == deck
  {
    [NewCard(id, entry, definition, example, partOfSpeech, now)] + deck
  }

  /** A fresh id keeps ids unique, and a card stamped no earlier than every card of the deck keeps
      it newest first. */
  lemma AddCardKeeps(deck: seq<Flashcard>, id: string, entry: WordEntry, definition: string,
                     example: string, partOfSpeech: string, now: nat)
    ensures UniqueIds(deck) && id !in Ids(deck) ==>
      UniqueIds(AddCard(deck, id, entry, definition, example, partOfSpeech, now))
    ensures NewestFirst(deck) && (forall i :: 0 <= i < |deck| ==> deck[i].createdAt <= now) ==>
      NewestFirst(AddCard(deck, id, entry, definition, example, partOfSpeech, now))
    ensures Ids(AddCard(deck, id, entry, definition, example, partOfSpeech, now)) == Ids(deck) + {id}
  {
    var r := AddCard(deck, id, entry, definition, example, partOfSpeech, now);
    assert r == [r[0]] + deck;
    if UniqueIds(deck) && id !in Ids(deck) {
      forall i, j | 0 <= i < j < |r| ensures r[i].id != r[j].id {
        assert r[j] == deck[j - 1];
        if i == 0 {
          assert deck[j - 1] in deck;
        } else {
          assert r[i] == deck[i - 1];
        }
      }
    }
    if NewestFirst(deck) && (forall i :: 0 <= i < |deck| ==> deck[i].createdAt <= now) {
      forall i, j | 0 <= i < j < |r| ensures r[i].createdAt >= r[j].createdAt {
        assert r[j] == deck[j - 1];
        if i > 0 {
          assert r[i] == deck[i - 1];
        }
      }
    }
    AddIds(deck, r[0]);
  }

  /** The ids of a deck with one more card in front. */
  lemma AddIds(deck: seq<Flashcard>, c: Flashcard)
    ensures Ids([c] + deck) == Ids(deck) + {c.id}
  {
    var r := [c] + deck;
    forall x | x in r ensures x == c || x in deck { }
    assert c in r;
    forall x | x in deck ensures x in r { }
  }

  /** `handleUpdateStatus`: every card with the given id gets the new status and is stamped
      `now`; every other card, and the order, stay as they were. */
  function UpdateStatus(deck: seq<Flashcard>, id: string, status: Status, now: nat): (r: seq<Flashcard>)
    ensures |r| == |deck|
    ensures forall i :: 0 <= i < |deck| && deck[i].id == id ==> r[i].status == status && r[i].lastReviewed == now
    ensures forall i :: 0 <= i < |deck| && deck[i].id != id ==> r[i] == deck[i]
    ensures forall i :: 0 <= i < |deck| ==>
      r[i].(status := deck[i].status, lastReviewed := deck[i].lastReviewed) == deck[i]
  {
    seq(|deck|, i requires 0 <= i < |deck| =>
      if deck[i].id == id then deck[i].(status := status, lastReviewed := now) else deck[i])
  }

  /** A status update changes neither ids, nor content keys, nor creation times, so it keeps every
      deck invariant. */
  lemma UpdateStatusKeeps(deck: seq<Flashcard>, id: string, status: Status, now: nat)
    ensures Ids(UpdateStatus(deck, id, status, now)) == Ids(deck)
    ensures UniqueIds(deck) ==> UniqueIds(UpdateStatus(deck, id, status, now))
    ensures UniqueKeys(deck) ==> UniqueKeys(UpdateStatus(deck, id, status, now))
    ensures NewestFirst(deck) ==> NewestFirst(UpdateStatus(deck, id, status, now))
  {
    var r := UpdateStatus(deck, id, status, now);
    forall i | 0 <= i < |deck| ensures r[i].id == deck[i].id && KeyOf(r[i]) == KeyOf(deck[i]) {
      assert r[i].(status := deck[i].status, lastReviewed := deck[i].lastReviewed) == deck[i];
    }
    forall x | x in Ids(r) ensures x in Ids(deck) {
      var y :| y in r && y.id == x;
      var j :| 0 <= j < |r| && r[j] == y;
      assert deck[j] in deck;
    }
    forall x | x in Ids(deck) ensures x in Ids(r) {
      var y :| y in deck && y.id == x;
      var j :| 0 <= j < |deck| && deck[j] == y;
      assert r[j] in r;
    }
  }

  /** `handleDeleteCard`: the deck without the cards that have the given id. */
  function DeleteCard(deck: seq<Flashcard>, id: string): (r: seq<Flashcard>)
    ensures forall c :: c in r <==> c in deck && c.id != id
    ensures |r| <= |deck|
  {
    if deck == [] then []
    else (if deck[0].id == id then [] else [deck[0]]) + DeleteCard(deck[1..], id)
  }

  /** Deleting works card by card: on a deck in two parts it deletes from each part, so the
      cards that stay keep their order. */
  lemma {:induction false} DeleteSplits(a: seq<Flashcard>, b: seq<Flashcard>, id: string)
    ensures DeleteCard(a + b, id) == DeleteCard(a, id) + DeleteCard(b, id)
    decreases |a|
  {
    if a != [] {
      assert (a + b)[1..] == a[1..] + b;
      DeleteSplits(a[1..], b, id);
    } else {
      assert a + b == b;
    }
  }

  /** Deleting an id the deck does not hold changes nothing. */
  lemma {:induction false} DeleteAbsent(deck: seq<Flashcard>, id: string)
    requires id !in Ids(deck)
    ensures DeleteCard(deck, id) == deck
    decreases |deck|
  {
    if deck != [] {
      assert deck[0] in deck;
      assert Ids(deck[1..]) <= Ids(deck) by {
        forall x | x in deck[1..] ensures x in deck { }
      }
      DeleteAbsent(deck[1..], id);
      assert [deck[0]] + deck[1..] == deck;
    }
  }

  /** Deletion removes the id from the deck's ids and nothing else. */
  lemma DeleteIds(deck: seq<Flashcard>, id: string)
    ensures Ids(DeleteCard(deck, id)) == Ids(deck) - {id}
  {
    var r := DeleteCard(deck, id);
    forall x | x in Ids(deck) - {id} ensures x in Ids(r) {
      var y :| y in deck && y.id == x;
      assert y in r;
    }
  }

  /** Deletion keeps every deck invariant. */
  lemma DeleteKeeps(deck: seq<Flashcard>, id: string)
    ensures UniqueIds(deck) ==> UniqueIds(DeleteCard(deck, id))
    ensures UniqueKeys(deck) ==> UniqueKeys(DeleteCard(deck, id))
    ensures NewestFirst(deck) ==> NewestFirst(DeleteCard(deck, id))
  {
    if UniqueIds(deck) { DeleteKeepsIds(deck, id); }
    if UniqueKeys(deck) { DeleteKeepsKeys(deck, id); }
    if NewestFirst(deck) { DeleteKeepsOrder(deck, id); }
  }

  /** A card left by the deletion from the rest of the deck stands somewhere behind the first
      card. */
  lemma DeleteTail(deck: seq<Flashcard>, id: string, j: nat) returns (k: nat)
    requires deck != [] && j < |DeleteCard(deck[1..], id)|
    ensures 1 <= k < |deck| && deck[k] == DeleteCard(deck[1..], id)[j]
  {
    var tail := DeleteCard(deck[1..], id);
    assert tail[j] in deck[1..];
    var m :| 0 <= m < |deck[1..]| && deck[1..][m] == tail[j];
    k := m + 1;
  }

  lemma {:induction false} DeleteKeepsIds(deck: seq<Flashcard>, id: string)
    requires UniqueIds(deck)
    ensures UniqueIds(DeleteCard(deck, id))
    decreases |deck|
  {
    if deck != [] {
      DeleteKeepsIds(deck[1..], id);
      var tail := DeleteCard(deck[1..], id);
      var r := DeleteCard(deck, id);
      if deck[0].id != id {
        assert r == [deck[0]] + tail;
        forall j | 0 < j < |r| ensures r[0].id != r[j].id {
          var k := DeleteTail(deck, id, j - 1);
        }
      }
    }
  }

  lemma {:induction false} DeleteKeepsKeys(deck: seq<Flashcard>, id: string)
    requires UniqueKeys(deck)
    ensures UniqueKeys(DeleteCard(deck, id))
    decreases |deck|
  {
    if deck != [] {
      DeleteKeepsKeys(deck[1..], id);
      var tail := DeleteCard(deck[1..], id);
      var r := DeleteCard(deck, id);
      if deck[0].id != id {
        assert r == [deck[0]] + tail;
        forall j | 0 < j < |r| ensures KeyOf(r[0]) != KeyOf(r[j]) {
          var k := DeleteTail(deck, id, j - 1);
        }
      }
    }
  }

  lemma {:induction false} DeleteKeepsOrder(deck: seq<Flashcard>, id: string)
    requires NewestFirst(deck)
    ensures NewestFirst(DeleteCard(deck, id))
    decreases |deck|
  {
    if deck != [] {
      DeleteKeepsOrder(deck[1..], id);
      var tail := DeleteCard(deck[1..], id);
      var r := DeleteCard(deck, id);
      if deck[0].id != id {
        assert r == [deck[0]] + tail;
        forall j | 0 < j < |r| ensures r[0].createdAt >= r[j].createdAt {
          var k := DeleteTail(deck, id, j - 1);
        }
      }
    }
  }
}
