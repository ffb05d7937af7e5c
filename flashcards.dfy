/** The derived state of the deck view in components/Flashcards.tsx: the status counts, the
    status filter, the toggle of the selected filter and the gating of the study button. */
module FlashcardsView {
  import opened Types

  /** `cards.filter(c => c.status === status)`. */
  function WithStatus(cards: seq<Flashcard>, status: Status): (r: seq<Flashcard>)
    ensures |r| <= |cards|
  {
    if cards == [] then []
    else (if cards[0].status == status then [cards[0]] else []) + WithStatus(cards[1..], status)
  }

  /** The filter keeps exactly the cards of the deck that have the status. */
  lemma {:induction false} WithStatusKeeps(cards: seq<Flashcard>, status: Status)
    ensures forall c :: c in WithStatus(cards, status) <==> c in cards && c.status == status
    decreases |cards|
  {
    if cards != [] {
      WithStatusKeeps(cards[1..], status);
      assert cards == [cards[0]] + cards[1..];
    }
  }

  /** The filter works card by card, so on a deck in two parts it filters each part and keeps
      the deck's order. */
  lemma {:induction false} WithStatusSplits(a: seq<Flashcard>, b: seq<Flashcard>, status: Status)
    ensures WithStatus(a + b, status) == WithStatus(a, status) + WithStatus(b, status)
    decreases |a|
  {
    if a != [] {
      assert (a + b)[1..] == a[1..] + b;
      WithStatusSplits(a[1..], b, status);
    } else {
      assert a + b == b;
    }
  }

  /** The number of cards with the given status (`newCount`, `learningCount`, `masteredCount`). */
  function CountStatus(cards: seq<Flashcard>, status: Status): nat {
    |WithStatus(cards, status)|
  }

  /** The cards whose status text is none of the three enum values; only a CSV import can bring
      such a card in. */
  function Unrecognized(cards: seq<Flashcard>): (r: seq<Flashcard>)
    ensures forall c :: c in r <==> c in cards && !Recognized(c.status)
  {
    if cards == [] then []
    else (if Recognized(cards[0].status) then [] else [cards[0]]) + Unrecognized(cards[1..])
  }

  /** Every card is counted once: by the count of its status, or as unrecognised. */
  lemma {:induction false} CountsPartition(cards: seq<Flashcard>)
    ensures CountStatus(cards, New) + CountStatus(cards, Learning) + CountStatus(cards, Mastered)
            + |Unrecognized(cards)| == |cards|
    decreases |cards|
  {
    if cards != [] {
      CountsPartition(cards[1..]);
    }
  }

  /** With only the three enum values in the deck, the three counts add up to the deck size. */
  lemma CountsSum(cards: seq<Flashcard>)
    requires forall i :: 0 <= i < |cards| ==> Recognized(cards[i].status)
    ensures CountStatus(cards, New) + CountStatus(cards, Learning) + CountStatus(cards, Mastered) == |cards|
  {
    CountsPartition(cards);
    NoneUnrecognized(cards);
  }

  lemma {:induction false} NoneUnrecognized(cards: seq<Flashcard>)
    requires forall i :: 0 <= i < |cards| ==> Recognized(cards[i].status)
    ensures Unrecognized(cards) == []
    decreases |cards|
  {
    if cards != [] {
      assert Recognized(cards[0].status);
      NoneUnrecognized(cards[1..]);
    }
  }

  /** `filteredCards`: the whole deck with no selection, otherwise the cards with the selected
      status in deck order. */
  function FilteredCards(cards: seq<Flashcard>, selected: Option<Status>): (r: seq<Flashcard>)
    ensures selected.None? ==> r == cards
    ensures selected.Some? ==> forall c :: c in r <==> c in cards && c.status == selected.value
    ensures selected.Some? ==> r == WithStatus(cards, selected.value)
  {
    match selected
    case None => cards
    case Some(s) => WithStatusKeeps(cards, s); WithStatus(cards, s)
  }

  /** `handleStatusClick`: clicking the selected status clears the selection, clicking any other
      status selects it. */
  function StatusClick(selected: Option<Status>, clicked: Status): (r: Option<Status>)
    ensures r == None <==> selected == Some(clicked)
    ensures r != None ==> r == Some(clicked)
  {
    if selected == Some(clicked) then None else Some(clicked)
  }

  /** Clicking the same status twice from no selection, or from that status, comes back to where
      it started; from another selection it ends with none. */
  lemma ClickTwice(selected: Option<Status>, clicked: Status)
    ensures selected == None || selected == Some(clicked) ==>
      StatusClick(StatusClick(selected, clicked), clicked) == selected
    ensures selected != None && selected != Some(clicked) ==>
      StatusClick(StatusClick(selected, clicked), clicked) == None
  {
  }

  /** `studyQueueCount`: the cards still to study, New and Learning. */
  function StudyQueueCount(cards: seq<Flashcard>): nat {
    CountStatus(cards, New) + CountStatus(cards, Learning)
  }

  /** The "Start studying" button is disabled when `studyQueueCount === 0`. */
  predicate StudyDisabled(cards: seq<Flashcard>) {
    StudyQueueCount(cards) == 0
  }

  /** The study button is disabled exactly when no card is New or Learning. */
  lemma {:induction false} StudyDisabledIff(cards: seq<Flashcard>)
    ensures StudyDisabled(cards) <==> forall i :: 0 <= i < |cards| ==> cards[i].status != New && cards[i].status != Learning
    decreases |cards|
  {
    if cards != [] {
      StudyDisabledIff(cards[1..]);
      assert forall i :: 1 <= i < |cards| ==> cards[i] == cards[1..][i - 1];
    }
  }
}
