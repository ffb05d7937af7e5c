/** The study session of components/StudySession.tsx: a shuffled snapshot of the cards that are
    not yet Mastered, taken once when the session mounts, and an index that `handleNext` steps
    through it while reporting each answer to the deck. */
module Study {
  import opened Types
  import opened FlashcardsView

  /** `cards.filter(c => c.status !== FlashcardStatus.Mastered)`. */
  function NonMastered(cards: seq<Flashcard>): (r: seq<Flashcard>)
    ensures forall c :: c in r <==> c in cards && c.status != Mastered
    ensures forall c :: multiset(r)[c] == if c.status != Mastered then multiset(cards)[c] else 0
    ensures |r| <= |cards|
  {
    if cards == [] then []
    else
      assert cards == [cards[0]] + cards[1..];
      (if cards[0].status != Mastered then [cards[0]] else []) + NonMastered(cards[1..])
  }

  /** The random reordering `[...validCards].sort(() => Math.random() - 0.5)`. The random
      draws are given as `choices`: each picks the position, among the cards left, of the next
      card of the result (the first card left when the draw is out of range or missing). */
  function Shuffle(s: seq<Flashcard>, choices: seq<nat>): (r: seq<Flashcard>)
    ensures multiset(r) == multiset(s)
    decreases |s|
  {
    if s == [] then []
    else
      var k := if choices != [] && choices[0] < |s| then choices[0] else 0;
      assert s == s[..k] + [s[k]] + s[k + 1..];
      [s[k]] + Shuffle(s[..k] + s[k + 1..], if choices == [] then [] else choices[1..])
  }

  /** Every reordering of the cards is the outcome of some draws, so the model of the shuffle
      excludes no order the browser could produce. */
  lemma {:induction false} ShuffleReaches(s: seq<Flashcard>, t: seq<Flashcard>) returns (choices: seq<nat>)
    requires multiset(t) == multiset(s)
    ensures Shuffle(s, choices) == t
    decreases |s|
  {
    if s == [] {
      assert |t| == |multiset(t)| == 0;
      choices := [];
    } else {
      assert |t| == |multiset(s)| == |s|;
      var k := IndexOf(s, t[0]);
      RemoveMatching(s, k, t);
      var c := ShuffleReaches(s[..k] + s[k + 1..], t[1..]);
      choices := [k] + c;
      ShuffleStep(s, k, c);
      assert t == [t[0]] + t[1..];
    }
  }

  /** A draw in range takes the card at that position first. */
  lemma ShuffleStep(s: seq<Flashcard>, k: nat, c: seq<nat>)
    requires k < |s|
    ensures Shuffle(s, [k] + c) == [s[k]] + Shuffle(s[..k] + s[k + 1..], c)
  {
    assert ([k] + c)[0] == k && ([k] + c)[1..] == c;
  }

  /** A position at which a card of the ordering stands. */
  lemma IndexOf(s: seq<Flashcard>, x: Flashcard) returns (k: nat)
    requires x in multiset(s)
    ensures k < |s| && s[k] == x
  {
    k :| 0 <= k < |s| && s[k] == x;
  }

  /** Taking the same card off the front of one ordering and out of another leaves two
      orderings of the same cards. */
  lemma RemoveMatching(s: seq<Flashcard>, k: nat, t: seq<Flashcard>)
    requires k < |s| && t != [] && t[0] == s[k] && multiset(t) == multiset(s)
    ensures multiset(t[1..]) == multiset(s[..k] + s[k + 1..])
  {
    assert t == [t[0]] + t[1..];
    assert s == s[..k] + [s[k]] + s[k + 1..];
    calc {
      multiset(t[1..]);
      multiset(t) - multiset{t[0]};
      multiset(s) - multiset{s[k]};
      multiset(s[..k]) + multiset(s[k + 1..]);
    }
  }

  /** The study queue holds every card that is New, Learning or of an unrecognised status. */
  lemma {:induction false} QueueSize(cards: seq<Flashcard>)
    ensures |NonMastered(cards)| == StudyQueueCount(cards) + |Unrecognized(cards)|
    decreases |cards|
  {
    if cards != [] {
      QueueSize(cards[1..]);
    }
  }

  /** On a deck with only the three enum values the session has exactly `studyQueueCount` cards,
      so the study button is disabled exactly when the session would be empty. */
  lemma QueueMatchesButton(cards: seq<Flashcard>)
    requires forall i :: 0 <= i < |cards| ==> Recognized(cards[i].status)
    ensures |NonMastered(cards)| == StudyQueueCount(cards)
    ensures StudyDisabled(cards) <==> NonMastered(cards) == []
  {
    QueueSize(cards);
    NoneUnrecognized(cards);
  }

  /** `isAllMastered`: the deck is not empty and every card in it is Mastered. */
  predicate AllMastered(cards: seq<Flashcard>) {
    |cards| > 0 && forall i :: 0 <= i < |cards| ==> cards[i].status == Mastered
  }

  /** A deck is all mastered exactly when it is not empty and nothing of it enters a session. */
  lemma {:induction false} AllMasteredIff(cards: seq<Flashcard>)
    ensures AllMastered(cards) <==> cards != [] && NonMastered(cards) == []
    decreases |cards|
  {
    if cards != [] {
      AllMasteredIff(cards[1..]);
      assert forall i :: 1 <= i < |cards| ==> cards[i] == cards[1..][i - 1];
    }
  }

  /** What `onUpdateStatus` is called with: the id of the card answered and the chosen status. */
  datatype StatusReport = StatusReport(id: string, status: Status)

  /** A shuffle of the non-mastered cards holds no Mastered card. */
  lemma QueueNotMastered(cards: seq<Flashcard>, choices: seq<nat>)
    ensures forall i :: 0 <= i < |Shuffle(NonMastered(cards), choices)| ==>
      Shuffle(NonMastered(cards), choices)[i].status != Mastered
  {
    var queue := Shuffle(NonMastered(cards), choices);
    forall i | 0 <= i < |queue| ensures queue[i].status != Mastered {
      assert queue[i] in multiset(NonMastered(cards));
      assert queue[i] in NonMastered(cards);
    }
  }

  class Session {
    /** The `cards` prop: the live deck of the parent, which follows every reported status. */
    var cards: seq<Flashcard>
    /** The queue, fixed when the session mounts. */
    var queue: seq<Flashcard>
    var currentIndex: nat

    /** The index never passes the end of the queue, and the queue holds no Mastered card. */
    ghost predicate Valid()
      reads this
    {
      currentIndex <= |queue| && forall i :: 0 <= i < |queue| ==> queue[i].status != Mastered
    }

    /** Mounting the session: the queue is the non-mastered cards in the order the draws give. */
    constructor (cards: seq<Flashcard>, choices: seq<nat>)
      ensures Valid()
      ensures this.cards == cards && currentIndex == 0
      ensures queue == Shuffle(NonMastered(cards), choices)
      ensures multiset(queue) == multiset(NonMastered(cards))
    {
      this.cards := cards;
      queue := Shuffle(NonMastered(cards), choices);
      currentIndex := 0;
      new;
      QueueNotMastered(cards, choices);
    }

    /** `queue[currentIndex]`, which is `undefined` past the end. */
    function CurrentCard(): (r: Option<Flashcard>)
      reads this
      ensures r.Some? <==> currentIndex < |queue|
      ensures r.Some? ==> r.value in queue
      ensures Valid() && r.Some? ==> r.value.status != Mastered
    {
      if currentIndex < |queue| then Some(queue[currentIndex]) else None
    }

    /** The completion view is shown once there is no current card. */
    predicate IsComplete()
      reads this
    {
      CurrentCard().None?
    }

    /** The heading of the completion view: "All Cards Mastered!" against the live deck. */
    predicate ShowsAllMastered()
      reads this
    {
      IsComplete() && AllMastered(cards)
    }

    /** `handleNext`: with no current card nothing happens; otherwise the answer is reported for
        the current card and the index moves on by one. The queue and the deck are not touched
        here; the deck changes when the parent applies the report. */
    method HandleNext(status: Status) returns (report: Option<StatusReport>)
      requires Valid()
      modifies this`currentIndex
      ensures Valid()
      ensures old(currentIndex) >= |queue| ==> report == None && currentIndex == old(currentIndex)
      ensures old(currentIndex) < |queue| ==>
        report == Some(StatusReport(queue[old(currentIndex)].id, status)) && currentIndex == old(currentIndex) + 1
    {
      var current := CurrentCard();
      if current.None? {
        return None;
      }
      report := Some(StatusReport(current.value.id, status));
      currentIndex := currentIndex + 1;
    }

    /** A new `cards` prop from the parent (after a reported status, say): the queue is a
        snapshot, so neither it nor the position in it changes. */
    method CardsChanged(newCards: seq<Flashcard>)
      requires Valid()
      modifies this`cards
      ensures Valid()
      ensures cards == newCards
    {
      cards := newCards;
    }
  }

  /** Mounting on a deck that is all mastered shows the "All Cards Mastered!" view at once. */
  method MountAllMastered(cards: seq<Flashcard>, choices: seq<nat>) returns (s: Session)
    requires AllMastered(cards)
    ensures s.ShowsAllMastered()
  {
    AllMasteredIff(cards);
    s := new Session(cards, choices);
    assert |s.queue| == |multiset(NonMastered(cards))| == 0;
  }
}
