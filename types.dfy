/** The data model of types.ts: a flashcard, its status and the dictionary entry it is made from,
    with the two identities a deck is checked against (the id and the content key). */
module Types {
  import opened JsString

  datatype Option<+T> = None | Some(value: T)

  /** `FlashcardStatus`. The enum has three values; a status read from a CSV file is not
      validated, so a deck can also hold a status text that is none of them (`Other`). */
  datatype Status = New | Learning | Mastered | Other(text: string)

  /** The string value of the status, as `String(status)` renders it. */
  function StatusText(s: Status): string {
    match s
    case New => "New"
    case Learning => "Learning"
    case Mastered => "Mastered"
    case Other(t) => t
  }

  /** The status is one of the three enum values. */
  predicate Recognized(s: Status) {
    !s.Other?
  }

  /** `Flashcard`; the optional `phonetic` and `example` are `None` when the property is absent. */
  datatype Flashcard = Flashcard(
    id: string,
    word: string,
    phonetic: Option<string>,
    mainDefinition: string,
    example: Option<string>,
    partOfSpeech: string,
    status: Status,
    lastReviewed: nat,
    createdAt: nat)

  /** `WordEntry` as the card logic uses it: the looked-up word and its pronunciation. */
  datatype WordEntry = WordEntry(word: string, phonetic: Option<string>)

  /** The content key: the word compared case-insensitively and the definition compared exactly. */
  datatype ContentKey = ContentKey(word: string, definition: string)

  function KeyOf(c: Flashcard): ContentKey {
    ContentKey(Lower(c.word), c.mainDefinition)
  }

  predicate SameContent(a: Flashcard, b: Flashcard) {
    KeyOf(a) == KeyOf(b)
  }

  function Ids(deck: seq<Flashcard>): set<string> {
    set c | c in deck :: c.id
  }

  /** No two cards of the deck share an id. */
  ghost predicate UniqueIds(deck: seq<Flashcard>) {
    forall i, j :: 0 <= i < j < |deck| ==> deck[i].id != deck[j].id
  }

  /** No two cards of the deck share a content key. */
  ghost predicate UniqueKeys(deck: seq<Flashcard>) {
    forall i, j :: 0 <= i < j < |deck| ==> KeyOf(deck[i]) != KeyOf(deck[j])
  }

  /** The display order: `createdAt` never increases along the deck. */
  ghost predicate NewestFirst(deck: seq<Flashcard>) {
    forall i, j :: 0 <= i < j < |deck| ==> deck[i].createdAt >= deck[j].createdAt
  }
}
