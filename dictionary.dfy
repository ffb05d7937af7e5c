/** The dictionary view of components/Dictionary.tsx: the already-saved test that gates each
    "add" button, and the guards around the word search and the suggestion fetch. The lookup
    and the suggestion service are outside the model; their answers are parameters. */
module DictionaryView {
  import opened JsString
  import opened Types
  import opened Merge
  import opened Deck

  /** `isWordSaved(word, def)`: some card of the deck has this word, compared without case, and
      exactly this definition. */
  function IsWordSaved(cards: seq<Flashcard>, word: string, def: string): (r: bool)
    ensures r <==> exists i :: 0 <= i < |cards| && Lower(cards[i].word) == Lower(word) && cards[i].mainDefinition == def
    decreases |cards|
  {
    if cards == [] then false
    else
      var rest := IsWordSaved(cards[1..], word, def);
      assert rest ==> exists i :: 0 <= i < |cards| && Lower(cards[i].word) == Lower(word) && cards[i].mainDefinition == def by {
        if rest {
          var i :| 0 <= i < |cards[1..]| && Lower(cards[1..][i].word) == Lower(word) && cards[1..][i].mainDefinition == def;
          assert cards[i + 1] == cards[1..][i];
        }
      }
      (Lower(cards[0].word) == Lower(word) && cards[0].mainDefinition == def) || rest
  }

  /** The test is the content key the merge matches cards by: a definition is saved exactly when
      the card the "add" button would build has a duplicate in the deck. */
  lemma SavedIffDuplicate(cards: seq<Flashcard>, id: string, entry: WordEntry, definition: string,
                          example: string, partOfSpeech: string, now: nat)
    ensures IsWordSaved(cards, entry.word, definition) <==>
      FindMatch(cards, NewCard(id, entry, definition, example, partOfSpeech, now)).Some?
  {
    var c := NewCard(id, entry, definition, example, partOfSpeech, now);
    assert KeyOf(c) == ContentKey(Lower(entry.word), definition);
    if IsWordSaved(cards, entry.word, definition) {
      var i :| 0 <= i < |cards| && Lower(cards[i].word) == Lower(entry.word) && cards[i].mainDefinition == definition;
      assert SameContent(cards[i], c);
    }
  }

  /** `def.example || ''`: a missing or empty example is passed on as the empty text. */
  function ExampleText(example: Option<string>): (r: string)
    ensures example.Some? ==> r == example.value
    ensures example.None? ==> r == ""
  {
    match example
    case None => ""
    case Some(e) => OrElse(e, "")
  }

  /** A click on the "add" button of one definition: the button is disabled when the definition
      is saved, so the deck stays as it was; otherwise `onAddCard` puts the new card in front. */
  function AddClick(cards: seq<Flashcard>, id: string, entry: WordEntry, definition: string,
                    example: Option<string>, partOfSpeech: string, now: nat): (r: seq<Flashcard>)
    ensures IsWordSaved(cards, entry.word, definition) ==> r == cards
    ensures !IsWordSaved(cards, entry.word, definition) ==>
      r == AddCard(cards, id, entry, definition, ExampleText(example), partOfSpeech, now)
  {
    if IsWordSaved(cards, entry.word, definition) then cards
    else AddCard(cards, id, entry, definition, ExampleText(example), partOfSpeech, now)
  }

  /** The "add" button never brings a second card with the same content into the deck, and with
      a fresh id it keeps ids unique. */
  lemma AddClickKeeps(cards: seq<Flashcard>, id: string, entry: WordEntry, definition: string,
                      example: Option<string>, partOfSpeech: string, now: nat)
    ensures UniqueKeys(cards) ==> UniqueKeys(AddClick(cards, id, entry, definition, example, partOfSpeech, now))
    ensures UniqueIds(cards) && id !in Ids(cards) ==>
      UniqueIds(AddClick(cards, id, entry, definition, example, partOfSpeech, now))
  {
    var r := AddClick(cards, id, entry, definition, example, partOfSpeech, now);
    if !IsWordSaved(cards, entry.word, definition) {
      var c := NewCard(id, entry, definition, ExampleText(example), partOfSpeech, now);
      SavedIffDuplicate(cards, id, entry, definition, ExampleText(example), partOfSpeech, now);
      AddCardKeeps(cards, id, entry, definition, ExampleText(example), partOfSpeech, now);
      assert r == [c] + cards;
      if UniqueKeys(cards) {
        forall i, j | 0 <= i < j < |r| ensures KeyOf(r[i]) != KeyOf(r[j]) {
          assert r[j] == cards[j - 1];
          if i > 0 {
            assert r[i] == cards[i - 1];
          }
        }
      }
    }
  }

  /** What the lookup of a word gives back: an entry, nothing (`null` or an entry without a
      word), or an exception. */
  datatype Lookup = Found(entry: WordEntry) | NotFound | Failed

  /** The state of the view the search and the suggestions act on. */
  datatype SearchState = SearchState(
    query: string,
    result: Option<WordEntry>,
    error: string,
    suggestions: seq<string>,
    showSuggestions: bool)

  function NotFoundMessage(searchQuery: string): string {
    "Could not find a definition for \"" + searchQuery + "\"."
  }

  const FailureMessage: string := "An error occurred while fetching the definition. Please try again."

  /** `performSearch(searchQuery)` once the lookup has answered. A query that trims to nothing is
      ignored; otherwise the dropdown closes and either the entry is shown, with its word in the
      input, or an error is. */
  function PerformSearch(st: SearchState, searchQuery: string, lookup: Lookup): (r: SearchState)
    ensures Trim(searchQuery) == "" ==> r == st
    ensures Trim(searchQuery) != "" ==>
      !r.showSuggestions && r.suggestions == st.suggestions &&
      (r.result.Some? <==> lookup.Found? && lookup.entry.word != "") &&
      (r.result.Some? ==> r.result == Some(lookup.entry) && r.query == lookup.entry.word && r.error == "") &&
      (r.result.None? ==> r.query == st.query && r.error != "")
  {
    if Trim(searchQuery) == "" then st
    else
      var cleared := st.(error := "", result := None, showSuggestions := false);
      match lookup
      case Found(e) =>
        if e.word != "" then cleared.(result := Some(e), query := e.word)
        else cleared.(error := NotFoundMessage(searchQuery))
      case NotFound => cleared.(error := NotFoundMessage(searchQuery))
      case Failed => cleared.(error := FailureMessage)
  }

  /** A search on a query that is blank or only whitespace does nothing, and a search on any
      other query always ends with an entry or an error on screen. */
  lemma SearchIgnoresBlank(st: SearchState, searchQuery: string, lookup: Lookup)
    ensures (forall i :: 0 <= i < |searchQuery| ==> IsWhitespace(searchQuery[i])) <==> Trim(searchQuery) == ""
    ensures (forall i :: 0 <= i < |searchQuery| ==> IsWhitespace(searchQuery[i])) ==>
      PerformSearch(st, searchQuery, lookup) == st
    ensures !(forall i :: 0 <= i < |searchQuery| ==> IsWhitespace(searchQuery[i])) ==>
      PerformSearch(st, searchQuery, lookup).result.Some? != (PerformSearch(st, searchQuery, lookup).error != "")
  {
    TrimEmptyIff(searchQuery);
  }

  /** Submitting the form searches the text in the input: a blank input changes nothing, and an
      input that is not found stays as it was typed. */
  function Submit(st: SearchState, lookup: Lookup): (r: SearchState)
    ensures Trim(st.query) == "" ==> r == st
    ensures r.result.None? ==> r.query == st.query
  {
    PerformSearch(st, st.query, lookup)
  }

  /** Picking a suggestion puts it in the input and searches it: unless the lookup finds an
      entry, the input keeps the picked word, even when the search is ignored. */
  function SuggestionClick(st: SearchState, word: string, lookup: Lookup): (r: SearchState)
    ensures r.result.None? ==> r.query == word
    ensures Trim(word) != "" && r.result.Some? ==>
      lookup.Found? && r.result == Some(lookup.entry) && r.query == lookup.entry.word
  {
    PerformSearch(st.(query := word), word, lookup)
  }

  /** What the debounced suggestion effect does for the current query and result. */
  datatype SuggestionAction = Clear | Skip | Fetch

  /** A query under two UTF-16 code units once trimmed clears the suggestions; a query that is
      the word on display, compared without case, fetches nothing; any other query fetches. */
  function SuggestionStep(query: string, result: Option<WordEntry>): (r: SuggestionAction)
    ensures r == Clear <==> Utf16Length(Trim(query)) < 2
    ensures r == Skip <==> Utf16Length(Trim(query)) >= 2 && result.Some? && Lower(query) == Lower(result.value.word)
  {
    if Utf16Length(Trim(query)) < 2 then Clear
    else if result.Some? && Lower(query) == Lower(result.value.word) then Skip
    else Fetch
  }

  /** `length` counts code units: a query of one character outside the Basic Multilingual Plane
      is two units long, so it is not cleared, while one other character is. */
  lemma SingleCharQuery(ch: char, result: Option<WordEntry>)
    ensures SuggestionStep([ch], result) == Clear <==> ch as int < 0x1_0000
  {
    if ch as int >= 0x1_0000 {
      assert !IsWhitespace(ch);
      TrimKeeps([ch]);
    }
  }

  /** `fetchSuggestions` once the suggestion service has answered with `words`. */
  function FetchSuggestions(st: SearchState, words: seq<string>): (r: SearchState)
    ensures r.query == st.query && r.result == st.result && r.error == st.error
    ensures SuggestionStep(st.query, st.result) == Clear ==> r.suggestions == [] && r.showSuggestions == st.showSuggestions
    ensures SuggestionStep(st.query, st.result) == Skip ==> r == st
    ensures SuggestionStep(st.query, st.result) == Fetch ==> r.suggestions == words && (r.showSuggestions <==> words != [])
  {
    match SuggestionStep(st.query, st.result)
    case Clear => st.(suggestions := [])
    case Skip => st
    case Fetch => st.(suggestions := words, showSuggestions := |words| > 0)
  }

  /** After a search that found its word, the suggestion effect that follows fetches nothing, so
      the dropdown does not open again over the result; and it stays closed. */
  lemma FoundSearchStaysQuiet(st: SearchState, searchQuery: string, lookup: Lookup, words: seq<string>)
    requires Trim(searchQuery) != "" && lookup.Found? && lookup.entry.word != ""
    ensures SuggestionStep(PerformSearch(st, searchQuery, lookup).query, PerformSearch(st, searchQuery, lookup).result) != Fetch
    ensures !FetchSuggestions(PerformSearch(st, searchQuery, lookup), words).showSuggestions
  {
    var r := PerformSearch(st, searchQuery, lookup);
    assert r.query == r.result.value.word && !r.showSuggestions;
  }
}
