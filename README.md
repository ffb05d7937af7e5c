# Lumina card collection, modelled in Dafny

Lumina is a vocabulary app. You look words up in a dictionary and save chosen definitions as flashcards. The deck can then be studied, exported and imported as CSV, kept in sync with a local CSV file, and backed up to a Pantry cloud basket.

This project models the part of the app that owns the deck:

- **The merge engine** (`performMerge`). It folds a batch of incoming cards into the deck.
  - The deck is held in a map keyed by card id.
  - An incoming card is first matched by its *content key*: the word compared without case, plus the exact definition.
  - A matched card is overlaid on the existing card, and the existing id is kept.
  - An unmatched card is upserted by its id.
  - The result is sorted newest first.
- **The deck mutations**: adding, updating the status of, and deleting a card.
- **The orchestration of `App`**. It covers:
  - the startup load (local snapshot, else the bundled CSV, then a merge of the cloud deck);
  - the three save destinations: the local snapshot, a connected file, and the cloud basket;
  - the file and cloud handlers.
- **The CSV codec**. `generateCSV` follows the quoting rule of section 2 of RFC 4180 (items 6 and 7). `parseCSV` is a quote-aware splitter with row validation and defaults. The model proves the round trip between them, and shows where the round trip breaks.
- **Derived state in the views**:
  - the deck statistics and status filter;
  - the study session queue;
  - the already-saved test and the search guards of the dictionary view.

Module layout, one file each:

| Module | Models |
|---|---|
| `JsString` | The JavaScript string behaviour the code relies on: `trim`, `toLowerCase`, `String(n)`, `parseInt`, and `a \|\| b` on strings. |
| `Types` | `types.ts` |
| `CsvService` | `services/csvService.ts` |
| `Merge` | `performMerge` |
| `Deck` | The add, update and delete handlers. |
| `Sync` | The `App` class: the deck, the file handle, the cloud configuration, the stored snapshot and configuration, one pending write per save destination, and a log of what was sent. |
| `FlashcardsView` | `components/Flashcards.tsx` |
| `Study` | `components/StudySession.tsx`, as a `Session` class. |
| `DictionaryView` | `components/Dictionary.tsx` |

Values the browser supplies are parameters of the model:

- `crypto.randomUUID()` is `id`, or `freshId(line)` while parsing.
- `Date.now()` is `now`. While a CSV text is parsed, it is `clock(line)`: the reader asks the clock again for each row whose created-at cell is empty.
- The `Math.random` shuffle is a sequence of draws; every ordering is reachable (`Study.ShuffleReaches`).
- The answers of the dictionary lookup, the suggestion service, the file picker and the Pantry service are parameters too.

The `getDeck` call never fails (services/pantryService.ts:25-45): a failed pull reads as an empty deck. Of the reads, only the validation call `getDetails` can fail (services/pantryService.ts:13-23). The write `updateDeck` can fail too (services/pantryService.ts:58-59); see "## Left out".

Behaviour of the code that the model keeps as written:

- **Status on import.** A status cell is not validated; any non-empty text is kept as `Other(text)`. `(values[6] as FlashcardStatus) || New` maps only the empty text to `New`, so `Status` has a fourth case, `Other(text)`, which only an import can produce.
- **Line feeds inside cells.** A line feed inside a cell does not round-trip. `generateCSV` quotes it, but `parseCSV` cuts the text into lines before it looks at quotes, so no card read back has a line feed in a text cell and the written card does not come back (`CsvService.LineFeedCutsRow`).
- **Startup cloud load.** At startup the stored Pantry id is not validated, only pulled. The configuration is armed whenever the stored id is non-empty.
- **Empty-id match.** A content match found under the empty id is not taken as a match, because `if (duplicateId)` is false for `""`. The incoming card is then upserted, and the deck ends up holding the same content key twice (`Merge.EmptyIdKeepsDuplicate`). Content-key uniqueness is therefore proved for decks whose ids are not empty (`Merge.KeysStayUnique`); the previous deck may repeat an id.

## Model

| member | source | states |
|---|---|---|
| JsString.Trim | services/csvService.ts:52 | `trim` gives a slice of its input that neither starts nor ends with whitespace, and everything cut off before and after the slice is whitespace |
| JsString.TrimWithin | services/csvService.ts:52 | a character absent from a text is absent from its trim |
| JsString.TrimKeeps | services/csvService.ts:52 | a text that starts and ends with non-whitespace is its own trim |
| JsString.TrimEmptyIff | components/Dictionary.tsx:56 | a text trims to nothing exactly when every character is whitespace |
| JsString.Utf16Length | components/Dictionary.tsx:26 | `length` counts one unit per character of the Basic Multilingual Plane and two per character above it, so it equals the character count exactly when no character is above it |
| JsString.Lower | App.tsx:39 | `toLowerCase` keeps the length and folds each character on its own |
| JsString.NatToString | services/csvService.ts:36-37 | `String(n)` of a timestamp is a non-empty run of decimal digits |
| JsString.ParseIntOfString | services/csvService.ts:94-95 | `parseInt(String(n), 10) == n` for every natural `n` |
| CsvService.EscapeField | services/csvService.ts:18-26 | absent gives `""`; the result is quote-wrapped exactly when the text holds a quote, comma or line feed; otherwise the text is unchanged; a line feed is in the result exactly when it is in the text |
| CsvService.HeaderLine | services/csvService.ts:6-16 | the header line, the nine column names joined by commas, holds no line feed and ends with a letter |
| CsvService.Lines | services/csvService.ts:28-40 | the header line first, then line k is the comma-joined escaped row of card k-1, one line per card in deck order |
| CsvService.GenerateCsv | services/csvService.ts:3-41 | an empty deck is written as the header line alone |
| CsvService.RowShape | services/csvService.ts:28-38 | the row of a portable card has no line feed, starts with non-whitespace and ends with a digit |
| CsvService.SplitLines | services/csvService.ts:45 | `split(/\r?\n/)` gives at least one line, exactly one when the text has no line feed, and no line holds a line feed |
| CsvService.Scan | services/csvService.ts:56-78 | the splitter keeps the cells already closed and always pushes a last cell |
| CsvService.SplitRow | services/csvService.ts:56-78 | the character loop computes the quote-aware split of the line |
| CsvService.ScanQuoted | services/csvService.ts:64-70 | inside quotes a doubled quote reads as one quote, commas are kept, and the lone quote closes the cell |
| CsvService.ScanPlain | services/csvService.ts:71-76 | outside quotes the characters of a cell without quote or comma are read unchanged |
| CsvService.ScanField | services/csvService.ts:60-78 | one escaped cell followed by a comma or the line end reads back as its text |
| CsvService.ScanJoin | services/csvService.ts:38 | the comma join of escaped texts splits back into exactly those texts |
| CsvService.RowSplits | services/csvService.ts:28-38 | every card row, whatever its cells hold, splits back into its nine cell texts |
| CsvService.StatusOf | services/csvService.ts:93 | an empty status reads as New, and any other text is kept as the status text, unvalidated |
| CsvService.TimestampAsWritten | services/csvService.ts:94-95 | a timestamp cell reads as `parseInt` of the cell, or of the written fallback (0, or now) when the cell is empty |
| CsvService.RowToCard | services/csvService.ts:84-96 | the id cell or else the fresh id; cells 1-5 as they are; the status default; `lastReviewed` 0 and `createdAt` now when their cells are empty |
| CsvService.CardBack | services/csvService.ts:84-95 | the cells of a portable card rebuild the card, with optional fields filled |
| CsvService.LineOf | services/csvService.ts:52-96 | one pass of the line loop (trim, skip a blank line, split, keep rows of seven or more cells) gives at most one card |
| CsvService.BlankLineSkipped | services/csvService.ts:52-53 | a line that is blank after trimming yields no card |
| CsvService.RowsBefore | services/csvService.ts:51-97 | the lines after the header give at most one card each |
| CsvService.Parse | services/csvService.ts:43-100 | an empty text, or a text of one line (no line feed), parses to no cards |
| CsvService.ParseCsv | services/csvService.ts:43-100 | the imperative reader computes `Parse` |
| CsvService.ReadLines | services/csvService.ts:51-97 | the line loop, from the line after the header to the last line, collects the cards of every line in file order, each line with its own clock reading |
| CsvService.ReadLine | services/csvService.ts:52-96 | trimming, the blank-line skip, the character loop and the seven-cell test compute `LineOf` |
| CsvService.SplitJoin | services/csvService.ts:45 | splitting the line-feed join of lines without line feeds, none ending in a carriage return, gives those lines back |
| CsvService.GenerateLines | services/csvService.ts:40 | the lines of the written text of portable cards are the header line and one row per card |
| CsvService.RowRoundTrip | services/csvService.ts:52-96 | a portable card's row is its own trim, splits into its cell texts and rebuilds the card |
| CsvService.RoundTrip | services/csvService.ts:3-100 | reading back the written text of portable cards gives the same cards in order, field for field, with absent optional fields as empty texts |
| CsvService.LineFeedCutsRow | services/csvService.ts:45 | a card with a line feed in a text cell has a row containing a line feed, that row is never one of the lines read back, and the card (filled) is not among the cards parsed from any text; for the id cell, when the fresh ids hold no line feed |
| CsvService.ParseClean | services/csvService.ts:45-96 | no card parsed from any text has a line feed in a text cell, and its id holds one only when it is a fresh id |
| Merge.IndexOfId | App.tsx:51 | the map lookup by id finds the entry stored under the id, and finds nothing exactly when no entry has it |
| Merge.MapSet | App.tsx:51 | `cardMap.set(id, c)` replaces the entry with that id in place or appends; ids become the old ids plus `c.id`; unique ids stay unique |
| Merge.Build | App.tsx:31-32 | the map built from the previous deck has unique ids, the deck's ids, and no more entries than the deck |
| Merge.BuildKeepsUniqueDeck | App.tsx:31-32 | a deck with unique ids fills the map in its own order, unchanged |
| Merge.FindMatch | App.tsx:37-41 | the scan returns the first entry with the same content key, or none when no entry has it |
| Merge.FindDuplicate | App.tsx:37-41 | the scan loop finds the same entry as `FindMatch` |
| Merge.FirstMatchUnique | App.tsx:37-41 | a matching entry with no match before it is the one the scan returns |
| Merge.Overlay | App.tsx:48 | the existing id is kept; every present incoming field overwrites; an absent optional field keeps the existing value; the content key is the incoming one |
| Merge.MergeStep | App.tsx:34-53 | merging one card adds at most one entry and at most its id, and keeps ids unique |
| Merge.MatchOverlays | App.tsx:43-48 | a match under a non-empty id overlays the incoming card onto that entry, in place, and keeps every other entry |
| Merge.NoMatchUpserts | App.tsx:49-51 | without a match the card replaces the entry with its id wholesale, or is appended when the id is new |
| Merge.MergeAll | App.tsx:34-53 | the incoming loop keeps every existing id, adds only incoming ids, adds at most one entry per card, and keeps ids unique |
| Merge.SortNewestFirst | App.tsx:54 | the sort gives a permutation ordered by `createdAt` non-increasing, keeping unique ids and unique content keys |
| Merge.SortKeepsSorted | App.tsx:54 | a deck already newest first is left as it is |
| Merge.Merged | App.tsx:29-56 | the merged deck is newest first, has unique ids, keeps every previous id, adds only incoming ids, and has at most \|prev\| + \|incoming\| cards |
| Merge.PerformMerge | App.tsx:29-56 | the two imperative loops and the sort compute `Merged` |
| Merge.MergeOne | App.tsx:37-52 | one pass of the incoming loop, with its scan, overlay and upsert, computes `MergeStep` |
| Merge.InsertSorted | App.tsx:54 | inserting a card at its place in a newest-first deck keeps it newest first and adds exactly that card |
| Merge.KeysStayUnique | App.tsx:31-54 | with non-empty ids, a deck with unique content keys (repeated ids allowed) keeps unique content keys after a merge |
| Merge.BuildKeepsKeys | App.tsx:31-32 | filling the map from a deck with unique content keys and non-empty ids keeps both, even when the deck repeats an id |
| Merge.MergeAllKeepsKeys | App.tsx:34-53 | the incoming loop keeps content keys unique and ids non-empty |
| Merge.MergeStepKeepsKeys | App.tsx:37-51 | both the overlay branch and the upsert branch keep content keys unique |
| Merge.MergeNothing | App.tsx:29-56 | merging no cards into a deck with unique ids that is newest first returns the deck |
| Merge.MatchKeepsSavedId | App.tsx:37-48 | an incoming card with a saved card's content becomes one card under the saved id, carrying the incoming fields |
| Merge.SameContentCollapses | App.tsx:34-53 | two incoming cards with the same content become one card, under the id of the first |
| Merge.EmptyIdKeepsDuplicate | App.tsx:43 | a saved card with the empty id is not matched, so the merge leaves two cards with one content key |
| Deck.NewCard | App.tsx:275-285 | the new card has the entry's word and phonetic, the given definition, example and part of speech, status New, `lastReviewed` 0 and `createdAt` now |
| Deck.AddCard | App.tsx:286 | exactly one card is put in front; the rest of the deck is unchanged |
| Deck.AddCardKeeps | App.tsx:274-286 | a fresh id keeps ids unique; a card no older than the deck keeps it newest first; the ids grow by the new id |
| Deck.UpdateStatus | App.tsx:290-293 | the cards with the id get the status and `lastReviewed` now, and nothing else of them changes; the other cards and the order are unchanged |
| Deck.UpdateStatusKeeps | App.tsx:290-293 | a status update keeps the ids, unique ids, unique content keys and the newest-first order |
| Deck.DeleteCard | App.tsx:297-298 | a card stays exactly when its id differs from the deleted one |
| Deck.DeleteSplits | App.tsx:298 | the filter works card by card, so the cards that stay keep their order |
| Deck.DeleteAbsent | App.tsx:298 | deleting an id the deck does not hold changes nothing |
| Deck.DeleteIds | App.tsx:298 | deletion removes exactly that id from the deck's ids |
| Deck.DeleteKeeps | App.tsx:297-298 | deletion keeps unique ids, unique content keys and the newest-first order |
| FlashcardsView.WithStatusKeeps | components/Flashcards.tsx:102-104 | the filter keeps exactly the cards of the deck that have the status |
| FlashcardsView.WithStatusSplits | components/Flashcards.tsx:108 | the filter works card by card, keeping the deck's order |
| FlashcardsView.Unrecognized | types.ts:3-7 | the cards whose status is none of the three enum values |
| FlashcardsView.CountsPartition | components/Flashcards.tsx:102-104 | the three counts plus the unrecognised cards add up to the deck size |
| FlashcardsView.NoneUnrecognized | types.ts:3-7 | a deck with only enum statuses has no unrecognised card |
| FlashcardsView.CountsSum | components/Flashcards.tsx:102-104 | with only enum statuses, the three counts add up to the deck size |
| FlashcardsView.FilteredCards | components/Flashcards.tsx:107-109 | no selection gives the whole deck; a selection gives exactly the cards with that status, in deck order |
| FlashcardsView.StatusClick | components/Flashcards.tsx:111-117 | clicking the selected status clears the selection; clicking any other selects it |
| FlashcardsView.ClickTwice | components/Flashcards.tsx:111-117 | two clicks on one status restore no selection or that selection, and clear any other |
| FlashcardsView.StudyDisabledIff | components/Flashcards.tsx:157 | the study button (`studyQueueCount === 0`) is disabled exactly when no card is New or Learning |
| Study.NonMastered | components/StudySession.tsx:19 | the filter keeps exactly the cards that are not Mastered, each as many times as the deck holds it |
| Study.Shuffle | components/StudySession.tsx:22 | the shuffle is a permutation of its input |
| Study.ShuffleReaches | components/StudySession.tsx:22 | every permutation is the outcome of some draws |
| Study.QueueSize | components/StudySession.tsx:19 | the queue holds the New and Learning cards plus the unrecognised ones |
| Study.QueueMatchesButton | components/StudySession.tsx:19 | with only enum statuses, the queue has `studyQueueCount` cards, and the study button is disabled exactly when it would be empty |
| Study.AllMasteredIff | components/StudySession.tsx:51 | "all mastered" holds exactly when the deck is not empty and nothing of it would be queued |
| Study.Session.constructor | components/StudySession.tsx:17-30 | the queue is a permutation of the non-mastered cards, has no Mastered card, and the index starts at 0 |
| Study.Session.CurrentCard | components/StudySession.tsx:32 | there is a current card exactly while the index is inside the queue, and it is a queued, non-mastered card |
| Study.Session.HandleNext | components/StudySession.tsx:34-46 | with no current card nothing changes and nothing is reported; otherwise the status is reported for the current card's id and the index advances by one |
| Study.Session.CardsChanged | components/StudySession.tsx:17-30 | a new deck from the parent changes neither the queue nor the index |
| Study.MountAllMastered | components/StudySession.tsx:50-51 | a session on an all-mastered deck shows "All Cards Mastered!" at once |
| DictionaryView.IsWordSaved | components/Dictionary.tsx:88-93 | true exactly when some card has the word, compared without case, and exactly the definition |
| DictionaryView.SavedIffDuplicate | components/Dictionary.tsx:88-93 | the saved test holds exactly when the merge would find a content match for the card the button adds |
| DictionaryView.ExampleText | components/Dictionary.tsx:190 | `def.example \|\| ''`: a missing example is passed as the empty text |
| DictionaryView.AddClick | components/Dictionary.tsx:190-191 | a saved definition leaves the deck unchanged; an unsaved one adds its card in front |
| DictionaryView.AddClickKeeps | components/Dictionary.tsx:175-191 | the add button keeps content keys unique, and keeps ids unique when the id is fresh |
| DictionaryView.PerformSearch | components/Dictionary.tsx:55-76 | a blank query changes nothing; otherwise the dropdown closes and either the found entry is shown with its word in the input, or an error is shown and the input stays |
| DictionaryView.SearchIgnoresBlank | components/Dictionary.tsx:56 | a whitespace-only query does nothing; any other query ends with an entry or an error, never both |
| DictionaryView.Submit | components/Dictionary.tsx:78-81 | submitting a blank input changes nothing; an input not found stays as typed |
| DictionaryView.SuggestionClick | components/Dictionary.tsx:83-86 | the picked word stays in the input unless its search finds an entry, which then replaces it |
| DictionaryView.SuggestionStep | components/Dictionary.tsx:26-33 | a query under two UTF-16 code units once trimmed clears the suggestions; the word on display (case-insensitively) fetches nothing; any other query fetches |
| DictionaryView.SingleCharQuery | components/Dictionary.tsx:26 | a one-character query is cleared exactly when the character is in the Basic Multilingual Plane; one above it counts two units and is not cleared |
| DictionaryView.FetchSuggestions | components/Dictionary.tsx:25-38 | clearing empties the list, skipping changes nothing, fetching stores the words and opens the dropdown exactly when there are some |
| DictionaryView.FoundSearchStaysQuiet | components/Dictionary.tsx:31-33 | after a search that found its word, the suggestion effect fetches nothing and the dropdown stays closed |
| Sync.FileSchedule | App.tsx:138-151 | a file save is scheduled exactly when a handle exists, and it carries the current deck |
| Sync.CloudSchedule | App.tsx:154-169 | a cloud push is scheduled exactly when a configuration exists and the deck is not empty, and it carries the current deck |
| Sync.AutoSaveNeverEmpties | App.tsx:156 | the automatic cloud save never posts an empty deck |
| Sync.InitialCards | App.tsx:61-93 | the local snapshot when it has cards, otherwise the parsed bundled CSV when it was fetched, otherwise nothing |
| Sync.LoadInitial | App.tsx:61-93 | the startup load's first steps compute `InitialCards` |
| Sync.StartupConfig | App.tsx:96-110 | the stored configuration is armed exactly when it is readable and its Pantry id is not empty |
| Sync.App.Init | App.tsx:58-130 | the deck is the initial cards, merged with a non-empty cloud deck when a configuration is stored; the configuration is armed after that merge; the snapshot is the deck; no file and nothing sent |
| Sync.App.SetCards | App.tsx:133-169 | a new deck is written to the snapshot, and the file and cloud saves are scheduled afresh with it |
| Sync.App.PerformMerge | App.tsx:29-56 | the deck becomes the merged deck, with unique ids and newest first, and its saves are scheduled |
| Sync.App.AddCard | App.tsx:274-288 | the deck gets the new card in front, and its saves are scheduled |
| Sync.App.UpdateStatus | App.tsx:290-295 | the deck gets the status update, and its saves are scheduled |
| Sync.App.DeleteCard | App.tsx:297-300 | the deck loses the id; deleting the last card schedules no cloud push |
| Sync.App.FileTimerFires | App.tsx:140-149 | a pending file save writes the CSV of the current deck to its file and is cleared |
| Sync.App.CloudTimerFires | App.tsx:158-167 | a pending cloud push posts the current, non-empty deck and is cleared |
| Sync.App.ConnectFile | App.tsx:174-202 | no API or a failed pick changes nothing, both pending saves included; otherwise the file's cards are merged when there are some, which schedules a cloud push of the merged deck, and the handle is connected with a save of the deck to it scheduled; with no cards the pending push stays as it was |
| Sync.App.LoadFile | App.tsx:186-194 | a picked file's cards are merged when there are some, which schedules a cloud push of the merged deck (otherwise the pending push stays), then the handle is connected and a save of the deck to it is scheduled |
| Sync.App.AttachFile | App.tsx:193 | the handle is connected and a save of the current deck to it is scheduled |
| Sync.App.ManualFileSave | App.tsx:204-210 | with a handle the deck's CSV is written at once; without one nothing happens |
| Sync.App.ExportCsv | App.tsx:212-217 | the exported text is the CSV of the deck |
| Sync.App.ImportCsv | App.tsx:219-225 | a file with no valid card is refused and nothing changes; otherwise its cards are merged, and the file save and cloud push are scheduled with the merged deck |
| Sync.App.ConnectCloud | App.tsx:229-247 | a failed validation changes nothing; otherwise the basket's cards are merged when there are some (scheduling a file save of the merged deck; with none the pending file save stays), then the configuration is armed and stored and a push of the deck is scheduled |
| Sync.App.LinkCloud | App.tsx:233-242 | with a validated id: a non-empty basket is merged into the deck and a file save of the merged deck scheduled, an empty one leaves deck and pending file save alone; the configuration is armed and stored and a push of the deck is scheduled; the app stays valid |
| Sync.App.ArmCloud | App.tsx:240-242 | the configuration is set and stored, and a push is scheduled exactly when the deck is not empty |
| Sync.App.DisconnectCloud | App.tsx:249-255 | the configuration is cleared and forgotten and a pending push is cancelled; the deck and the file save are untouched |
| Sync.App.CloudPull | App.tsx:257-264 | with a configuration the basket's cards are merged when there are some, and the file save and cloud push are scheduled with the merged deck; otherwise nothing changes |
| Sync.App.ManualCloudPush | App.tsx:266-270 | with a configuration the deck is posted at once, even an empty one; without one nothing happens |

## Left out

- **Rendering.** JSX rendering, styling, the saving indicators (`isFileSaving`, `isCloudSaving`), loading flags and alerts are not modelled.
- **Tracking and analytics.** These calls are not modelled: `initializeTracking`, `trackEvent` and `setTrackingUserId`.
- **Timers and async scheduling.** Timers, debounce durations, `async` interleaving and React's batching of state updates are not modelled.
  - Each save destination has one pending-write slot.
  - A timer that fires is an explicit method.
  - The 300 ms timeout of the suggestion fetch is not modelled.
- Study.Session.HandleNext: advances the index at once instead of 300 ms later, so a second answer given within that window, which the source would report for the same card again, is not modelled.
- **Local snapshot as JSON.** The snapshot is a deck value, not JSON text. The mount-time write of the empty deck, which happens before the startup load sets the deck, is not modelled. A corrupt or non-array snapshot is given to `Sync.App.Init` as an empty deck.
- **Stored cloud configuration.** It is `NoConfig`, `Unreadable` or `Saved(pantryId)`. A stored configuration that fails to parse also makes the source's error handler throw again, so no configuration is armed; the model gives the same result.
- **Unhandled errors.** `handleManualFileSave` and `handleCloudPush` have no error handling. A failed write would leave the saving indicator on and propagate; this is not modelled. Failed automatic saves are caught by the source and change no state.
- **`parseInt`.** It is modelled for texts that start (after whitespace) with decimal digits. A cell without digits reads as 0 where JavaScript gives `NaN`; signs and fractions are not modelled.
- **Lower-casing.** `toLowerCase` folds ASCII letters only; Unicode case mapping is not modelled.
- **Sort stability.** The sort inserts cards with equal `createdAt` in the stable order. The model states the newest-first order and the permutation, not stability.
- **Re-merge idempotence.** Not proved.
- **I/O services.** These are fetch, DOM or browser-API wrappers; their results are parameters:
  - services/dictionaryService.ts
  - services/suggestionService.ts
  - services/pantryService.ts
  - services/trackingService.ts
  - `downloadCSV` and `saveToLocalFile` (services/csvService.ts:102-122)
- **Not part of this model:**
  - components/DataManagerModal.tsx, which is form handling around the Pantry id.
  - The browser extension, lumina-extension/background.js and lumina-extension/popup.js. Its duplicate check compares the word only.
- **`generateCSV` on a non-array.** The `if (!cards \|\| !Array.isArray(cards)) return ''` guard of `generateCSV` cannot be reached with a typed deck.
