/** services/csvService.ts: the CSV writer `generateCSV` (with its `escapeField`) and the
    reader `parseCSV`, with the round trip between them. */
module CsvService {
  import opened JsString
  import opened Types

  /** The name of column k, counted from 0. */
  function ColumnName(k: nat): string {
    match k
    case 0 => "ID"
    case 1 => "Word"
    case 2 => "Phonetic"
    case 3 => "Definition"
    case 4 => "Example"
    case 5 => "Part of Speech"
    case 6 => "Status"
    case 7 => "Last Reviewed"
    case _ => "Created At"
  }

  lemma ColumnNameClean(k: nat)
    ensures '\n' !in ColumnName(k)
  {
    match k
    case 0 => case 1 => case 2 => case 3 => case 4 => case 5 => case 6 => case 7 => case _ =>
  }

  /** The nine column names, in column order. */
  function Header(): (names: seq<string>)
    ensures |names| == 9
  {
    seq(9, k requires 0 <= k < 9 => ColumnName(k))
  }

  /** `parts.join(sep)`. */
  function Join(parts: seq<string>, sep: char): string
    decreases |parts|
  {
    if |parts| == 0 then ""
    else if |parts| == 1 then parts[0]
    else parts[0] + [sep] + Join(parts[1..], sep)
  }

  /** The text of an optional field; an absent one is written as nothing. */
  function Text(f: Option<string>): string {
    match f
    case None => ""
    case Some(s) => s
  }

  predicate NeedsQuoting(s: string) {
    '"' in s || ',' in s || '\n' in s
  }

  /** `s.replace(/"/g, '""')`. */
  function DoubleQuotes(s: string): (r: string)
    ensures '\n' in r <==> '\n' in s
    ensures |r| >= |s|
  {
    if s == [] then []
    else (if s[0] == '"' then "\"\"" else [s[0]]) + DoubleQuotes(s[1..])
  }

  /** `escapeField`: an absent field becomes the empty text; a text holding a quote, a comma or
      a line feed is wrapped in quotes with each quote doubled; any other text is kept as it is. */
  function EscapeField(f: Option<string>): (r: string)
    ensures f.None? ==> r == ""
    ensures (|r| >= 2 && r[0] == '"' && r[|r| - 1] == '"') <==> (f.Some? && NeedsQuoting(f.value))
    ensures f.Some? && !NeedsQuoting(f.value) ==> r == f.value
    ensures '\n' in r <==> '\n' in Text(f)
  {
    match f
    case None => ""
    case Some(s) =>
      if NeedsQuoting(s) then "\"" + DoubleQuotes(s) + "\""
      else
        assert s != [] ==> s[0] != '"';
        s
  }

  /** The nine cells of a card's row, in column order, before escaping. */
  function CardFields(c: Flashcard): seq<Option<string>> {
    [Some(c.id), Some(c.word), c.phonetic, Some(c.mainDefinition), c.example, Some(c.partOfSpeech),
     Some(StatusText(c.status)), Some(NatToString(c.lastReviewed)), Some(NatToString(c.createdAt))]
  }

  function EscapeAll(fields: seq<Option<string>>): (r: seq<string>)
    ensures |r| == |fields|
  {
    seq(|fields|, k requires 0 <= k < |fields| => EscapeField(fields[k]))
  }

  /** One card as a CSV line: its escaped cells joined by commas. */
  function CardRow(c: Flashcard): string {
    Join(EscapeAll(CardFields(c)), ',')
  }

  function Rows(cards: seq<Flashcard>): (r: seq<string>)
    ensures |r| == |cards|
  {
    seq(|cards|, i requires 0 <= i < |cards| => CardRow(cards[i]))
  }

  /** A header line followed by one line per card. */
  function Lines(header: string, cards: seq<Flashcard>): (lines: seq<string>)
    ensures |lines| == |cards| + 1 && lines[0] == header
    ensures forall k :: 1 <= k < |lines| ==> lines[k] == CardRow(cards[k - 1])
  {
    [header] + Rows(cards)
  }

  /** `generateCSV`: the header line, then one line per card in deck order, joined by line feeds. */
  function GenerateCsv(cards: seq<Flashcard>): (csv: string)
    ensures cards == [] ==> csv == Join(Header(), ',')
  {
    Join(Lines(Join(Header(), ','), cards), '\n')
  }

  /** `text.split(/\r?\n/)`: the text cut at each line feed, a carriage return just before a
      line feed being part of the break. */
  function SplitLines(text: string): (lines: seq<string>)
    ensures |lines| >= 1
    ensures |lines| == 1 <==> '\n' !in text
    ensures forall k :: 0 <= k < |lines| ==> '\n' !in lines[k]
    decreases |text|
  {
    if text == [] then [""]
    else if text[0] == '\n' then [""] + SplitLines(text[1..])
    else if text[0] == '\r' && |text| >= 2 && text[1] == '\n' then [""] + SplitLines(text[2..])
    else
      var rest := SplitLines(text[1..]);
      assert '\n' in text[1..] ==> '\n' in text;
      assert '\n' in text ==> '\n' in text[1..];
      [[text[0]] + rest[0]] + rest[1..]
  }

  /** The quote-aware splitter of `parseCSV` as a function of what is still to be read, whether
      a quote is open, the cell being built and the cells already closed. */
  function Scan(rest: string, inQuote: bool, current: string, fields: seq<string>): (r: seq<string>)
    ensures |r| > |fields| && r[..|fields|] == fields
    decreases |rest|
  {
    if rest == [] then fields + [current]
    else if rest[0] == '"' then
      if inQuote && |rest| >= 2 && rest[1] == '"' then Scan(rest[2..], inQuote, current + ['"'], fields)
      else Scan(rest[1..], !inQuote, current, fields)
    else if rest[0] == ',' && !inQuote then
      var r := Scan(rest[1..], inQuote, "", fields + [current]);
      assert r[..|fields|] == (fields + [current])[..|fields|];
      r
    else Scan(rest[1..], inQuote, current + [rest[0]], fields)
  }

  /** The cells of one (trimmed) line. */
  function SplitFields(line: string): (values: seq<string>)
    ensures |values| >= 1
  {
    Scan(line, false, "", [])
  }

  /** The per-line loop of `parseCSV` that splits a line into its cells. */
  method SplitRow(line: string) returns (values: seq<string>)
    ensures values == SplitFields(line)
  {
    values := [];
    var currentVal := "";
    var inQuote := false;
    var charIndex := 0;
    while charIndex < |line|
      invariant 0 <= charIndex <= |line|
      invariant Scan(line[charIndex..], inQuote, currentVal, values) == SplitFields(line)
      decreases |line| - charIndex
    {
      var ch := line[charIndex];
      var nextIsQuote := charIndex + 1 < |line| && line[charIndex + 1] == '"';
      if ch == '"' {
        if inQuote && nextIsQuote {
          currentVal := currentVal + ['"'];
          charIndex := charIndex + 1;
          assert line[charIndex - 1..][2..] == line[charIndex + 1..];
        } else {
          inQuote := !inQuote;
          assert line[charIndex..][1..] == line[charIndex + 1..];
        }
      } else if ch == ',' && !inQuote {
        values := values + [currentVal];
        currentVal := "";
        assert line[charIndex..][1..] == line[charIndex + 1..];
      } else {
        currentVal := currentVal + [ch];
        assert line[charIndex..][1..] == line[charIndex + 1..];
      }
      charIndex := charIndex + 1;
    }
    values := values + [currentVal];
  }

  /** `(text as FlashcardStatus) || FlashcardStatus.New`: an empty status reads as New and any
      other text is taken as it is, whether or not it names one of the three statuses. */
  function StatusOf(text: string): (s: Status)
    ensures text == "" ==> s == New
    ensures text != "" ==> StatusText(s) == text
  {
    if text == "" || text == "New" then New
    else if text == "Learning" then Learning
    else if text == "Mastered" then Mastered
    else Other(text)
  }

  /** `values[k]`, where a missing cell reads like an empty one under `||`. */
  function At(values: seq<string>, k: nat): string {
    if k < |values| then values[k] else ""
  }

  /** The card `parseCSV` builds from the cells of an accepted row, given the id that
      `crypto.randomUUID()` would return and the value of `Date.now()`. */
  function RowToCard(values: seq<string>, freshId: string, now: nat): (c: Flashcard)
    requires |values| >= 7
    ensures values[0] != "" ==> c.id == values[0]
    ensures values[0] == "" ==> c.id == freshId
    ensures c.word == values[1] && c.mainDefinition == values[3] && c.partOfSpeech == values[5]
    ensures c.phonetic == Some(values[2]) && c.example == Some(values[4])
    ensures StatusText(c.status) == OrElse(values[6], "New")
    ensures At(values, 7) == "" ==> c.lastReviewed == 0
    ensures At(values, 8) == "" ==> c.createdAt == now
  {
    Flashcard(
      OrElse(values[0], freshId),
      values[1],
      Some(values[2]),
      values[3],
      Some(values[4]),
      values[5],
      StatusOf(values[6]),
      Timestamp(At(values, 7), 0),
      Timestamp(At(values, 8), now))
  }

  /** A timestamp cell: `parseInt(cell || String(fallback), 10)`, where the fallback, written
      out and parsed again, is the fallback itself (`TimestampAsWritten`). */
  function Timestamp(cell: string, fallback: nat): nat {
    if cell == "" then fallback else ParseInt(cell)
  }

  /** `Timestamp` is `parseInt` applied to the cell or, when the cell is empty, to the text of
      the fallback. */
  lemma TimestampAsWritten(cell: string, fallback: nat)
    ensures Timestamp(cell, fallback) == ParseInt(OrElse(cell, NatToString(fallback)))
  {
    ParseIntOfString(fallback);
  }

  /** What one line contributes, given the id `crypto.randomUUID()` would return for it:
      nothing for a blank line or a row of fewer than seven cells, one card otherwise. */
  function LineOf(line: string, id: string, now: nat): (row: seq<Flashcard>)
    ensures |row| <= 1
  {
    var trimmed := Trim(line);
    if trimmed == "" then []
    else
      var values := SplitFields(trimmed);
      if |values| < 7 then [] else [RowToCard(values, id, now)]
  }

  /** The ids `crypto.randomUUID()` would return, one drawn for each line of the file. */
  function FreshIds(n: nat, freshId: nat -> string): (ids: seq<string>)
    ensures |ids| == n && forall j :: 0 <= j < n ==> ids[j] == freshId(j)
  {
    seq(n, j requires 0 <= j < n => freshId(j))
  }

  /** What line `j` of the file contributes, with the fresh id drawn for that line and the time
      `Date.now()` gives while that line is read. */
  function LineRow(lines: seq<string>, ids: seq<string>, j: nat, clock: nat -> nat): (row: seq<Flashcard>)
    ensures |row| <= 1
  {
    if j < |lines| && j < |ids| then LineOf(lines[j], ids[j], clock(j)) else []
  }

  /** A line made only of whitespace (an empty line included) yields no card. */
  lemma BlankLineSkipped(lines: seq<string>, ids: seq<string>, j: nat, clock: nat -> nat)
    requires j < |lines| == |ids|
    requires forall i :: 0 <= i < |lines[j]| ==> IsWhitespace(lines[j][i])
    ensures LineRow(lines, ids, j, clock) == []
  {
    TrimEmptyIff(lines[j]);
  }

  /** The cards read from lines 1 to n - 1 (line 0 is the header). */
  function RowsBefore(lines: seq<string>, ids: seq<string>, n: nat, clock: nat -> nat): (cards: seq<Flashcard>)
    ensures |cards| <= if n == 0 then 0 else n - 1
    decreases n
  {
    if n <= 1 then [] else RowsBefore(lines, ids, n - 1, clock) + LineRow(lines, ids, n - 1, clock)
  }

  /** `parseCSV`: no cards for an empty text or a text of one line; otherwise the cards of every
      line after the header, in file order. `clock(j)` is the time `Date.now()` gives while line
      `j` is read: the clock is read afresh for each row, so rows without a created-at cell can
      get different times. */
  function Parse(csvText: string, freshId: nat -> string, clock: nat -> nat): (cards: seq<Flashcard>)
    ensures '\n' !in csvText ==> cards == []
  {
    if csvText == "" then []
    else
      var lines := SplitLines(csvText);
      if |lines| < 2 then [] else RowsBefore(lines, FreshIds(|lines|, freshId), |lines|, clock)
  }

  /** `parseCSV` as the source runs it: the early returns, then the line loop `ReadLines`, with
      the character loop `SplitRow` nested in it. */
  method ParseCsv(csvText: string, freshId: nat -> string, clock: nat -> nat) returns (cards: seq<Flashcard>)
    ensures cards == Parse(csvText, freshId, clock)
  {
    if csvText == "" {
      return [];
    }
    var lines := SplitLines(csvText);
    if |lines| < 2 {
      return [];
    }
    var ids := FreshIds(|lines|, freshId);
    cards := ReadLines(lines, ids, clock);
  }

  /** The line loop of `parseCSV`, from the line after the header to the last line. */
  method ReadLines(lines: seq<string>, ids: seq<string>, clock: nat -> nat) returns (cards: seq<Flashcard>)
    requires 1 <= |lines| == |ids|
    ensures cards == RowsBefore(lines, ids, |lines|, clock)
  {
    cards := [];
    for i: nat := 1 to |lines|
      invariant cards == RowsBefore(lines, ids, i, clock)
    {
      var row := ReadLine(lines[i], ids[i], clock(i));
      cards := cards + row;
    }
  }

  /** One pass of the line loop: the line is trimmed, a blank one skipped, the rest split into
      cells by the character loop `SplitRow`, and a row of seven cells or more becomes a card. */
  method ReadLine(line: string, id: string, now: nat) returns (row: seq<Flashcard>)
    ensures row == LineOf(line, id, now)
  {
    row := [];
    var trimmed := Trim(line);
    if trimmed != "" {
      var values := SplitRow(trimmed);
      if |values| >= 7 {
        row := [RowToCard(values, id, now)];
      }
    }
  }

  // ---------------------------------------------------------------------------------------
  // The round trip

  /** The status reads back as itself: an `Other` text is not empty and names no enum value. */
  predicate CanonicalStatus(s: Status) {
    s.Other? ==> s.text != "" && s.text != "New" && s.text != "Learning" && s.text != "Mastered"
  }

  /** A card that survives being written and read back: a non-empty id that does not begin with
      whitespace, and no line feed in any text cell. */
  predicate Portable(c: Flashcard) {
    && c.id != [] && !IsWhitespace(c.id[0])
    && '\n' !in c.id && '\n' !in c.word && '\n' !in Text(c.phonetic) && '\n' !in c.mainDefinition
    && '\n' !in Text(c.example) && '\n' !in c.partOfSpeech && '\n' !in StatusText(c.status)
    && CanonicalStatus(c.status)
  }

  /** A card as `parseCSV` returns it: the optional cells are always present, possibly empty. */
  function Filled(c: Flashcard): Flashcard {
    c.(phonetic := Some(Text(c.phonetic)), example := Some(Text(c.example)))
  }

  /** Writing a deck of portable cards and reading it back gives the same cards in the same
      order, field for field, with absent optional fields read as empty texts. */
  lemma RoundTrip(cards: seq<Flashcard>, freshId: nat -> string, clock: nat -> nat)
    requires forall i :: 0 <= i < |cards| ==> Portable(cards[i])
    ensures |Parse(GenerateCsv(cards), freshId, clock)| == |cards|
    ensures forall i :: 0 <= i < |cards| ==> Parse(GenerateCsv(cards), freshId, clock)[i] == Filled(cards[i])
  {
    var text := GenerateCsv(cards);
    GenerateLines(cards);
    if |cards| > 0 {
      var lines := Lines(Join(Header(), ','), cards);
      var ids := FreshIds(|lines|, freshId);
      ParseLines(text, lines, freshId, clock);
      LinesBack(Join(Header(), ','), cards, ids, clock);
      RowsBack(cards, lines, ids, |lines|, clock);
    }
  }

  /** A text that splits into two lines or more parses to the rows of those lines. */
  lemma ParseLines(text: string, lines: seq<string>, freshId: nat -> string, clock: nat -> nat)
    requires SplitLines(text) == lines && |lines| >= 2
    ensures Parse(text, freshId, clock) == RowsBefore(lines, FreshIds(|lines|, freshId), |lines|, clock)
  {
  }

  /** The lines after the header read back as the cards they were written from. */
  lemma {:induction false} RowsBack(cards: seq<Flashcard>, lines: seq<string>, ids: seq<string>, n: nat, clock: nat -> nat)
    requires |lines| == |cards| + 1 == |ids|
    requires forall k {:trigger LineRow(lines, ids, k, clock)} ::
      1 <= k < |lines| ==> LineRow(lines, ids, k, clock) == [Filled(cards[k - 1])]
    requires 1 <= n <= |lines|
    ensures RowsBefore(lines, ids, n, clock) == FilledPrefix(cards, n - 1)
    decreases n
  {
    if n > 1 {
      RowsBack(cards, lines, ids, n - 1, clock);
    }
  }

  /** The first m cards, each as `parseCSV` returns it. */
  function FilledPrefix(cards: seq<Flashcard>, m: nat): (r: seq<Flashcard>)
    requires m <= |cards|
    ensures |r| == m && forall i :: 0 <= i < m ==> r[i] == Filled(cards[i])
  {
    if m == 0 then [] else FilledPrefix(cards, m - 1) + [Filled(cards[m - 1])]
  }

  lemma LinesBack(header: string, cards: seq<Flashcard>, ids: seq<string>, clock: nat -> nat)
    requires forall i :: 0 <= i < |cards| ==> Portable(cards[i])
    requires |ids| == |cards| + 1
    ensures forall k {:trigger LineRow(Lines(header, cards), ids, k, clock)} ::
      1 <= k < |cards| + 1 ==> LineRow(Lines(header, cards), ids, k, clock) == [Filled(cards[k - 1])]
  {
    var lines := Lines(header, cards);
    forall k | 1 <= k < |cards| + 1 ensures LineRow(lines, ids, k, clock) == [Filled(cards[k - 1])] {
      LineBack(lines[k], ids[k], cards[k - 1], clock(k));
    }
  }

  lemma LineBack(line: string, id: string, c: Flashcard, now: nat)
    requires line == CardRow(c) && Portable(c)
    ensures LineOf(line, id, now) == [Filled(c)]
  {
    RowRoundTrip(c, id, now);
  }

  /** The lines of `generateCSV`'s output are exactly the header line and one line per card. */
  lemma GenerateLines(cards: seq<Flashcard>)
    requires forall i :: 0 <= i < |cards| ==> Portable(cards[i])
    ensures SplitLines(GenerateCsv(cards)) == Lines(Join(Header(), ','), cards)
  {
    var lines := Lines(Join(Header(), ','), cards);
    HeaderLine();
    LinesSplittable(Join(Header(), ','), cards, lines);
    SplitJoin(lines);
  }

  lemma LinesSplittable(header: string, cards: seq<Flashcard>, lines: seq<string>)
    requires '\n' !in header && header != [] && header[|header| - 1] != '\r'
    requires forall i :: 0 <= i < |cards| ==> Portable(cards[i])
    requires lines == Lines(header, cards)
    ensures forall k :: 0 <= k < |lines| ==> '\n' !in lines[k]
    ensures forall k :: 0 <= k < |lines| ==> lines[k] != [] && lines[k][|lines[k]| - 1] != '\r'
  {
    forall k | 1 <= k < |lines|
      ensures '\n' !in lines[k] && lines[k] != [] && lines[k][|lines[k]| - 1] != '\r'
    {
      assert lines[k] == CardRow(cards[k - 1]);
      RowShape(cards[k - 1]);
    }
  }

  lemma HeaderLine()
    ensures '\n' !in Join(Header(), ',')
    ensures Join(Header(), ',') != [] && Join(Header(), ',')[|Join(Header(), ',')| - 1] == 't'
  {
    var names := Header();
    forall k | 0 <= k < |names| ensures '\n' !in names[k] {
      ColumnNameClean(k);
    }
    JoinAvoids(names, ',', '\n');
    assert names[8] == "Created At";
    JoinLast(names, ',');
  }

  /** A card row of a portable card holds no line feed, starts with a character other than
      whitespace and ends with a digit. */
  lemma RowShape(c: Flashcard)
    requires Portable(c)
    ensures '\n' !in CardRow(c)
    ensures CardRow(c) != [] && !IsWhitespace(CardRow(c)[0]) && IsDigit(CardRow(c)[|CardRow(c)| - 1])
  {
    var parts := EscapeAll(CardFields(c));
    PartsAvoidLineFeed(c, parts);
    JoinAvoids(parts, ',', '\n');
    FirstPart(c, parts);
    LastPart(c, parts);
    JoinFirst(parts, ',');
    JoinLast(parts, ',');
  }

  lemma PartsAvoidLineFeed(c: Flashcard, parts: seq<string>)
    requires Portable(c) && parts == EscapeAll(CardFields(c))
    ensures forall k :: 0 <= k < |parts| ==> '\n' !in parts[k]
  {
    forall k | 0 <= k < |parts| ensures '\n' !in parts[k] {
      assert '\n' !in Text(CardFields(c)[k]);
    }
  }

  /** The id cell starts with the id itself or with a quote. */
  lemma FirstPart(c: Flashcard, parts: seq<string>)
    requires Portable(c) && parts == EscapeAll(CardFields(c))
    ensures |parts| >= 1 && parts[0] != [] && !IsWhitespace(parts[0][0])
  {
    assert parts[0] == EscapeField(Some(c.id));
    if NeedsQuoting(c.id) {
      assert parts[0][0] == '"';
    }
  }

  /** The creation time cell is the digits of the number. */
  lemma LastPart(c: Flashcard, parts: seq<string>)
    requires parts == EscapeAll(CardFields(c))
    ensures |parts| == 9 && parts[8] != [] && IsDigit(parts[8][|parts[8]| - 1])
  {
    var last := NatToString(c.createdAt);
    assert parts[8] == EscapeField(Some(last));
    assert parts[8] == last;
  }

  lemma {:induction false} JoinAvoids(parts: seq<string>, sep: char, x: char)
    requires x != sep
    requires forall k :: 0 <= k < |parts| ==> x !in parts[k]
    ensures x !in Join(parts, sep)
    decreases |parts|
  {
    if |parts| > 1 {
      JoinAvoids(parts[1..], sep, x);
    }
  }

  lemma JoinFirst(parts: seq<string>, sep: char)
    requires |parts| >= 1 && parts[0] != []
    ensures Join(parts, sep) != [] && Join(parts, sep)[0] == parts[0][0]
  {
  }

  lemma {:induction false} JoinLast(parts: seq<string>, sep: char)
    requires |parts| >= 1 && parts[|parts| - 1] != []
    ensures Join(parts, sep) != []
    ensures Join(parts, sep)[|Join(parts, sep)| - 1] == parts[|parts| - 1][|parts[|parts| - 1]| - 1]
    decreases |parts|
  {
    if |parts| > 1 {
      JoinLast(parts[1..], sep);
    }
  }

  /** Splitting the line-feed join of lines that hold no line feed, and of which none but the
      last ends with a carriage return, gives back those lines. */
  lemma {:induction false} SplitJoin(lines: seq<string>)
    requires |lines| >= 1
    requires forall k :: 0 <= k < |lines| ==> '\n' !in lines[k]
    requires forall k :: 0 <= k < |lines| - 1 ==> lines[k] == [] || lines[k][|lines[k]| - 1] != '\r'
    ensures SplitLines(Join(lines, '\n')) == lines
    decreases |lines|
  {
    if |lines| == 1 {
      SplitOne(lines[0]);
    } else {
      SplitJoin(lines[1..]);
      SplitFirst(lines[0], Join(lines[1..], '\n'));
    }
  }

  lemma {:induction false} SplitOne(s: string)
    requires '\n' !in s
    ensures SplitLines(s) == [s]
    decreases |s|
  {
    if s != [] {
      assert '\n' !in s[1..];
      SplitOne(s[1..]);
      assert s[0] != '\n' && (|s| >= 2 ==> s[1] != '\n');
      assert [s[0]] + s[1..] == s;
    }
  }

  lemma {:induction false} SplitFirst(a: string, rest: string)
    requires '\n' !in a
    requires a == [] || a[|a| - 1] != '\r'
    ensures SplitLines(a + "\n" + rest) == [a] + SplitLines(rest)
    decreases |a|, 1
  {
    if a == [] {
      assert (a + "\n" + rest)[1..] == rest;
    } else {
      SplitFirstCons(a, rest);
    }
  }

  /** A line that does not start the break: its first character stays on the first line. */
  lemma {:induction false} SplitFirstCons(a: string, rest: string)
    requires a != [] && '\n' !in a && a[|a| - 1] != '\r'
    ensures SplitLines(a + "\n" + rest) == [a] + SplitLines(rest)
    decreases |a|, 0
  {
    var text := a + "\n" + rest;
    assert text[1..] == a[1..] + "\n" + rest;
    assert text[0] == a[0] != '\n';
    if a[0] == '\r' {
      assert text[1] == a[1];
    }
    SplitFirst(a[1..], rest);
    SplitOrdinary(text);
    assert [a[0]] + a[1..] == a;
  }

  /** A text that does not start with a line break keeps its first character on its first line. */
  lemma SplitOrdinary(text: string)
    requires text != [] && text[0] != '\n' && !(text[0] == '\r' && |text| >= 2 && text[1] == '\n')
    ensures SplitLines(text) == [[text[0]] + SplitLines(text[1..])[0]] + SplitLines(text[1..])[1..]
  {
  }

  /** The texts of a card's nine cells, an absent optional field giving the empty text. */
  function CardTexts(c: Flashcard): (texts: seq<string>)
    ensures |texts| == 9
  {
    [c.id, c.word, Text(c.phonetic), c.mainDefinition, Text(c.example), c.partOfSpeech,
     StatusText(c.status), NatToString(c.lastReviewed), NatToString(c.createdAt)]
  }

  function EscapeTexts(texts: seq<string>): (r: seq<string>)
    ensures |r| == |texts|
  {
    seq(|texts|, k requires 0 <= k < |texts| => EscapeField(Some(texts[k])))
  }

  /** A row of a portable card reads back, through `trim`, the splitter and `RowToCard`,
      as the card itself. */
  lemma RowRoundTrip(c: Flashcard, freshId: string, now: nat)
    requires Portable(c)
    ensures Trim(CardRow(c)) == CardRow(c)
    ensures SplitFields(CardRow(c)) == CardTexts(c)
    ensures RowToCard(CardTexts(c), freshId, now) == Filled(c)
  {
    RowShape(c);
    TrimKeeps(CardRow(c));
    RowSplits(c);
    CardBack(c, freshId, now);
  }

  /** Every card row, whatever its cells hold, splits back into the texts of its cells. */
  lemma RowSplits(c: Flashcard)
    ensures SplitFields(CardRow(c)) == CardTexts(c)
  {
    var texts := CardTexts(c);
    assert EscapeAll(CardFields(c)) == EscapeTexts(texts) by {
      forall k | 0 <= k < 9 ensures EscapeAll(CardFields(c))[k] == EscapeTexts(texts)[k] {
        assert Text(CardFields(c)[k]) == texts[k];
      }
    }
    ScanJoin(texts, []);
    assert [] + texts == texts;
  }

  /** `RowToCard` rebuilds a portable card from the texts of its cells. */
  lemma CardBack(c: Flashcard, freshId: string, now: nat)
    requires Portable(c)
    ensures RowToCard(CardTexts(c), freshId, now) == Filled(c)
  {
    var r := RowToCard(CardTexts(c), freshId, now);
    TextsBack(c, freshId, now);
    StatusBack(c, freshId, now);
    TimesBack(c, freshId, now);
    SameFields(r, Filled(c));
  }

  /** The text cells come back as they were written; an absent optional field as empty. */
  lemma TextsBack(c: Flashcard, freshId: string, now: nat)
    requires Portable(c)
    ensures var r := RowToCard(CardTexts(c), freshId, now);
      r.id == c.id && r.word == c.word && r.phonetic == Some(Text(c.phonetic)) &&
      r.mainDefinition == c.mainDefinition && r.example == Some(Text(c.example)) &&
      r.partOfSpeech == c.partOfSpeech
  {
  }

  /** A canonical status comes back as itself. */
  lemma StatusBack(c: Flashcard, freshId: string, now: nat)
    requires Portable(c)
    ensures RowToCard(CardTexts(c), freshId, now).status == c.status
  {
  }

  /** Both timestamps come back as the numbers that were written. */
  lemma TimesBack(c: Flashcard, freshId: string, now: nat)
    requires Portable(c)
    ensures RowToCard(CardTexts(c), freshId, now).lastReviewed == c.lastReviewed
    ensures RowToCard(CardTexts(c), freshId, now).createdAt == c.createdAt
  {
    ParseIntOfString(c.lastReviewed);
    ParseIntOfString(c.createdAt);
  }

  /** Two cards that agree on every field are the same card. */
  lemma SameFields(a: Flashcard, b: Flashcard)
    requires a.id == b.id && a.word == b.word && a.phonetic == b.phonetic
    requires a.mainDefinition == b.mainDefinition && a.example == b.example && a.partOfSpeech == b.partOfSpeech
    requires a.status == b.status && a.lastReviewed == b.lastReviewed && a.createdAt == b.createdAt
    ensures a == b
  {
  }

  /** The splitter reads the comma join of escaped texts back as those texts. */
  lemma {:induction false} ScanJoin(texts: seq<string>, fields: seq<string>)
    requires |texts| >= 1
    ensures Scan(Join(EscapeTexts(texts), ','), false, "", fields) == fields + texts
    decreases |texts|, 1
  {
    if |texts| == 1 {
      ScanLast(texts[0], fields);
      assert texts == [texts[0]];
    } else {
      ScanJoinCons(texts, fields);
    }
  }

  /** The first cell of two or more is read up to its comma, and the rest as the join of the
      remaining texts. */
  lemma {:induction false} ScanJoinCons(texts: seq<string>, fields: seq<string>)
    requires |texts| >= 2
    ensures Scan(Join(EscapeTexts(texts), ','), false, "", fields) == fields + texts
    decreases |texts|, 0
  {
    var restLine := Join(EscapeTexts(texts[1..]), ',');
    JoinCons(texts);
    ScanFirst(texts[0], restLine, fields);
    ScanJoin(texts[1..], fields + [texts[0]]);
    AppendFirst(fields, texts);
  }

  /** Closing the first text and then the rest closes all of them. */
  lemma AppendFirst(fields: seq<string>, texts: seq<string>)
    requires texts != []
    ensures fields + [texts[0]] + texts[1..] == fields + texts
  {
    assert texts == [texts[0]] + texts[1..];
  }

  /** A first cell followed by a comma closes as its text. */
  lemma ScanFirst(text: string, restLine: string, fields: seq<string>)
    ensures Scan(EscapeField(Some(text)) + ("," + restLine), false, "", fields) ==
      Scan(restLine, false, "", fields + [text])
  {
    ScanField(text, "," + restLine, "", fields);
    assert "" + text == text;
    ScanComma(restLine, text, fields);
  }

  /** The last cell of a row is read up to the end of the line. */
  lemma ScanLast(text: string, fields: seq<string>)
    ensures Scan(EscapeField(Some(text)), false, "", fields) == fields + [text]
  {
    ScanField(text, "", "", fields);
    assert EscapeField(Some(text)) + "" == EscapeField(Some(text));
    assert "" + text == text;
  }

  /** The comma join of two escaped texts or more is the first escaped text, a comma and the
      join of the rest. */
  lemma JoinCons(texts: seq<string>)
    requires |texts| >= 2
    ensures Join(EscapeTexts(texts), ',') ==
      EscapeField(Some(texts[0])) + ("," + Join(EscapeTexts(texts[1..]), ','))
  {
    var parts := EscapeTexts(texts);
    assert parts[1..] == EscapeTexts(texts[1..]);
  }

  /** A comma outside quotes closes the cell being built. */
  lemma ScanComma(rest: string, current: string, fields: seq<string>)
    ensures Scan("," + rest, false, current, fields) == Scan(rest, false, "", fields + [current])
  {
    assert ("," + rest)[1..] == rest;
  }

  /** The splitter reads one escaped cell, followed by a comma or by the end of the line, as
      the cell's text. */
  lemma ScanField(s: string, rest: string, current: string, fields: seq<string>)
    requires rest == [] || rest[0] == ','
    ensures Scan(EscapeField(Some(s)) + rest, false, current, fields) == Scan(rest, false, current + s, fields)
  {
    if NeedsQuoting(s) {
      var inner := DoubleQuotes(s) + "\"" + rest;
      assert EscapeField(Some(s)) + rest == "\"" + inner;
      assert ("\"" + inner)[1..] == inner;
      ScanQuoted(s, rest, current, fields);
    } else {
      ScanPlain(s, rest, current, fields);
    }
  }

  lemma {:induction false} ScanPlain(s: string, rest: string, current: string, fields: seq<string>)
    requires '"' !in s && ',' !in s
    ensures Scan(s + rest, false, current, fields) == Scan(rest, false, current + s, fields)
    decreases |s|
  {
    if s == [] {
      assert s + rest == rest && current + s == current;
    } else {
      assert (s + rest)[1..] == s[1..] + rest;
      assert (s + rest)[0] == s[0];
      ScanPlain(s[1..], rest, current + [s[0]], fields);
      assert current + [s[0]] + s[1..] == current + s;
    }
  }

  /** Inside an open quote the splitter turns each doubled quote back into one, keeps commas,
      and the lone quote that follows closes the cell. */
  lemma {:induction false} ScanQuoted(s: string, rest: string, current: string, fields: seq<string>)
    requires rest == [] || rest[0] != '"'
    ensures Scan(DoubleQuotes(s) + "\"" + rest, true, current, fields) == Scan(rest, false, current + s, fields)
    decreases |s|, 1
  {
    if s == [] {
      var text := DoubleQuotes(s) + "\"" + rest;
      assert text == "\"" + rest;
      assert text[1..] == rest;
      assert current + s == current;
    } else if s[0] == '"' {
      ScanQuotedQuote(s, rest, current, fields);
    } else {
      ScanQuotedChar(s, rest, current, fields);
    }
  }

  /** A quote inside a quoted cell is written doubled and read back as one quote. */
  lemma {:induction false} ScanQuotedQuote(s: string, rest: string, current: string, fields: seq<string>)
    requires s != [] && s[0] == '"' && (rest == [] || rest[0] != '"')
    ensures Scan(DoubleQuotes(s) + "\"" + rest, true, current, fields) == Scan(rest, false, current + s, fields)
    decreases |s|, 0
  {
    QuoteStep(s, rest, current, fields);
    ScanQuoted(s[1..], rest, current + ['"'], fields);
    HeadThenTail(current, s);
  }

  /** Any other character inside a quoted cell, a comma included, is read as it is. */
  lemma {:induction false} ScanQuotedChar(s: string, rest: string, current: string, fields: seq<string>)
    requires s != [] && s[0] != '"' && (rest == [] || rest[0] != '"')
    ensures Scan(DoubleQuotes(s) + "\"" + rest, true, current, fields) == Scan(rest, false, current + s, fields)
    decreases |s|, 0
  {
    CharStep(s, rest, current, fields);
    ScanQuoted(s[1..], rest, current + [s[0]], fields);
    HeadThenTail(current, s);
  }

  /** Reading the doubled quote that starts an escaped text adds one quote to the cell. */
  lemma QuoteStep(s: string, rest: string, current: string, fields: seq<string>)
    requires s != [] && s[0] == '"'
    ensures Scan(DoubleQuotes(s) + "\"" + rest, true, current, fields)
         == Scan(DoubleQuotes(s[1..]) + "\"" + rest, true, current + ['"'], fields)
  {
    var tail := DoubleQuotes(s[1..]) + "\"" + rest;
    DoubleQuotesCons(s, rest);
    var text := "\"\"" + tail;
    assert text[2..] == tail;
    ScanDoubled(text, current, fields);
  }

  /** Reading any other character that starts an escaped text adds it to the cell. */
  lemma CharStep(s: string, rest: string, current: string, fields: seq<string>)
    requires s != [] && s[0] != '"'
    ensures Scan(DoubleQuotes(s) + "\"" + rest, true, current, fields)
         == Scan(DoubleQuotes(s[1..]) + "\"" + rest, true, current + [s[0]], fields)
  {
    var tail := DoubleQuotes(s[1..]) + "\"" + rest;
    DoubleQuotesCons(s, rest);
    var text := [s[0]] + tail;
    assert text[1..] == tail;
    ScanOne(text, true, current, fields);
  }

  lemma HeadThenTail(current: string, s: string)
    requires s != []
    ensures current + [s[0]] + s[1..] == current + s
  {
    assert s == [s[0]] + s[1..];
  }

  /** The first character of `s`, doubled when it is a quote, then the rest of `s` escaped. */
  lemma DoubleQuotesCons(s: string, rest: string)
    requires s != []
    ensures DoubleQuotes(s) + "\"" + rest
         == (if s[0] == '"' then "\"\"" else [s[0]]) + (DoubleQuotes(s[1..]) + "\"" + rest)
  {
  }

  /** A character other than a quote, and other than a comma outside quotes, joins the cell. */
  lemma ScanOne(text: string, inQuote: bool, current: string, fields: seq<string>)
    requires text != [] && text[0] != '"' && (inQuote || text[0] != ',')
    ensures Scan(text, inQuote, current, fields) == Scan(text[1..], inQuote, current + [text[0]], fields)
  {
  }

  /** A doubled quote inside quotes joins the cell as one quote. */
  lemma ScanDoubled(text: string, current: string, fields: seq<string>)
    requires |text| >= 2 && text[0] == '"' && text[1] == '"'
    ensures Scan(text, true, current, fields) == Scan(text[2..], true, current + ['"'], fields)
  {
  }

  // ---------------------------------------------------------------------------------------
  // Where the round trip stops

  /** A line feed inside a cell is kept (quoted) on writing, but the reader cuts lines before it
      looks at quotes: the row written for such a card is never one of the lines read back, and
      no card read from any text carries a line feed in a text cell, so the card does not come
      back. In the id cell this holds as long as the fresh ids hold no line feed either. */
  lemma LineFeedCutsRow(c: Flashcard, k: nat, text: string, freshId: nat -> string, clock: nat -> nat)
    requires k < 9 && '\n' in Text(CardFields(c)[k])
    ensures '\n' in CardRow(c)
    ensures CardRow(c) !in SplitLines(text)
    ensures 1 <= k < 7 ==> Filled(c) !in Parse(text, freshId, clock)
    ensures k == 0 && (forall j: nat :: '\n' !in freshId(j)) ==> Filled(c) !in Parse(text, freshId, clock)
  {
    var parts := EscapeAll(CardFields(c));
    assert '\n' in parts[k];
    JoinHas(parts, ',', k, '\n');
    if 1 <= k < 7 {
      FilledNotClean(c, k);
      ParseClean(text, freshId, clock);
    }
    if k == 0 && (forall j: nat :: '\n' !in freshId(j)) {
      ParseClean(text, freshId, clock);
    }
  }

  /** A line feed in text cell k of a card is still there once the optional cells are filled. */
  lemma FilledNotClean(c: Flashcard, k: nat)
    requires 1 <= k < 7 && '\n' in Text(CardFields(c)[k])
    ensures !CellsClean(Filled(c))
  {
  }

  /** No text cell of the card holds a line feed. */
  predicate CellsClean(c: Flashcard) {
    && '\n' !in c.word && '\n' !in Text(c.phonetic) && '\n' !in c.mainDefinition
    && '\n' !in Text(c.example) && '\n' !in c.partOfSpeech && '\n' !in StatusText(c.status)
  }

  /** A card read back has no line feed in its text cells, and one in its id only when the id is
      a fresh one. */
  lemma ParseClean(text: string, freshId: nat -> string, clock: nat -> nat)
    ensures forall x :: x in Parse(text, freshId, clock) ==>
      CellsClean(x) && ('\n' in x.id ==> exists j: nat :: x.id == freshId(j))
  {
    if text != "" {
      var lines := SplitLines(text);
      if |lines| >= 2 {
        var ids := FreshIds(|lines|, freshId);
        RowsBeforeClean(lines, ids, |lines|, clock);
        forall x | x in Parse(text, freshId, clock) && '\n' in x.id ensures exists j: nat :: x.id == freshId(j) {
          var j :| 0 <= j < |ids| && ids[j] == x.id;
          assert x.id == freshId(j);
        }
      }
    }
  }

  lemma {:induction false} RowsBeforeClean(lines: seq<string>, ids: seq<string>, n: nat, clock: nat -> nat)
    requires forall k :: 0 <= k < |lines| ==> '\n' !in lines[k]
    ensures forall x :: x in RowsBefore(lines, ids, n, clock) ==> CellsClean(x) && ('\n' in x.id ==> x.id in ids)
    decreases n
  {
    if n > 1 {
      RowsBeforeClean(lines, ids, n - 1, clock);
      if n - 1 < |lines| && n - 1 < |ids| {
        LineOfClean(lines[n - 1], ids[n - 1], clock(n - 1));
      }
    }
  }

  /** A line without line feeds yields a card whose text cells have none, and whose id is the
      fresh one or has none. */
  lemma LineOfClean(line: string, id: string, now: nat)
    requires '\n' !in line
    ensures forall x :: x in LineOf(line, id, now) ==> CellsClean(x) && ('\n' in x.id ==> x.id == id)
  {
    var t := Trim(line);
    TrimWithin(line, '\n');
    if t != "" {
      ScanClean(t, false, "", []);
    }
  }

  /** Splitting a text without line feeds gives cells without line feeds. */
  lemma {:induction false} ScanClean(rest: string, inQuote: bool, current: string, fields: seq<string>)
    requires '\n' !in rest && '\n' !in current
    requires forall i :: 0 <= i < |fields| ==> '\n' !in fields[i]
    ensures forall i :: 0 <= i < |Scan(rest, inQuote, current, fields)| ==> '\n' !in Scan(rest, inQuote, current, fields)[i]
    decreases |rest|
  {
    if rest != [] {
      assert rest == [rest[0]] + rest[1..];
      if rest[0] == '"' {
        if inQuote && |rest| >= 2 && rest[1] == '"' {
          assert rest[1..] == [rest[1]] + rest[2..];
          ScanClean(rest[2..], inQuote, current + ['"'], fields);
        } else {
          ScanClean(rest[1..], !inQuote, current, fields);
        }
      } else if rest[0] == ',' && !inQuote {
        ScanClean(rest[1..], inQuote, "", fields + [current]);
      } else {
        ScanClean(rest[1..], inQuote, current + [rest[0]], fields);
      }
    }
  }

  lemma {:induction false} JoinHas(parts: seq<string>, sep: char, k: nat, x: char)
    requires k < |parts| && x in parts[k]
    ensures x in Join(parts, sep)
    decreases |parts|
  {
    if k > 0 {
      JoinHas(parts[1..], sep, k - 1, x);
    }
  }
}
