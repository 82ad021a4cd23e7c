/** Exporting sessions to CSV and importing them again, and exactly which sessions that gives back. */
module CsvRoundTrip {
  import opened Basics
  import opened JsText
  import opened Csv

  predicate NormalOptional(s: Option<string>) { s.Some? ==> Trimmed(s.value) }

  predicate NormalTag(t: string) { Trimmed(t) && ';' !in t && '|' !in t }

  predicate NormalTags(tags: seq<string>) {
    tags != [""] && forall i :: 0 <= i < |tags| ==> NormalTag(tags[i])
  }

  /** Sessions whose CSV form says everything: trimmed fields, a known protocol, separator-free tags. */
  predicate Normal(s: Saved) {
    && Trimmed(s.name) && s.name != ""
    && s.protocol in PROTOCOLS
    && NormalOptional(s.host) && NormalOptional(s.username) && NormalOptional(s.notes)
    && NormalTags(s.tags)
  }

  predicate OneLine(s: string) { '\n' !in s }

  /** Every field of a session but its notes is on one line; notes are printed on one whatever they hold. */
  predicate OnOneLine(s: Saved) {
    && OneLine(s.name) && OneLine(s.protocol) && OneLine(OrEmpty(s.host)) && OneLine(OrEmpty(s.username))
    && forall i :: 0 <= i < |s.tags| ==> OneLine(s.tags[i])
  }

  predicate Survives(s: Saved) { Normal(s) && OnOneLine(s) }

  predicate AllSurvive(sessions: seq<Saved>) { forall i :: 0 <= i < |sessions| ==> Survives(sessions[i]) }

  /**
   * The session as an import shows it: a null text reads as empty, a null port as 22, and line breaks in the notes
   * as spaces.
   */
  function AsDraft(s: Saved): Draft {
    Draft(s.name, s.protocol, OrEmpty(s.host), Some(if s.port.Some? then s.port.value as int else 22),
          Some(OrEmpty(s.username)), s.tags, Some(NewlinesToSpaces(OrEmpty(s.notes))))
  }

  function AsDrafts(sessions: seq<Saved>): (r: seq<Draft>)
    ensures |r| == |sessions| && forall i :: 0 <= i < |r| ==> r[i] == AsDraft(sessions[i])
  {
    seq(|sessions|, i requires 0 <= i < |sessions| => AsDraft(sessions[i]))
  }

  // ---- printed lines are lines ----

  lemma {:induction false} DoubleQuotesOneLine(s: string)
    requires OneLine(s)
    ensures OneLine(DoubleQuotes(s))
    decreases |s|
  {
    if s != [] {
      assert s[0] in s && forall c :: c in s[1..] ==> c in s;
      DoubleQuotesOneLine(s[1..]);
    }
  }

  lemma {:induction false} JoinOneLine(parts: seq<string>, sep: string)
    requires OneLine(sep) && forall i :: 0 <= i < |parts| ==> OneLine(parts[i])
    ensures OneLine(Join(parts, sep))
    decreases |parts|
  {
    if |parts| > 1 { JoinOneLine(parts[1..], sep); }
  }

  lemma PrintRowOneLine(fields: seq<string>)
    requires forall i :: 0 <= i < |fields| ==> OneLine(fields[i])
    ensures OneLine(PrintRow(fields))
  {
    forall i | 0 <= i < |fields| ensures OneLine(PrintFields(fields)[i]) { DoubleQuotesOneLine(fields[i]); }
    JoinOneLine(PrintFields(fields), ",");
  }

  predicate EndsVisibly(s: string) { s != "" ==> !IsSpace(s[|s| - 1]) }

  lemma {:induction false} JoinEndsVisibly(parts: seq<string>, sep: string)
    requires parts != [] && EndsVisibly(parts[|parts| - 1]) && sep != "" && EndsVisibly(sep)
    ensures EndsVisibly(Join(parts, sep))
    decreases |parts|
  {
    if |parts| > 1 { JoinEndsVisibly(parts[1..], sep); }
  }

  /** A row of one-line fields ending in a trimmed one is a line of its own. */
  lemma PrintRowClean(fields: seq<string>)
    requires fields != [] && forall i :: 0 <= i < |fields| ==> OneLine(fields[i])
    requires EndsVisibly(fields[|fields| - 1])
    ensures CleanLine(PrintRow(fields))
  {
    PrintRowOneLine(fields);
    JoinEndsVisibly(PrintFields(fields), ",");
  }

  lemma PrintRowVisible(fields: seq<string>)
    requires |fields| > 1
    ensures Trim(PrintRow(fields)) != ""
  {
    var first := PrintFields(fields)[0];
    assert PrintRow(fields) == first + "," + Join(PrintFields(fields)[1..], ",");
    TrimOfVisible(PrintRow(fields), |first|);
  }

  lemma {:induction false} NonBlankKeepsAll(lines: seq<string>)
    requires forall i :: 0 <= i < |lines| ==> Trim(lines[i]) != ""
    ensures NonBlank(lines) == lines
    decreases |lines|
  {
    if lines != [] { NonBlankKeepsAll(lines[1..]); }
  }

  // ---- tags ----

  lemma {:induction false} SplitTagsPlain(s: string, rest: string, cur: string)
    requires ';' !in s && '|' !in s
    ensures SplitTags(s + rest, cur) == SplitTags(rest, cur + s)
    decreases |s|
  {
    if s == [] {
      assert s + rest == rest && cur + s == cur;
    } else {
      assert s[0] in s && forall c :: c in s[1..] ==> c in s;
      assert (s + rest)[1..] == s[1..] + rest;
      assert cur + s == cur + [s[0]] + s[1..];
      SplitTagsPlain(s[1..], rest, cur + [s[0]]);
    }
  }

  lemma {:induction false} SplitOfJoinedTags(tags: seq<string>)
    requires tags != [] && forall i :: 0 <= i < |tags| ==> NormalTag(tags[i])
    ensures SplitTags(Join(tags, ";"), []) == tags
    decreases |tags|
  {
    assert [] + tags[0] == tags[0];
    if |tags| == 1 {
      assert tags[0] + [] == tags[0];
      SplitTagsPlain(tags[0], [], []);
    } else {
      var rest := Join(tags[1..], ";");
      assert Join(tags, ";") == tags[0] + ([';'] + rest);
      SplitTagsPlain(tags[0], [';'] + rest, []);
      assert ([';'] + rest)[1..] == rest;
      SplitOfJoinedTags(tags[1..]);
    }
  }

  lemma {:induction false} JoinedTagsTrimmed(tags: seq<string>)
    requires forall i :: 0 <= i < |tags| ==> NormalTag(tags[i])
    ensures Trimmed(Join(tags, ";"))
    ensures tags != [] && tags != [""] ==> Join(tags, ";") != ""
    decreases |tags|
  {
    if |tags| > 1 {
      JoinedTagsTrimmed(tags[1..]);
      var rest := Join(tags[1..], ";");
      var s := tags[0] + ";" + rest;
      assert s[|s| - 1] == if rest == "" then ';' else rest[|rest| - 1];
      assert s[0] == if tags[0] == "" then ';' else tags[0][0];
    }
  }

  lemma TagsRoundTrip(tags: seq<string>)
    requires NormalTags(tags)
    ensures var cell := Trim(Join(tags, ";"));
            tags == if cell != "" then TrimAll(SplitTags(cell, [])) else []
  {
    JoinedTagsTrimmed(tags);
    TrimOfTrimmed(Join(tags, ";"));
    if tags != [] {
      SplitOfJoinedTags(tags);
      forall i | 0 <= i < |tags| ensures Trim(tags[i]) == tags[i] { TrimOfTrimmed(tags[i]); }
      assert TrimAll(tags) == tags;
    }
  }

  // ---- columns ----

  predicate LowerWord(s: string) { s != [] && forall i :: 0 <= i < |s| ==> 'a' <= s[i] <= 'z' }

  lemma LowerWordIsItself(s: string)
    requires LowerWord(s)
    ensures Lower(Trim(s)) == s && Trim(s) == s && Trim(s) != ""
  {
    TrimOfTrimmed(s);
  }

  /** The line of headers, spelled out. */
  lemma HeaderIsPrinted()
    ensures PrintRow(HEADER) == Join(["name", "protocol", "host", "port", "username", "tags", "notes"], ",")
  {
    WordsArePlain(HEADER);
  }

  lemma WordsArePlain(words: seq<string>)
    requires forall i :: 0 <= i < |words| ==> LowerWord(words[i])
    ensures PrintFields(words) == words
  {}

  lemma HeadersOfPrinted(header: seq<string>)
    requires header != [] && forall i :: 0 <= i < |header| ==> LowerWord(header[i])
    ensures Headers(PrintRow(header)) == header
  {
    RowRoundTrip(header);
    forall i | 0 <= i < |header| ensures Lower(Trim(header[i])) == header[i] { LowerWordIsItself(header[i]); }
  }

  /** Under the exported header, a named column is the field printed for it. */
  lemma CellOfHeader(cols: seq<string>, i: nat)
    requires |cols| == |HEADER| && i < |HEADER|
    ensures Cell(HEADER, cols, HEADER[i]) == Some(Trim(cols[i]))
  {
    var k := IndexOf(HEADER, HEADER[i]);
    assert k <= i;
    assert |"name"| == 4 && |"host"| == 4 && |"port"| == 4 && |"tags"| == 4 && |"notes"| == 5;
    assert HEADER[0][0] == 'n' && HEADER[2][0] == 'h' && HEADER[3][0] == 'p' && HEADER[5][0] == 't';
    assert |HEADER[1]| == 8 && |HEADER[4]| == 8 && HEADER[1][0] == 'p' && HEADER[4][0] == 'u';
  }

  lemma ProtocolRoundTrip(protocol: string)
    requires protocol in PROTOCOLS
    ensures Trim(protocol) == protocol && Lower(protocol) == protocol && protocol != ""
  {
    LowerWordIsItself(protocol);
  }

  lemma PortRoundTrip(n: nat)
    ensures Trim(Decimal(n)) == Decimal(n) && Decimal(n) != "" && ParseInt(Decimal(n)) == Some(n as int)
  {
    var d := Decimal(n);
    assert d[0] in d && d[|d| - 1] in d;
    TrimOfTrimmed(d);
    ParseIntOfDecimal(n);
  }

  lemma OptionalRoundTrip(s: Option<string>)
    requires NormalOptional(s)
    ensures Trim(OrEmpty(s)) == OrEmpty(s)
  {
    TrimOfTrimmed(OrEmpty(s));
  }

  /** Only white space changes, and so nothing at the ends of a trimmed text does. */
  lemma NotesAreTrimmed(notes: string)
    ensures Trimmed(NewlinesToSpaces(notes)) <==> Trimmed(notes)
    ensures OneLine(NewlinesToSpaces(notes))
  {}

  lemma NotesRoundTrip(notes: string)
    requires Trimmed(notes)
    ensures Trim(NewlinesToSpaces(notes)) == NewlinesToSpaces(notes)
  {
    NotesAreTrimmed(notes);
    TrimOfTrimmed(NewlinesToSpaces(notes));
  }

  lemma CellsOfRow(cols: seq<string>)
    requires |cols| == |HEADER|
    ensures Cell(HEADER, cols, "name") == Some(Trim(cols[0])) && Cell(HEADER, cols, "protocol") == Some(Trim(cols[1]))
    ensures Cell(HEADER, cols, "host") == Some(Trim(cols[2])) && Cell(HEADER, cols, "port") == Some(Trim(cols[3]))
    ensures Cell(HEADER, cols, "username") == Some(Trim(cols[4])) && Cell(HEADER, cols, "tags") == Some(Trim(cols[5]))
    ensures Cell(HEADER, cols, "notes") == Some(Trim(cols[6]))
  {
    CellOfHeader(cols, 0);
    CellOfHeader(cols, 1);
    CellOfHeader(cols, 2);
    CellOfHeader(cols, 3);
    CellOfHeader(cols, 4);
    CellOfHeader(cols, 5);
    CellOfHeader(cols, 6);
  }

  function PortText(s: Saved): string { if s.port.Some? then Decimal(s.port.value) else "" }

  lemma CellsMakeTheDraft(s: Saved)
    requires Normal(s)
    ensures FromCells(Some(s.name), Some(s.protocol), Some(OrEmpty(s.host)), Some(PortText(s)),
      Some(OrEmpty(s.username)), Some(Trim(Join(s.tags, ";"))), Some(NewlinesToSpaces(OrEmpty(s.notes)))) ==
      Some(AsDraft(s))
  {
    ProtocolRoundTrip(s.protocol);
    if s.port.Some? { PortRoundTrip(s.port.value); }
    TagsRoundTrip(s.tags);
  }

  lemma FieldsAreTrimmed(s: Saved)
    requires Normal(s)
    ensures Trim(s.name) == s.name && Trim(s.protocol) == s.protocol && Trim(OrEmpty(s.host)) == OrEmpty(s.host)
    ensures Trim(PortText(s)) == PortText(s) && Trim(OrEmpty(s.username)) == OrEmpty(s.username)
    ensures Trim(NewlinesToSpaces(OrEmpty(s.notes))) == NewlinesToSpaces(OrEmpty(s.notes))
  {
    TrimOfTrimmed(s.name);
    ProtocolRoundTrip(s.protocol);
    OptionalRoundTrip(s.host);
    if s.port.Some? { PortRoundTrip(s.port.value); }
    OptionalRoundTrip(s.username);
    NotesRoundTrip(OrEmpty(s.notes));
  }

  lemma RecordRoundTrip(s: Saved)
    requires Normal(s)
    ensures ParseRow(HEADER, PrintRow(Row(s))) == Some(AsDraft(s))
  {
    var cols := Row(s);
    RowRoundTrip(cols);
    CellsOfRow(cols);
    FieldsAreTrimmed(s);
    assert cols[3] == PortText(s);
    CellsMakeTheDraft(s);
  }

  lemma WordOneLine(s: string)
    requires LowerWord(s)
    ensures OneLine(s) && EndsVisibly(s)
  {}

  lemma DecimalOneLine(n: nat)
    ensures OneLine(Decimal(n))
  {
    assert forall c :: c in Decimal(n) ==> IsDigit(c);
  }

  lemma RowOneLine(s: Saved)
    requires OnOneLine(s)
    ensures forall i :: 0 <= i < |Row(s)| ==> OneLine(Row(s)[i])
  {
    JoinOneLine(s.tags, ";");
    NotesAreTrimmed(OrEmpty(s.notes));
    if s.port.Some? { DecimalOneLine(s.port.value); }
  }

  lemma {:induction false} RowsAreReadInOrder(header: seq<string>, rows: seq<string>, drafts: seq<Draft>)
    requires |rows| == |drafts| && forall i :: 0 <= i < |rows| ==> ParseRow(header, rows[i]) == Some(drafts[i])
    ensures ParseRows(header, rows) == drafts
    decreases |rows|
  {
    if rows != [] { RowsAreReadInOrder(header, rows[1..], drafts[1..]); }
  }

  lemma HeaderLineIsClean(header: seq<string>)
    requires |header| > 1 && forall i :: 0 <= i < |header| ==> LowerWord(header[i])
    ensures CleanLine(PrintRow(header)) && Trim(PrintRow(header)) != ""
  {
    forall k | 0 <= k < |header| ensures OneLine(header[k]) && EndsVisibly(header[k]) { WordOneLine(header[k]); }
    PrintRowClean(header);
    PrintRowVisible(header);
  }

  lemma SessionLineIsClean(s: Saved)
    requires Survives(s)
    ensures CleanLine(PrintRow(Row(s))) && Trim(PrintRow(Row(s))) != ""
  {
    RowOneLine(s);
    NotesAreTrimmed(OrEmpty(s.notes));
    PrintRowClean(Row(s));
    PrintRowVisible(Row(s));
  }

  /** A text of printed records, under any header of plain words, is cut back into those records. */
  lemma LinesRoundTrip(header: seq<string>, sessions: seq<Saved>)
    requires |header| > 1 && forall i :: 0 <= i < |header| ==> LowerWord(header[i])
    requires AllSurvive(sessions)
    ensures var lines := [PrintRow(header)] + PrintedRows(sessions);
            NonBlank(SplitLines(Join(lines, "\n"))) == lines
  {
    var lines := [PrintRow(header)] + PrintedRows(sessions);
    HeaderLineIsClean(header);
    forall i | 0 <= i < |lines| ensures CleanLine(lines[i]) && Trim(lines[i]) != "" {
      if 0 < i { SessionLineIsClean(sessions[i - 1]); }
    }
    SplitOfJoinedLines(lines);
    NonBlankKeepsAll(lines);
  }

  lemma SurvivorsComeBack(sessions: seq<Saved>)
    requires AllSurvive(sessions)
    ensures Parsed(Printed(sessions)) == AsDrafts(sessions)
  {
    LinesRoundTrip(HEADER, sessions);
    HeadersOfPrinted(HEADER);
    forall i | 0 <= i < |sessions| ensures ParseRow(HEADER, PrintRow(Row(sessions[i]))) == Some(AsDraft(sessions[i])) {
      RecordRoundTrip(sessions[i]);
    }
    RowsAreReadInOrder(HEADER, PrintedRows(sessions), AsDrafts(sessions));
  }

  // ---- what an import can say at all ----

  predicate OneLineOptional(s: Option<string>) { s.Some? ==> OneLine(s.value) }

  /** What every imported session is like, whatever the text. */
  predicate Readable(d: Draft) {
    && d.name != "" && Trimmed(d.name) && OneLine(d.name)
    && d.protocol in PROTOCOLS
    && Trimmed(d.host) && OneLine(d.host)
    && NormalOptional(d.username) && OneLineOptional(d.username)
    && NormalOptional(d.notes)
    && NormalTags(d.tags) && forall i :: 0 <= i < |d.tags| ==> OneLine(d.tags[i])
  }

  lemma ReadableSurvives(s: Saved)
    requires Readable(AsDraft(s))
    ensures Survives(s)
  {
    NotesAreTrimmed(OrEmpty(s.notes));
    assert AsDraft(s).username == Some(OrEmpty(s.username));
    ProtocolOneLine(s.protocol);
  }

  lemma ProtocolOneLine(protocol: string)
    requires protocol in PROTOCOLS
    ensures OneLine(protocol)
  {
    WordOneLine(protocol);
  }

  lemma {:induction false} TrimStartOneLine(s: string)
    requires OneLine(s)
    ensures OneLine(TrimStart(s))
  {}

  lemma TrimOneLine(s: string)
    requires OneLine(s)
    ensures OneLine(Trim(s)) && Trimmed(Trim(s))
  {
    TrimStartOneLine(s);
    assert forall c :: c in Trim(s) ==> c in TrimStart(s);
  }

  lemma {:induction false} FieldsOneLine(line: string, cur: string, inQuotes: bool)
    requires OneLine(line) && OneLine(cur)
    ensures forall i :: 0 <= i < |Fields(line, cur, inQuotes)| ==> OneLine(Fields(line, cur, inQuotes)[i])
    decreases |line|
  {
    if line != [] {
      var c := line[0];
      assert c in line && forall x :: x in line[1..] ==> x in line;
      if c == '"' {
        if inQuotes && |line| > 1 && line[1] == '"' {
          assert forall x :: x in line[2..] ==> x in line;
          FieldsOneLine(line[2..], cur + ['"'], true);
        } else {
          FieldsOneLine(line[1..], cur, !inQuotes);
        }
      } else if c == ',' && !inQuotes {
        FieldsOneLine(line[1..], [], false);
      } else {
        FieldsOneLine(line[1..], cur + [c], inQuotes);
      }
    }
  }

  predicate TagPiece(t: string) { ';' !in t && '|' !in t && OneLine(t) }

  /** Splitting at the separators leaves none, and a text without any as it is. */
  lemma {:induction false} PiecesOfTags(s: string, cur: string)
    requires OneLine(s) && TagPiece(cur)
    ensures forall i :: 0 <= i < |SplitTags(s, cur)| ==> TagPiece(SplitTags(s, cur)[i])
    ensures |SplitTags(s, cur)| == 1 ==> SplitTags(s, cur) == [cur + s]
    decreases |s|
  {
    if s == [] {
      assert cur + s == cur;
    } else {
      assert s[0] in s && forall x :: x in s[1..] ==> x in s;
      if s[0] == ';' || s[0] == '|' {
        PiecesOfTags(s[1..], []);
      } else {
        assert cur + s == cur + [s[0]] + s[1..];
        PiecesOfTags(s[1..], cur + [s[0]]);
      }
    }
  }

  lemma PieceTrimmed(t: string)
    requires TagPiece(t)
    ensures NormalTag(Trim(t)) && OneLine(Trim(t))
  {
    TrimOneLine(t);
    assert forall c :: c in Trim(t) ==> c in TrimStart(t);
  }

  lemma TagsAreReadable(cell: string)
    requires cell != "" && Trimmed(cell) && OneLine(cell)
    ensures var tags := TrimAll(SplitTags(cell, []));
      NormalTags(tags) && forall i :: 0 <= i < |tags| ==> OneLine(tags[i])
  {
    var pieces := SplitTags(cell, []);
    PiecesOfTags(cell, []);
    forall i | 0 <= i < |pieces| ensures NormalTag(Trim(pieces[i])) && OneLine(Trim(pieces[i])) {
      PieceTrimmed(pieces[i]);
    }
    if |pieces| == 1 {
      assert [] + cell == cell;
      TrimOfTrimmed(cell);
      assert TrimAll(pieces)[0] == cell;
    }
  }

  predicate ReadableCell(cell: Option<string>) { NormalOptional(cell) && OneLineOptional(cell) }

  lemma CellIsReadable(headers: seq<string>, cols: seq<string>, name: string)
    requires forall i :: 0 <= i < |cols| ==> OneLine(cols[i])
    ensures ReadableCell(Cell(headers, cols, name))
  {
    var i := IndexOf(headers, name);
    if i < |headers| && i < |cols| { TrimOneLine(cols[i]); }
  }

  lemma TagsCellIsReadable(cell: Option<string>)
    requires ReadableCell(cell)
    ensures var tags := if Truthy(cell) then TrimAll(SplitTags(cell.value, [])) else [];
      NormalTags(tags) && forall i :: 0 <= i < |tags| ==> OneLine(tags[i])
  {
    if Truthy(cell) { TagsAreReadable(cell.value); }
  }

  lemma DraftIsReadable(name: Option<string>, protocol: Option<string>, host: Option<string>, port: Option<string>,
    username: Option<string>, tags: Option<string>, notes: Option<string>)
    requires ReadableCell(name) && ReadableCell(host) && ReadableCell(username) && ReadableCell(tags)
    requires ReadableCell(notes)
    ensures var d := FromCells(name, protocol, host, port, username, tags, notes); d.Some? ==> Readable(d.value)
  {
    TagsCellIsReadable(tags);
  }

  lemma RecordIsReadable(headers: seq<string>, cols: seq<string>)
    requires forall i :: 0 <= i < |cols| ==> OneLine(cols[i])
    ensures Record(headers, cols).Some? ==> Readable(Record(headers, cols).value)
  {
    CellIsReadable(headers, cols, "name");
    CellIsReadable(headers, cols, "host");
    CellIsReadable(headers, cols, "username");
    CellIsReadable(headers, cols, "tags");
    CellIsReadable(headers, cols, "notes");
    DraftIsReadable(Cell(headers, cols, "name"), Cell(headers, cols, "protocol"), Cell(headers, cols, "host"),
      Cell(headers, cols, "port"), Cell(headers, cols, "username"), Cell(headers, cols, "tags"),
      Cell(headers, cols, "notes"));
  }

  lemma {:induction false} LinesAreOneLine(s: string)
    ensures forall i :: 0 <= i < |SplitLines(s)| ==> OneLine(SplitLines(s)[i])
    decreases |s|
  {
    var k := Find(s, '\n', 0);
    if k < |s| { LinesAreOneLine(s[k + 1..]); }
  }

  lemma {:induction false} NonBlankAreLines(lines: seq<string>)
    requires forall i :: 0 <= i < |lines| ==> OneLine(lines[i])
    ensures forall i :: 0 <= i < |NonBlank(lines)| ==> OneLine(NonBlank(lines)[i])
    decreases |lines|
  {
    if lines != [] { NonBlankAreLines(lines[1..]); }
  }

  lemma {:induction false} RowsAreReadable(headers: seq<string>, lines: seq<string>)
    requires forall i :: 0 <= i < |lines| ==> OneLine(lines[i])
    ensures forall i :: 0 <= i < |ParseRows(headers, lines)| ==> Readable(ParseRows(headers, lines)[i])
    decreases |lines|
  {
    if lines != [] {
      FieldsOneLine(lines[0], [], false);
      RecordIsReadable(headers, Fields(lines[0], [], false));
      RowsAreReadable(headers, lines[1..]);
    }
  }

  /** Of any text at all, an import makes readable sessions only. */
  lemma ImportsAreReadable(text: string)
    ensures forall i :: 0 <= i < |Parsed(text)| ==> Readable(Parsed(text)[i])
  {
    var lines := NonBlank(SplitLines(text));
    LinesAreOneLine(text);
    NonBlankAreLines(SplitLines(text));
    if lines != [] { RowsAreReadable(Headers(lines[0]), lines[1..]); }
  }

  /**
   * Importing an export restores the sessions, in order and nothing else, exactly when each of them survives; one
   * that does not survive no text whatever would restore.
   */
  lemma CsvRoundTrips(sessions: seq<Saved>, text: string)
    ensures Parsed(Printed(sessions)) == AsDrafts(sessions) <==> AllSurvive(sessions)
    ensures Parsed(text) == AsDrafts(sessions) ==> AllSurvive(sessions)
  {
    if AllSurvive(sessions) { SurvivorsComeBack(sessions); }
    if Parsed(Printed(sessions)) == AsDrafts(sessions) { OnlySurvivorsComeBack(sessions, Printed(sessions)); }
    if Parsed(text) == AsDrafts(sessions) { OnlySurvivorsComeBack(sessions, text); }
  }

  lemma OnlySurvivorsComeBack(sessions: seq<Saved>, text: string)
    requires Parsed(text) == AsDrafts(sessions)
    ensures AllSurvive(sessions)
  {
    ImportsAreReadable(text);
    forall i | 0 <= i < |sessions| ensures Survives(sessions[i]) {
      assert Readable(AsDrafts(sessions)[i]);
      ReadableSurvives(sessions[i]);
    }
  }
}
