/**
 * CSV import and export of sessions (electron/services/ImportExportService.ts, `splitCsv`, `fromCsv`,
 * `toCsv`): quoting as in section 2 of RFC 4180, one record per line.
 */
module Csv {
  import opened Basics
  import opened JsText

  // ---- records ----

  /** Reading one record; `cur` is the field so far. */
  function Fields(line: string, cur: string, inQuotes: bool): (r: seq<string>)
    ensures r != []
    decreases |line|
  {
    if line == [] then [cur]
    else if line[0] == '"' then
      if inQuotes && |line| > 1 && line[1] == '"' then Fields(line[2..], cur + ['"'], true)
      else Fields(line[1..], cur, !inQuotes)
    else if line[0] == ',' && !inQuotes then [cur] + Fields(line[1..], [], false)
    else Fields(line[1..], cur + [line[0]], inQuotes)
  }

  method SplitCsv(line: string) returns (out: seq<string>)
    ensures out == Fields(line, [], false)
  {
    out := [];
    var cur, inQuotes := [], false;
    var i := 0;
    assert line[0..] == line;
    while i < |line|
      invariant i <= |line|
      invariant out + Fields(line[i..], cur, inQuotes) == Fields(line, [], false)
    {
      var c := line[i];
      assert line[i..][1..] == line[i + 1..];
      if c == '"' {
        if inQuotes && i + 1 < |line| && line[i + 1] == '"' {
          assert line[i..][2..] == line[i + 2..];
          cur := cur + ['"'];
          i := i + 1;
        } else {
          inQuotes := !inQuotes;
        }
      } else if c == ',' && !inQuotes {
        out := out + [cur];
        cur := [];
      } else {
        cur := cur + [c];
      }
      i := i + 1;
    }
    out := out + [cur];
  }

  function DoubleQuotes(s: string): string {
    if s == [] then [] else (if s[0] == '"' then ['"', '"'] else [s[0]]) + DoubleQuotes(s[1..])
  }

  function PrintField(s: string): string {
    if '"' in s || ',' in s || '\n' in s then ['"'] + DoubleQuotes(s) + ['"'] else s
  }

  /** Quotes are put round a field exactly if it has a comma, a quote or a line feed in it. */
  lemma QuotedIffNeeded(s: string)
    ensures PrintField(s) != s <==> exists c :: c in s && (c == ',' || c == '"' || c == '\n')
  {
    if PrintField(s) == s && ('"' in s || ',' in s || '\n' in s) { DoublingGrows(s); }
  }

  lemma {:induction false} DoublingGrows(s: string)
    ensures |DoubleQuotes(s)| >= |s|
  {
    if s != [] { DoublingGrows(s[1..]); }
  }

  function PrintFields(fields: seq<string>): (r: seq<string>)
    ensures |r| == |fields| && forall i :: 0 <= i < |r| ==> r[i] == PrintField(fields[i])
  {
    seq(|fields|, i requires 0 <= i < |fields| => PrintField(fields[i]))
  }

  function PrintRow(fields: seq<string>): string {
    Join(PrintFields(fields), ",")
  }

  lemma {:induction false} PlainFieldIsRead(s: string, rest: string, cur: string)
    requires '"' !in s && ',' !in s
    ensures Fields(s + rest, cur, false) == Fields(rest, cur + s, false)
    decreases |s|
  {
    if s == [] {
      assert s + rest == rest && cur + s == cur;
    } else {
      assert (s + rest)[1..] == s[1..] + rest && s[0] in s;
      assert cur + s == cur + [s[0]] + s[1..];
      PlainFieldIsRead(s[1..], rest, cur + [s[0]]);
    }
  }

  lemma {:induction false} QuotedFieldIsRead(s: string, rest: string, cur: string)
    requires rest == [] || rest[0] != '"'
    ensures Fields(DoubleQuotes(s) + ['"'] + rest, cur, true) == Fields(rest, cur + s, false)
    decreases |s|
  {
    var line := DoubleQuotes(s) + ['"'] + rest;
    if s == [] {
      assert line == ['"'] + rest && cur + s == cur;
    } else {
      var tail := DoubleQuotes(s[1..]) + ['"'] + rest;
      assert cur + s == cur + [s[0]] + s[1..];
      if s[0] == '"' {
        assert line == ['"', '"'] + tail;
        assert line[2..] == tail;
      } else {
        assert line == [s[0]] + tail;
        assert line[1..] == tail;
      }
      QuotedFieldIsRead(s[1..], rest, cur + [s[0]]);
    }
  }

  lemma OpeningQuote(body: string, cur: string)
    ensures Fields(['"'] + body, cur, false) == Fields(body, cur, true)
  {
    BehindFirst('"', body);
  }

  /** Quotes may open in the middle of a field, and close there too. */
  lemma QuotedPartIsRead(s: string, rest: string, cur: string)
    requires rest == [] || rest[0] != '"'
    ensures Fields(['"'] + (DoubleQuotes(s) + ['"'] + rest), cur, false) == Fields(rest, cur + s, false)
  {
    OpeningQuote(DoubleQuotes(s) + ['"'] + rest, cur);
    QuotedFieldIsRead(s, rest, cur);
  }

  /** Quotes that never close take in the rest of the line, commas included. */
  lemma {:induction false} OpenQuotesTakeTheRest(s: string, cur: string)
    requires '"' !in s
    ensures Fields(s, cur, true) == [cur + s]
    decreases |s|
  {
    if s == [] {
      assert cur + s == cur;
    } else {
      assert s[0] in s && cur + s == cur + [s[0]] + s[1..];
      OpenQuotesTakeTheRest(s[1..], cur + [s[0]]);
    }
  }

  lemma PrintedFieldIsRead(s: string, rest: string)
    requires rest == [] || rest[0] == ','
    ensures Fields(PrintField(s) + rest, [], false) == Fields(rest, s, false)
  {
    var printed := PrintField(s);
    assert [] + s == s;
    if '"' !in s && ',' !in s && '\n' !in s {
      PlainFieldIsRead(s, rest, []);
      assert printed == s;
    } else {
      var body := DoubleQuotes(s) + ['"'] + rest;
      OpeningQuote(body, []);
      QuotedFieldIsRead(s, rest, []);
      assert printed + rest == ['"'] + body;
    }
  }

  /** Reading a printed record gives its fields back, whatever characters they hold. */
  lemma {:induction false} RowRoundTrip(fields: seq<string>)
    requires fields != []
    ensures Fields(PrintRow(fields), [], false) == fields
    decreases |fields|
  {
    if |fields| == 1 {
      PrintedFieldIsRead(fields[0], []);
      assert PrintField(fields[0]) + [] == PrintRow(fields);
    } else {
      var tail := PrintRow(fields[1..]);
      assert PrintFields(fields)[1..] == PrintFields(fields[1..]);
      assert PrintRow(fields) == PrintField(fields[0]) + ([','] + tail);
      PrintedFieldIsRead(fields[0], [','] + tail);
      assert ([','] + tail)[1..] == tail;
      RowRoundTrip(fields[1..]);
    }
  }

  // ---- sessions ----

  const PROTOCOLS: seq<string> := ["ssh", "telnet", "serial", "rdp", "vnc", "local"]

  lemma KnownProtocols(p: string)
    ensures p in PROTOCOLS <==>
      p == "ssh" || p == "telnet" || p == "serial" || p == "rdp" || p == "vnc" || p == "local"
  {
    assert PROTOCOLS[0] == "ssh" && PROTOCOLS[1] == "telnet" && PROTOCOLS[2] == "serial";
    assert PROTOCOLS[3] == "rdp" && PROTOCOLS[4] == "vnc" && PROTOCOLS[5] == "local";
  }

  const HEADER: seq<string> := ["name", "protocol", "host", "port", "username", "tags", "notes"]

  /** A draft session. `port` is None for NaN; a field is None when the column is missing. */
  datatype Draft = Draft(name: string, protocol: string, host: string, port: Option<int>,
                         username: Option<string>, tags: seq<string>, notes: Option<string>)

  /** A stored session, null fields as None. */
  datatype Saved = Saved(name: string, protocol: string, host: Option<string>, port: Option<nat>,
                         username: Option<string>, tags: seq<string>, notes: Option<string>)

  function IndexOf(xs: seq<string>, x: string): (r: nat)
    ensures r <= |xs| && (r < |xs| ==> xs[r] == x)
    ensures forall k :: 0 <= k < r ==> xs[k] != x
  {
    if xs == [] || xs[0] == x then 0 else 1 + IndexOf(xs[1..], x)
  }

  /** The trimmed cell under a header, if both exist. */
  function Cell(headers: seq<string>, cols: seq<string>, name: string): Option<string> {
    var i := IndexOf(headers, name);
    if i < |headers| && i < |cols| then Some(Trim(cols[i])) else None
  }

  function Or(s: Option<string>, default: string): string {
    if Truthy(s) then s.value else default
  }

  /** `s.split(/[;|]/)`. */
  function SplitTags(s: string, cur: string): (r: seq<string>)
    ensures r != []
    decreases |s|
  {
    if s == [] then [cur]
    else if s[0] == ';' || s[0] == '|' then [cur] + SplitTags(s[1..], [])
    else SplitTags(s[1..], cur + [s[0]])
  }

  function TrimAll(xs: seq<string>): (r: seq<string>)
    ensures |r| == |xs| && forall i :: 0 <= i < |r| ==> r[i] == Trim(xs[i])
  {
    seq(|xs|, i requires 0 <= i < |xs| => Trim(xs[i]))
  }

  /** The trimmed cells of one data line as a session; None when they name nothing. */
  function FromCells(name: Option<string>, protocol: Option<string>, host: Option<string>, port: Option<string>,
                     username: Option<string>, tags: Option<string>, notes: Option<string>): Option<Draft>
  {
    var called := Or(name, Or(host, ""));
    if called == "" then None
    else
      var proto := Lower(Or(protocol, "ssh"));
      Some(Draft(
        called,
        if proto in PROTOCOLS then proto else "ssh",
        Or(host, ""),
        if Truthy(port) then ParseInt(port.value) else Some(22),
        username,
        if Truthy(tags) then TrimAll(SplitTags(tags.value, [])) else [],
        notes))
  }

  function Record(headers: seq<string>, cols: seq<string>): Option<Draft> {
    FromCells(Cell(headers, cols, "name"), Cell(headers, cols, "protocol"), Cell(headers, cols, "host"),
      Cell(headers, cols, "port"), Cell(headers, cols, "username"), Cell(headers, cols, "tags"),
      Cell(headers, cols, "notes"))
  }

  predicate Named(cell: Option<string>) { cell.Some? && cell.value != "" }

  /**
   * What a row says without some of its cells: it is a session exactly if it has a name or a host. The host stands in
   * for a missing name, ssh for a missing or unknown protocol, in whatever case it is written, 22 for a missing port.
   */
  lemma DefaultsOfCells(name: Option<string>, protocol: Option<string>, host: Option<string>, port: Option<string>,
    username: Option<string>, tags: Option<string>, notes: Option<string>)
    ensures var d := FromCells(name, protocol, host, port, username, tags, notes);
      && (d.Some? <==> Named(name) || Named(host))
      && (d.Some? ==>
            && Some(d.value.name) == (if Named(name) then name else host)
            && Some(d.value.host) == (if host.Some? then host else Some(""))
            && d.value.protocol == (if Named(protocol) && Lower(protocol.value) in PROTOCOLS
                                    then Lower(protocol.value) else "ssh")
            && (!Named(port) ==> d.value.port == Some(22))
            && (!Named(tags) ==> d.value.tags == [])
            && d.value.username == username && d.value.notes == notes)
  {
    assert PROTOCOLS[0] == "ssh";
    assert Lower("ssh") == "ssh";
  }

  /** A column that no header names has no cell. */
  lemma NoSuchColumn(headers: seq<string>, cols: seq<string>, name: string)
    requires name !in headers
    ensures Cell(headers, cols, name).None?
  {}

  function ParseRow(headers: seq<string>, line: string): Option<Draft> {
    Record(headers, Fields(line, [], false))
  }

  function ParseRows(headers: seq<string>, lines: seq<string>): seq<Draft> {
    if lines == [] then []
    else
      var d := ParseRow(headers, lines[0]);
      (if d.Some? then [d.value] else []) + ParseRows(headers, lines[1..])
  }

  function NonBlank(lines: seq<string>): seq<string> {
    if lines == [] then [] else (if Trim(lines[0]) != "" then [lines[0]] else []) + NonBlank(lines[1..])
  }

  function Headers(line: string): (r: seq<string>)
    ensures |r| == |Fields(line, [], false)|
    ensures forall i :: 0 <= i < |r| ==> r[i] == Lower(Trim(Fields(line, [], false)[i]))
  {
    var cols := Fields(line, [], false);
    seq(|cols|, i requires 0 <= i < |cols| => Lower(Trim(cols[i])))
  }

  function Parsed(text: string): seq<Draft> {
    var lines := NonBlank(SplitLines(text));
    if lines == [] then [] else ParseRows(Headers(lines[0]), lines[1..])
  }

  lemma NonBlankSkips(line: string, rest: seq<string>)
    requires Trim(line) == ""
    ensures NonBlank([line] + rest) == NonBlank(rest)
  {
    assert ([line] + rest)[1..] == rest;
  }

  lemma BlankTrimsToNothing(blank: string)
    requires Blanks(blank)
    ensures Trim(blank) == ""
  {
    TrimStartDropsBlanks(blank, "");
    assert blank + "" == blank;
  }

  /** A blank line changes nothing, not even in front of the headers. */
  lemma BlankLineChangesNothing(blank: string, text: string)
    requires Blanks(blank) && '\n' !in blank
    ensures Parsed(blank + ['\n'] + text) == Parsed(text)
  {
    SplitAtFirstBreak(blank, text);
    BlankTrimsToNothing(ChopCr(blank));
    NonBlankSkips(ChopCr(blank), SplitLines(text));
  }

  method FromCsv(text: string) returns (sessions: seq<Draft>)
    ensures sessions == Parsed(text)
  {
    var lines := NonBlank(SplitLines(text));
    sessions := [];
    if lines == [] { return; }
    var headers := Headers(lines[0]);
    sessions := Rows(headers, lines[1..]);
  }

  /** The loop over the lines after the headers; `todo` are those still to come. */
  method Rows(headers: seq<string>, lines: seq<string>) returns (sessions: seq<Draft>)
    ensures sessions == ParseRows(headers, lines)
  {
    sessions := [];
    var todo := lines;
    while todo != []
      invariant sessions + ParseRows(headers, todo) == ParseRows(headers, lines)
      decreases |todo|
    {
      sessions := AddRow(headers, todo, sessions);
      todo := todo[1..];
    }
  }

  /** One turn of the loop. */
  method AddRow(headers: seq<string>, todo: seq<string>, done: seq<Draft>) returns (sessions: seq<Draft>)
    requires todo != []
    ensures sessions + ParseRows(headers, todo[1..]) == done + ParseRows(headers, todo)
  {
    var cols := SplitCsv(todo[0]);
    var draft := Record(headers, cols);
    ghost var rest := ParseRows(headers, todo[1..]);
    sessions := done;
    if draft.Some? {
      sessions := sessions + [draft.value];
      PlusAssociates(done, [draft.value], rest);
    } else {
      assert done + [] == done;
      PlusAssociates(done, [], rest);
    }
    NextRow(headers, todo, draft, rest);
  }

  lemma NextRow(headers: seq<string>, todo: seq<string>, draft: Option<Draft>, rest: seq<Draft>)
    requires todo != [] && draft == ParseRow(headers, todo[0]) && rest == ParseRows(headers, todo[1..])
    ensures ParseRows(headers, todo) == (if draft.Some? then [draft.value] else []) + rest
  {}

  // ---- export ----

  function NewlinesToSpaces(s: string): (r: string)
    ensures |r| == |s| && forall i :: 0 <= i < |s| ==> r[i] == if s[i] == '\n' then ' ' else s[i]
  {
    seq(|s|, i requires 0 <= i < |s| => if s[i] == '\n' then ' ' else s[i])
  }

  function Row(s: Saved): seq<string> {
    [s.name, s.protocol, OrEmpty(s.host), if s.port.Some? then Decimal(s.port.value) else "",
     OrEmpty(s.username), Join(s.tags, ";"), NewlinesToSpaces(OrEmpty(s.notes))]
  }

  function PrintedRows(sessions: seq<Saved>): (r: seq<string>)
    ensures |r| == |sessions| && forall i :: 0 <= i < |r| ==> r[i] == PrintRow(Row(sessions[i]))
  {
    seq(|sessions|, i requires 0 <= i < |sessions| => PrintRow(Row(sessions[i])))
  }

  function Printed(sessions: seq<Saved>): string {
    Join([PrintRow(HEADER)] + PrintedRows(sessions), "\n")
  }

  lemma PrintedLine(sessions: seq<Saved>, k: nat, row: seq<string>, line: string)
    requires k < |sessions| && row == Row(sessions[k]) && line == PrintRow(row)
    ensures PrintedRows(sessions)[k] == line
  {}

  lemma HeadAndBody(lines: seq<string>, head: string, body: seq<string>)
    requires |lines| == |body| + 1 && lines[0] == head && forall k :: 0 <= k < |body| ==> lines[k + 1] == body[k]
    ensures lines == [head] + body
  {}

  lemma PrintedLines(sessions: seq<Saved>, rows: seq<seq<string>>, lines: seq<string>)
    requires |rows| == |sessions| + 1 == |lines| && rows[0] == HEADER
    requires forall k :: 0 <= k < |sessions| ==> rows[k + 1] == Row(sessions[k])
    requires forall k :: 0 <= k < |rows| ==> lines[k] == PrintRow(rows[k])
    ensures lines == [PrintRow(HEADER)] + PrintedRows(sessions)
  {
    var body := PrintedRows(sessions);
    forall k | 0 <= k < |body| ensures lines[k + 1] == body[k] {
      PrintedLine(sessions, k, rows[k + 1], lines[k + 1]);
    }
    HeadAndBody(lines, PrintRow(rows[0]), body);
  }

  method ToCsv(sessions: seq<Saved>) returns (text: string)
    ensures text == Printed(sessions)
  {
    var rows := [HEADER];
    for i := 0 to |sessions|
      invariant |rows| == i + 1 && rows[0] == HEADER
      invariant forall k :: 0 <= k < i ==> rows[k + 1] == Row(sessions[k])
    {
      rows := rows + [Row(sessions[i])];
    }
    var lines := seq(|rows|, i requires 0 <= i < |rows| => PrintRow(rows[i]));
    PrintedLines(sessions, rows, lines);
    text := Join(lines, "\n");
  }
}
