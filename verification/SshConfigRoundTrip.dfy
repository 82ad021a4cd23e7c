/**
 * Writing sessions as an ssh_config (electron/services/ImportExportService.ts, `toSshConfig`) and importing it again.
 */
module SshConfigRoundTrip {
  import opened Basics
  import opened JsText
  import opened SshConfig

  datatype Saved = Saved(name: string, isSsh: bool, host: Option<string>, port: Option<nat>,
    username: Option<string>, compression: bool)

  /** `name.replace(/\s+/g, '-')`; `inRun` says a dash already stands for the white space so far. */
  function Dashed(s: string, inRun: bool): (r: string)
    ensures forall i :: 0 <= i < |r| ==> !IsSpace(r[i])
    ensures '*' in r ==> '*' in s
  {
    if s == [] then []
    else if IsSpace(s[0]) then (if inRun then [] else ['-']) + Dashed(s[1..], true)
    else [s[0]] + Dashed(s[1..], false)
  }

  lemma {:induction false} DashedToken(t: string, rest: string, inRun: bool)
    requires Token(t)
    ensures Dashed(t + rest, inRun) == t + Dashed(rest, inRun && t == "")
    decreases |t|
  {
    if t == "" {
      assert t + rest == rest;
    } else {
      FirstOfConcat(t, rest);
      DashedToken(t[1..], rest, false);
      PlusAssociates([t[0]], t[1..], Dashed(rest, false));
    }
  }

  lemma {:induction false} DashedGap(gap: string, rest: string, inRun: bool)
    requires Blanks(gap) && gap != ""
    ensures Dashed(gap + rest, inRun) == (if inRun then "" else "-") + Dashed(rest, true)
    decreases |gap|
  {
    FirstOfConcat(gap, rest);
    if |gap| == 1 {
      assert gap[1..] + rest == rest;
    } else {
      DashedGap(gap[1..], rest, true);
    }
  }

  /** Each run of white space in a name, however long, becomes one dash; everything else stays. */
  lemma DashPerGap(word: string, gap: string, rest: string)
    requires Token(word) && Blanks(gap) && gap != "" && (rest == "" || !IsSpace(rest[0]))
    ensures Dashed(word + (gap + rest), false) == word + "-" + Dashed(rest, false)
    ensures Dashed(word, false) == word
  {
    DashedToken(word, gap + rest, false);
    DashedGap(gap, rest, false);
    DashedToken(word, "", false);
    assert word + "" == word;
    if rest != "" {
      assert rest == [rest[0]] + rest[1..];
      DashedToken([rest[0]], rest[1..], true);
      DashedToken([rest[0]], rest[1..], false);
    }
    PlusAssociates(word, "-", Dashed(rest, false));
  }

  predicate Token(s: string) { forall i :: 0 <= i < |s| ==> !IsSpace(s[i]) }

  function HostPart(s: Saved): seq<string> {
    if Truthy(s.host) then ["    HostName " + s.host.value] else []
  }

  predicate HasPort(s: Saved) { s.port.Some? && s.port.value != 0 }

  function PortPart(s: Saved): seq<string> {
    if HasPort(s) then ["    Port " + Decimal(s.port.value)] else []
  }

  function UserPart(s: Saved): seq<string> {
    if Truthy(s.username) then ["    User " + s.username.value] else []
  }

  function CompressionPart(s: Saved): seq<string> {
    if s.compression then ["    Compression yes"] else []
  }

  function Block(s: Saved): seq<string> {
    ["Host " + Dashed(s.name, false)] + HostPart(s) + PortPart(s) + UserPart(s) + CompressionPart(s) + [""]
  }

  function Blocks(sessions: seq<Saved>): seq<string> {
    if sessions == [] then [] else (if sessions[0].isSsh then Block(sessions[0]) else []) + Blocks(sessions[1..])
  }

  const HEAD: seq<string> := ["# Generated by Ternix", ""]

  function Printed(sessions: seq<Saved>): string {
    Join(HEAD + Blocks(sessions), "\n")
  }

  method PushBlock(lines: seq<string>, s: Saved) returns (out: seq<string>)
    ensures out == lines + Block(s)
  {
    out := ["Host " + Dashed(s.name, false)];
    ghost var name := out;
    if Truthy(s.host) { out := out + ["    HostName " + s.host.value]; }
    assert out == name + HostPart(s);
    if HasPort(s) { out := out + ["    Port " + Decimal(s.port.value)]; }
    assert out == name + HostPart(s) + PortPart(s);
    if Truthy(s.username) { out := out + ["    User " + s.username.value]; }
    assert out == name + HostPart(s) + PortPart(s) + UserPart(s);
    if s.compression { out := out + ["    Compression yes"]; }
    assert out == name + HostPart(s) + PortPart(s) + UserPart(s) + CompressionPart(s);
    out := lines + (out + [""]);
  }

  /** The next session's block moves from what is still to come to what is there. */
  lemma NextBlock(lines: seq<string>, sessions: seq<Saved>, i: nat, block: seq<string>)
    requires i < |sessions| && block == if sessions[i].isSsh then Block(sessions[i]) else []
    ensures lines + Blocks(sessions[i..]) == lines + block + Blocks(sessions[i + 1..])
  {
    assert sessions[i..][1..] == sessions[i + 1..];
    PlusAssociates(lines, block, Blocks(sessions[i + 1..]));
  }

  method ToSshConfig(sessions: seq<Saved>) returns (text: string)
    ensures text == Printed(sessions)
  {
    var lines := HEAD;
    assert sessions[0..] == sessions;
    for i := 0 to |sessions|
      invariant lines + Blocks(sessions[i..]) == HEAD + Blocks(sessions)
    {
      ghost var before := lines;
      ghost var block := if sessions[i].isSsh then Block(sessions[i]) else [];
      if sessions[i].isSsh { lines := PushBlock(lines, sessions[i]); }
      NextBlock(before, sessions, i, block);
      assert lines == before + block;
    }
    assert lines + [] == lines;
    text := Join(lines, "\n");
  }

  // ---- what comes back ----

  /** Names without a pattern star; host and user of one word, or none. */
  predicate Writable(s: Saved) {
    '*' !in s.name && (Truthy(s.host) ==> Token(s.host.value)) && (Truthy(s.username) ==> Token(s.username.value))
  }

  function AsDraft(s: Saved): Draft {
    var name := Dashed(s.name, false);
    Draft(name, if s.host == None || s.host == Some("") then name else s.host.value,
          Some(if s.port == None || s.port == Some(0) then 22 else s.port.value as int),
          if s.username == Some("") then None else s.username, Agent, None, None)
  }

  function AsDrafts(sessions: seq<Saved>): seq<Draft> {
    if sessions == [] then [] else (if sessions[0].isSsh then [AsDraft(sessions[0])] else []) + AsDrafts(sessions[1..])
  }

  // ---- words ----

  lemma {:induction false} WordsOfToken(t: string, rest: string, cur: string)
    requires Token(t)
    ensures Words(t + rest, cur) == Words(rest, cur + t)
    decreases |t|
  {
    if t == [] {
      assert t + rest == rest && cur + t == cur;
    } else {
      assert (t + rest)[1..] == t[1..] + rest;
      assert cur + t == cur + [t[0]] + t[1..];
      WordsOfToken(t[1..], rest, cur + [t[0]]);
    }
  }

  lemma {:induction false} WordsOfTrimStart(s: string)
    ensures Words(TrimStart(s), []) == Words(s, [])
    decreases |s|
  {
    if s != [] && IsSpace(s[0]) { WordsOfTrimStart(s[1..]); }
  }

  lemma {:induction false} WordsDropLastSpace(s: string, c: char, cur: string)
    requires IsSpace(c)
    ensures Words(s + [c], cur) == Words(s, cur)
    decreases |s|
  {
    if s == [] {
      assert [c][1..] == [];
    } else {
      assert (s + [c])[1..] == s[1..] + [c];
      WordsDropLastSpace(s[1..], c, if IsSpace(s[0]) then [] else cur + [s[0]]);
    }
  }

  lemma {:induction false} WordsOfTrimEnd(s: string)
    ensures Words(TrimEnd(s), []) == Words(s, [])
    decreases |s|
  {
    if s != [] && IsSpace(s[|s| - 1]) {
      assert s == s[..|s| - 1] + [s[|s| - 1]];
      WordsDropLastSpace(s[..|s| - 1], s[|s| - 1], []);
      WordsOfTrimEnd(s[..|s| - 1]);
    }
  }

  lemma WordsOfTrim(s: string)
    ensures Words(Trim(s), []) == Words(s, [])
  {
    WordsOfTrimStart(s);
    WordsOfTrimEnd(TrimStart(s));
  }

  lemma TwoWords(kw: string, v: string)
    requires kw != "" && Token(kw) && Token(v)
    ensures Words(kw + " " + v, []) == [kw] + (if v == "" then [] else [v])
  {
    assert kw + " " + v == kw + ([' '] + v);
    assert [] + kw == kw && [] + v == v && v + [] == v;
    assert ([' '] + v)[1..] == v;
    WordsOfToken(kw, [' '] + v, []);
    WordsOfToken(v, [], []);
  }

  lemma {:induction false} IndentDropped(indent: string, body: string)
    requires Blanks(indent) && body != "" && !IsSpace(body[0])
    ensures Words(indent + body, []) == Words(body, [])
    ensures TrimStart(indent + body) == body
    decreases |indent|
  {
    if indent == "" {
      assert indent + body == body;
    } else {
      assert (indent + body)[1..] == indent[1..] + body;
      IndentDropped(indent[1..], body);
    }
  }

  /** `Keyword value`, however indented, is read as that keyword and that value. */
  lemma KeywordLine(indent: string, kw: string, v: string)
    requires Blanks(indent) && kw != "" && Token(kw) && Token(v) && kw[0] != '#'
    ensures var line := Trim(indent + kw + " " + v);
            !Skipped(line) && Keyword(line) == Lower(kw) && Value(line) == v
  {
    var body := kw + " " + v;
    assert indent + kw + " " + v == indent + body;
    IndentDropped(indent, body);
    TwoWords(kw, v);
    WordsOfTrim(indent + body);
    TrimEndKeepsFront(body);
  }

  // ---- what a line in a block does ----

  predicate Phrase(words: seq<string>) { forall i :: 0 <= i < |words| ==> words[i] != "" && Token(words[i]) }

  /** No comment, and nothing in it that white space would cut. */
  predicate Clause(kw: string, words: seq<string>) { kw != "" && kw[0] != '#' && Token(kw) && Phrase(words) }

  lemma {:induction false} WordsOfPhrase(words: seq<string>)
    requires Phrase(words) && words != []
    ensures Words(Join(words, " "), []) == words
    decreases |words|
  {
    var first := words[0];
    assert [] + first == first;
    if |words| == 1 {
      assert first + "" == first;
      WordsOfToken(first, "", []);
    } else {
      var rest := Join(words[1..], " ");
      assert Join(words, " ") == first + ([' '] + rest);
      WordsOfToken(first, [' '] + rest, []);
      BehindFirst(' ', rest);
      WordsOfPhrase(words[1..]);
    }
  }

  /** `keyword word word ...`, however indented: the value is the words, one blank between two. */
  lemma PhraseLine(indent: string, kw: string, words: seq<string>)
    requires Blanks(indent) && Clause(kw, words)
    ensures var line := Trim(indent + Join([kw] + words, " "));
      !Skipped(line) && Keyword(line) == Lower(kw) && Value(line) == Join(words, " ")
  {
    var body := Join([kw] + words, " ");
    BehindFirst(kw, words);
    assert body[0] == kw[0] && body != "";
    IndentDropped(indent, body);
    WordsOfPhrase([kw] + words);
    WordsOfTrim(indent + body);
    TrimEndKeepsFront(body);
  }

  lemma LineIs(st: Import, raw: string, kw: string, value: string)
    requires var line := Trim(raw); !Skipped(line) && Keyword(line) == kw && Value(line) == value
    ensures ImportLine(st, raw) ==
      if kw == "host" then
        Import(st.Flush(), if '*' in value then None else Some(Draft(value, value, Some(22), None, Agent, None, None)))
      else if st.current.Some? then st.(current := Some(ImportField(st.current.value, kw, value))) else st
  {}

  /** A key file makes the session one that logs in with a key, and its path is kept for the commit. */
  lemma IdentityLineIsRead(st: Import, indent: string, kw: string, words: seq<string>)
    requires Blanks(indent) && Clause(kw, words) && Lower(kw) == "identityfile" && st.current.Some?
    ensures ImportLine(st, indent + Join([kw] + words, " ")) ==
      st.(current := Some(st.current.value.(auth := KeyFile, importKeyPath := Some(Join(words, " ")))))
  {
    PhraseLine(indent, kw, words);
    LineIs(st, indent + Join([kw] + words, " "), "identityfile", Join(words, " "));
  }

  lemma JumpNote(before: string, note: string)
    requires Trimmed(before) && note != "" && Trimmed(note)
    ensures Trim(before + "\n" + note) == if before == "" then note else before + "\n" + note
  {
    if before == "" {
      assert before + "\n" + note == "\n" + note;
      TrimStartDropsBlanks("\n", note);
    } else {
      TrimOfTrimmed(before + "\n" + note);
    }
  }

  lemma {:induction false} PhraseIsTrimmed(words: seq<string>)
    requires Phrase(words) && words != []
    ensures Join(words, " ") != "" && Trimmed(Join(words, " "))
    decreases |words|
  {
    if |words| > 1 { PhraseIsTrimmed(words[1..]); }
  }

  lemma JumpField(d: SshConfig.Draft, value: string)
    requires value != "" && Trimmed(value) && Trimmed(OrEmpty(d.notes))
    ensures var note, notes := "ProxyJump " + value, OrEmpty(d.notes);
      ImportField(d, "proxyjump", value) == d.(notes := Some(if notes == "" then note else notes + "\n" + note))
  {
    var notes := OrEmpty(d.notes);
    JumpNote(notes, "ProxyJump " + value);
    assert notes + "\nProxyJump " + value == notes + "\n" + ("ProxyJump " + value);
  }

  /** A jump host is noted, below the notes there are. */
  lemma JumpLineIsRead(st: Import, indent: string, kw: string, words: seq<string>)
    requires Blanks(indent) && Clause(kw, words) && words != [] && Lower(kw) == "proxyjump"
    requires st.current.Some? && Trimmed(OrEmpty(st.current.value.notes))
    ensures var note, notes := "ProxyJump " + Join(words, " "), OrEmpty(st.current.value.notes);
      ImportLine(st, indent + Join([kw] + words, " ")) ==
        st.(current := Some(st.current.value.(notes := Some(if notes == "" then note else notes + "\n" + note))))
  {
    PhraseLine(indent, kw, words);
    LineIs(st, indent + Join([kw] + words, " "), "proxyjump", Join(words, " "));
    PhraseIsTrimmed(words);
    JumpField(st.current.value, Join(words, " "));
  }

  /** A block for a pattern is no session: it ends the one before, and its lines go nowhere. */
  lemma PatternIsSkipped(st: Import, indent: string, kw: string, words: seq<string>, raw: string)
    requires Blanks(indent) && Clause(kw, words) && Lower(kw) == "host" && '*' in Join(words, " ")
    ensures ImportLine(st, indent + Join([kw] + words, " ")) == Import(st.Flush(), None)
    ensures Keyword(Trim(raw)) != "host" ==> ImportLine(Import(st.Flush(), None), raw) == Import(st.Flush(), None)
  {
    PhraseLine(indent, kw, words);
    LineIs(st, indent + Join([kw] + words, " "), "host", Join(words, " "));
  }

  // ---- blocks ----

  lemma KeywordsLower()
    ensures Lower("Host") == "host" && Lower("HostName") == "hostname" && Lower("Port") == "port"
    ensures Lower("User") == "user" && Lower("Compression") == "compression"
  {}

  lemma HostLine(st: Import, name: string)
    requires Token(name) && '*' !in name
    ensures ImportLine(st, "Host " + name) ==
      Import(st.Flush(), Some(Draft(name, name, Some(22), None, Agent, None, None)))
  {
    KeywordsLower();
    KeywordLine("", "Host", name);
    assert "" + "Host" + " " + name == "Host " + name;
  }

  lemma OneLine(st: Import, line: string)
    ensures ImportLines(st, [line]) == ImportLine(st, line)
  {
    assert [line][1..] == [];
  }

  /** One indented line of a block sets the field its keyword names. */
  lemma FieldLine(st: Import, kw: string, v: string, line: string)
    requires kw != "" && Token(kw) && Token(v) && kw[0] != '#' && Lower(kw) != "host"
    requires st.current.Some? && line == "    " + kw + " " + v
    ensures ImportLines(st, [line]) == st.(current := Some(ImportField(st.current.value, Lower(kw), v)))
  {
    KeywordLine("    ", kw, v);
    OneLine(st, line);
  }

  lemma HostPartIsRead(st: Import, s: Saved)
    requires Writable(s) && st.current.Some?
    ensures ImportLines(st, HostPart(s)) ==
            if Truthy(s.host) then st.(current := Some(st.current.value.(host := s.host.value))) else st
  {
    if Truthy(s.host) {
      KeywordsLower();
      FieldLine(st, "HostName", s.host.value, "    HostName " + s.host.value);
    }
  }

  lemma PortPartIsRead(st: Import, s: Saved)
    requires st.current.Some?
    ensures ImportLines(st, PortPart(s)) ==
            if HasPort(s) then st.(current := Some(st.current.value.(port := Some(s.port.value as int)))) else st
  {
    if HasPort(s) {
      KeywordsLower();
      PortIsAToken(s.port.value);
      ParseIntOfDecimal(s.port.value);
      FieldLine(st, "Port", Decimal(s.port.value), "    Port " + Decimal(s.port.value));
    }
  }

  lemma UserPartIsRead(st: Import, s: Saved)
    requires Writable(s) && st.current.Some?
    ensures ImportLines(st, UserPart(s)) ==
            if Truthy(s.username) then
              st.(current := Some(st.current.value.(username := Some(s.username.value))))
            else st
  {
    if Truthy(s.username) {
      KeywordsLower();
      FieldLine(st, "User", s.username.value, "    User " + s.username.value);
    }
  }

  lemma CompressionLine(line: string)
    requires line == "    Compression yes"
    ensures line == "    " + "Compression" + " " + "yes"
  {}

  lemma OtherKeyword(st: Import, kw: string, v: string, line: string)
    requires st.current.Some? && kw != "" && Token(kw) && Token(v) && kw[0] != '#' && Lower(kw) == "compression"
    requires line == "    " + kw + " " + v
    ensures ImportLines(st, [line]) == st
  {
    FieldLine(st, kw, v, line);
  }

  lemma CompressionIsIgnored(st: Import, lines: seq<string>)
    requires st.current.Some? && lines == ["    Compression yes"]
    ensures ImportLines(st, lines) == st
  {
    var kw, v, line := "Compression", "yes", lines[0];
    CompressionLine(line);
    KeywordsLower();
    assert kw[0] == 'C';
    OtherKeyword(st, kw, v, line);
  }

  /** The importer knows no Compression keyword. */
  lemma CompressionPartIsIgnored(st: Import, s: Saved)
    requires st.current.Some?
    ensures ImportLines(st, CompressionPart(s)) == st
  {
    if s.compression { CompressionIsIgnored(st, CompressionPart(s)); }
  }

  lemma BlankLineIsIgnored(st: Import)
    ensures ImportLines(st, [""]) == st
  {
    OneLine(st, "");
  }

  lemma PortIsAToken(n: nat)
    ensures Token(Decimal(n))
  {
    forall i | 0 <= i < |Decimal(n)| ensures !IsSpace(Decimal(n)[i]) { assert Decimal(n)[i] in Decimal(n); }
  }

  lemma FieldsMakeTheDraft(s: Saved)
    ensures var name := Dashed(s.name, false);
      var d0 := Draft(name, name, Some(22), None, Agent, None, None);
      var d1 := if Truthy(s.host) then d0.(host := s.host.value) else d0;
      var d2 := if HasPort(s) then d1.(port := Some(s.port.value as int)) else d1;
      (if Truthy(s.username) then d2.(username := Some(s.username.value)) else d2) == AsDraft(s)
  {}

  lemma BlockIsRead(st: Import, s: Saved)
    requires Writable(s)
    ensures ImportLines(st, Block(s)) == Import(st.Flush(), Some(AsDraft(s)))
  {
    var name := Dashed(s.name, false);
    var a, b, c, d, e := ["Host " + name], HostPart(s), PortPart(s), UserPart(s), CompressionPart(s);
    ImportLinesConcat(st, a + b + c + d + e, [""]);
    ImportLinesConcat(st, a + b + c + d, e);
    ImportLinesConcat(st, a + b + c, d);
    ImportLinesConcat(st, a + b, c);
    ImportLinesConcat(st, a, b);
    OneLine(st, "Host " + name);
    HostLine(st, name);
    var st1 := ImportLine(st, "Host " + name);
    HostPartIsRead(st1, s);
    var st2 := ImportLines(st1, b);
    PortPartIsRead(st2, s);
    var st3 := ImportLines(st2, c);
    UserPartIsRead(st3, s);
    CompressionPartIsIgnored(ImportLines(st3, d), s);
    BlankLineIsIgnored(ImportLines(st3, d));
    FieldsMakeTheDraft(s);
  }

  /** Reading one block after another: `d` is what the first block adds. */
  lemma BlockThenRest(st: Import, block: seq<string>, d: Draft, rest: seq<string>, ds: seq<Draft>)
    requires ImportLines(st, block) == Import(st.Flush(), Some(d))
    requires ImportLines(Import(st.Flush(), Some(d)), rest).Flush() == st.Flush() + [d] + ds
    ensures ImportLines(st, block + rest).Flush() == st.Flush() + ([d] + ds)
  {
    ImportLinesConcat(st, block, rest);
  }

  lemma {:induction false} BlocksAreRead(st: Import, sessions: seq<Saved>)
    requires forall i :: 0 <= i < |sessions| && sessions[i].isSsh ==> Writable(sessions[i])
    ensures ImportLines(st, Blocks(sessions)).Flush() == st.Flush() + AsDrafts(sessions)
    decreases |sessions|
  {
    if sessions != [] {
      var s, rest := sessions[0], sessions[1..];
      if s.isSsh {
        BlockIsRead(st, s);
        BlocksAreRead(Import(st.Flush(), Some(AsDraft(s))), rest);
        BlockThenRest(st, Block(s), AsDraft(s), Blocks(rest), AsDrafts(rest));
      } else {
        assert [] + Blocks(rest) == Blocks(rest) && [] + AsDrafts(rest) == AsDrafts(rest);
        BlocksAreRead(st, rest);
      }
    }
  }

  predicate AllClean(lines: seq<string>) { forall i :: 0 <= i < |lines| ==> CleanLine(lines[i]) }

  lemma CleanConcat(a: seq<string>, b: seq<string>)
    requires AllClean(a) && AllClean(b)
    ensures AllClean(a + b)
  {}

  lemma OneClean(front: string, v: string)
    requires CleanLine(front) && front != "" && Token(v)
    ensures AllClean([front + v])
  {
    assert forall c :: c in front + v ==> c in front || c in v;
    var line := front + v;
    assert line[|line| - 1] == if v == "" then front[|front| - 1] else v[|v| - 1];
  }

  lemma HostPartClean(s: Saved)
    requires Writable(s)
    ensures AllClean(HostPart(s))
  {
    if Truthy(s.host) { OneClean("    HostName ", s.host.value); }
  }

  lemma PortPartClean(s: Saved)
    ensures AllClean(PortPart(s))
  {
    if HasPort(s) {
      PortIsAToken(s.port.value);
      OneClean("    Port ", Decimal(s.port.value));
    }
  }

  lemma UserPartClean(s: Saved)
    requires Writable(s)
    ensures AllClean(UserPart(s))
  {
    if Truthy(s.username) { OneClean("    User ", s.username.value); }
  }

  lemma BlockClean(s: Saved)
    requires Writable(s)
    ensures AllClean(Block(s))
  {
    var name := Dashed(s.name, false);
    var a, b, c, d, e := ["Host " + name], HostPart(s), PortPart(s), UserPart(s), CompressionPart(s);
    OneClean("Host ", name);
    HostPartClean(s);
    PortPartClean(s);
    UserPartClean(s);
    CleanConcat(a, b);
    CleanConcat(a + b, c);
    CleanConcat(a + b + c, d);
    CleanConcat(a + b + c + d, e);
    CleanConcat(a + b + c + d + e, [""]);
  }

  /** Compression is asked for exactly where the session has it. */
  lemma CompressionIsPrinted(s: Saved)
    ensures Block(s)[|Block(s)| - 1] == ""
    ensures |CompressionPart(s)| <= 1 && (CompressionPart(s) == ["    Compression yes"] <==> s.compression)
  {}

  lemma {:induction false} BlocksClean(sessions: seq<Saved>)
    requires forall i :: 0 <= i < |sessions| && sessions[i].isSsh ==> Writable(sessions[i])
    ensures AllClean(Blocks(sessions))
    decreases |sessions|
  {
    if sessions != [] {
      var first := if sessions[0].isSsh then Block(sessions[0]) else [];
      if sessions[0].isSsh { BlockClean(sessions[0]); }
      BlocksClean(sessions[1..]);
      CleanConcat(first, Blocks(sessions[1..]));
    }
  }

  lemma SkipLine(st: Import, line: string, rest: seq<string>)
    requires Skipped(Trim(line))
    ensures ImportLines(st, [line] + rest) == ImportLines(st, rest)
  {
    assert ([line] + rest)[1..] == rest;
  }

  lemma CommentIsSkipped(comment: string)
    requires comment != "" && comment[0] == '#'
    ensures Skipped(Trim(comment)) && Skipped(Trim(""))
  {
    TrimEndKeepsFront(comment);
  }

  /** The first two lines of an export: a comment and a blank line. */
  predicate IsHead(head: seq<string>) {
    |head| == 2 && CleanLine(head[0]) && head[0] != "" && head[0][0] == '#' && head[1] == ""
  }

  lemma HeadIsHead()
    ensures IsHead(HEAD)
  {}

  /** A comment and a blank line in front change nothing. */
  lemma HeadIsIgnored(st: Import, head: seq<string>, body: seq<string>)
    requires IsHead(head)
    ensures ImportLines(st, head + body) == ImportLines(st, body)
  {
    CommentIsSkipped(head[0]);
    SkipLine(st, head[0], [head[1]] + body);
    SkipLine(st, head[1], body);
    assert head + body == [head[0]] + ([head[1]] + body);
  }

  lemma LinesAreRead(lines: seq<string>, ds: seq<Draft>)
    requires lines != [] && AllClean(lines)
    requires ImportLines(Import([], None), lines).Flush() == ds
    ensures Imported(Join(lines, "\n")) == ds
  {
    SplitOfJoinedLines(lines);
  }

  lemma PrintedLinesAreRead(head: seq<string>, sessions: seq<Saved>)
    requires IsHead(head)
    requires forall i :: 0 <= i < |sessions| && sessions[i].isSsh ==> Writable(sessions[i])
    ensures Imported(Join(head + Blocks(sessions), "\n")) == AsDrafts(sessions)
  {
    var st := Import([], None);
    BlocksClean(sessions);
    CleanConcat(head, Blocks(sessions));
    BlocksAreRead(st, sessions);
    HeadIsIgnored(st, head, Blocks(sessions));
    assert st.Flush() + AsDrafts(sessions) == AsDrafts(sessions);
    LinesAreRead(head + Blocks(sessions), AsDrafts(sessions));
  }

  /** Importing an exported ssh_config restores every writable ssh session under its dash-joined name. */
  lemma SshConfigRoundTrips(sessions: seq<Saved>)
    requires forall i :: 0 <= i < |sessions| && sessions[i].isSsh ==> Writable(sessions[i])
    ensures Imported(Printed(sessions)) == AsDrafts(sessions)
  {
    HeadIsHead();
    PrintedLinesAreRead(HEAD, sessions);
  }
}
