/**
 * The two ssh_config readers: the one that imports (electron/services/ImportExportService.ts, `fromSshConfig`) and
 * the renderer's preview of it (src/utils/parseSshConfig.ts).
 */
module SshConfig {
  import opened Basics
  import opened JsText

  datatype Auth = Agent | KeyFile

  /** What the importer collects for one Host block. `port` is None for NaN. */
  datatype Draft = Draft(name: string, host: string, port: Option<int>, username: Option<string>, auth: Auth,
                         importKeyPath: Option<string>, notes: Option<string>)

  /** What the preview shows of it. */
  datatype Preview = Preview(name: string, host: string, port: Option<int>, username: Option<string>, auth: Auth)

  /** Words of a line; `cur` is the word so far. On a trimmed line this is `split(/\s+/)`. */
  function Words(s: string, cur: string): seq<string>
    decreases |s|
  {
    if s == [] then (if cur == [] then [] else [cur])
    else if IsSpace(s[0]) then (if cur == [] then [] else [cur]) + Words(s[1..], [])
    else Words(s[1..], cur + [s[0]])
  }

  /** A blank line or a comment. */
  predicate Skipped(line: string) { line == "" || line[0] == '#' }

  function Keyword(line: string): string {
    var w := Words(line, []);
    if w == [] then "" else Lower(w[0])
  }

  function Value(line: string): string {
    var w := Words(line, []);
    if w == [] then "" else Join(w[1..], " ")
  }

  // ---- the importer ----

  datatype Import = Import(sessions: seq<Draft>, current: Option<Draft>) {
    function Flush(): seq<Draft> { if current.Some? then sessions + [current.value] else sessions }
  }

  function ImportField(d: Draft, kw: string, value: string): Draft {
    if kw == "hostname" then d.(host := value)
    else if kw == "port" then d.(port := ParseInt(value))
    else if kw == "user" then d.(username := Some(value))
    else if kw == "identityfile" then d.(auth := KeyFile, importKeyPath := Some(value))
    else if kw == "proxyjump" then
      d.(notes := Some(Trim((if d.notes.Some? then d.notes.value else "") + "\nProxyJump " + value)))
    else d
  }

  function ImportLine(st: Import, raw: string): Import {
    var line := Trim(raw);
    if Skipped(line) then st
    else
      var kw, value := Keyword(line), Value(line);
      if kw == "host" then
        Import(st.Flush(),
               if '*' in value then None else Some(Draft(value, value, Some(22), None, Agent, None, None)))
      else if st.current.Some? then st.(current := Some(ImportField(st.current.value, kw, value)))
      else st
  }

  function ImportLines(st: Import, lines: seq<string>): Import
    decreases |lines|
  {
    if lines == [] then st else ImportLines(ImportLine(st, lines[0]), lines[1..])
  }

  function Imported(text: string): seq<Draft> {
    ImportLines(Import([], None), SplitLines(text)).Flush()
  }

  lemma {:induction false} ImportLinesConcat(st: Import, a: seq<string>, b: seq<string>)
    ensures ImportLines(st, a + b) == ImportLines(ImportLines(st, a), b)
    decreases |a|
  {
    if a == [] {
      assert a + b == b;
    } else {
      assert (a + b)[1..] == a[1..] + b;
      ImportLinesConcat(ImportLine(st, a[0]), a[1..], b);
    }
  }

  method FromSshConfig(text: string) returns (sessions: seq<Draft>)
    ensures sessions == Imported(text)
  {
    var lines := SplitLines(text);
    sessions := [];
    var current: Option<Draft> := None;
    var i := 0;
    assert lines[0..] == lines;
    while i < |lines|
      invariant i <= |lines|
      invariant ImportLines(Import(sessions, current), lines[i..]) == ImportLines(Import([], None), lines)
    {
      var line := Trim(lines[i]);
      assert lines[i..][1..] == lines[i + 1..];
      i := i + 1;
      if Skipped(line) { continue; }
      var kw, value := Keyword(line), Value(line);
      if kw == "host" {
        if current.Some? { sessions := sessions + [current.value]; }
        if '*' in value {
          current := None;
          continue;
        }
        current := Some(Draft(value, value, Some(22), None, Agent, None, None));
      } else if current.Some? {
        current := Some(ImportField(current.value, kw, value));
      }
    }
    if current.Some? { sessions := sessions + [current.value]; }
  }

  // ---- the preview ----

  datatype Listing = Listing(sessions: seq<Preview>, current: Option<Preview>) {
    function Flush(): seq<Preview> { if current.Some? then sessions + [current.value] else sessions }
  }

  function PreviewField(p: Preview, kw: string, value: string): Preview {
    if kw == "hostname" then p.(host := value)
    else if kw == "port" then p.(port := ParseInt(value))
    else if kw == "user" then p.(username := Some(value))
    else if kw == "identityfile" then p.(auth := KeyFile)
    else p
  }

  function PreviewLine(st: Listing, raw: string): Listing {
    var line := Trim(raw);
    if Skipped(line) then st
    else
      var key, value := Keyword(line), Value(line);
      if key == "host" then
        Listing(st.Flush(), if '*' in value then None else Some(Preview(value, value, Some(22), None, Agent)))
      else if st.current.Some? then st.(current := Some(PreviewField(st.current.value, key, value)))
      else st
  }

  function PreviewLines(st: Listing, lines: seq<string>): Listing
    decreases |lines|
  {
    if lines == [] then st else PreviewLines(PreviewLine(st, lines[0]), lines[1..])
  }

  function Previewed(text: string): seq<Preview> {
    PreviewLines(Listing([], None), SplitLines(text)).Flush()
  }

  method ParseSshConfig(text: string) returns (sessions: seq<Preview>)
    ensures sessions == Previewed(text)
  {
    var lines := SplitLines(text);
    sessions := [];
    var current: Option<Preview> := None;
    var i := 0;
    assert lines[0..] == lines;
    while i < |lines|
      invariant i <= |lines|
      invariant PreviewLines(Listing(sessions, current), lines[i..]) == PreviewLines(Listing([], None), lines)
    {
      var line := Trim(lines[i]);
      assert lines[i..][1..] == lines[i + 1..];
      i := i + 1;
      if Skipped(line) { continue; }
      var key, value := Keyword(line), Value(line);
      if key == "host" {
        if current.Some? { sessions := sessions + [current.value]; }
        current := if '*' in value then None else Some(Preview(value, value, Some(22), None, Agent));
      } else if current.Some? {
        current := Some(PreviewField(current.value, key, value));
      }
    }
    if current.Some? { sessions := sessions + [current.value]; }
  }

  // ---- the two agree ----

  function Shown(d: Draft): Preview { Preview(d.name, d.host, d.port, d.username, d.auth) }

  function ShownAll(ds: seq<Draft>): (r: seq<Preview>)
    ensures |r| == |ds| && forall i :: 0 <= i < |r| ==> r[i] == Shown(ds[i])
  {
    seq(|ds|, i requires 0 <= i < |ds| => Shown(ds[i]))
  }

  function ShownState(st: Import): Listing {
    Listing(ShownAll(st.sessions), if st.current.Some? then Some(Shown(st.current.value)) else None)
  }

  lemma FlushShown(st: Import)
    ensures ShownState(st).Flush() == ShownAll(st.Flush())
  {}

  lemma LineAgrees(st: Import, raw: string)
    ensures PreviewLine(ShownState(st), raw) == ShownState(ImportLine(st, raw))
  {
    FlushShown(st);
  }

  lemma {:induction false} LinesAgree(st: Import, lines: seq<string>)
    ensures PreviewLines(ShownState(st), lines) == ShownState(ImportLines(st, lines))
    decreases |lines|
  {
    if lines != [] {
      LineAgrees(st, lines[0]);
      LinesAgree(ImportLine(st, lines[0]), lines[1..]);
    }
  }

  /** On every text the preview lists exactly the sessions the import will create. */
  lemma PreviewMatchesImport(text: string)
    ensures Previewed(text) == ShownAll(Imported(text))
  {
    var start := Import([], None);
    assert ShownState(start) == Listing([], None);
    LinesAgree(start, SplitLines(text));
    FlushShown(ImportLines(start, SplitLines(text)));
  }
}
