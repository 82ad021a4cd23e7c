/**
 * Committing an import (electron/services/ImportExportService.ts, `commit` and `resolveGroupPath`):
 * folders become groups, sessions already present are skipped.
 */
module ImportCommit {
  import opened Basics
  import opened JsText

  // ---- groups ----

  datatype Group = Group(id: nat, name: string, parent: Option<nat>, sortOrder: int)

  /** The groups table in the order its rows were made, and the next AUTOINCREMENT id. */
  datatype Groups = Groups(rows: seq<Group>, nextId: nat)

  predicate IdsBelow(gs: Groups) {
    forall i :: 0 <= i < |gs.rows| ==> gs.rows[i].id < gs.nextId
  }

  /** Ids are a key of the table, and never reused. */
  predicate Keyed(gs: Groups) {
    IdsBelow(gs) && forall i, j :: 0 <= i < j < |gs.rows| ==> gs.rows[i].id != gs.rows[j].id
  }

  predicate Matches(g: Group, name: string, parent: Option<nat>) {
    g.name == name && g.parent == parent
  }

  /**
   * `groupsRepo.list().find(...)`: the row of the first child of `parent` called `name` in the listing, or
   * |rows|. The listing is by sort order and then name, so among children of one name the lowest sort order
   * comes first, and among those the oldest row.
   */
  function FindChild(rows: seq<Group>, name: string, parent: Option<nat>): (r: nat)
    ensures r <= |rows| && (r < |rows| ==> Matches(rows[r], name, parent))
    ensures r == |rows| <==> forall k :: 0 <= k < |rows| ==> !Matches(rows[k], name, parent)
    ensures r < |rows| ==> forall k :: 0 <= k < |rows| && k != r && Matches(rows[k], name, parent) ==>
      rows[r].sortOrder < rows[k].sortOrder || (rows[r].sortOrder == rows[k].sortOrder && r < k)
  {
    if rows == [] then 0
    else
      var last := |rows| - 1;
      var r := FindChild(rows[..last], name, parent);
      if !Matches(rows[last], name, parent) then if r == last then |rows| else r
      else if r == last || rows[last].sortOrder < rows[r].sortOrder then last
      else r
  }

  /** `path.split(/[/\\]/)`, each part trimmed, empty ones dropped. */
  function Components(path: string, cur: string): (r: seq<string>)
    ensures forall i :: 0 <= i < |r| ==> r[i] != "" && Trimmed(r[i])
    decreases |path|
  {
    var done := if Trim(cur) == "" then [] else [Trim(cur)];
    if path == [] then done
    else if path[0] == '/' || path[0] == '\\' then done + Components(path[1..], [])
    else Components(path[1..], cur + [path[0]])
  }

  predicate NoSlash(s: string) { '/' !in s && '\\' !in s }

  lemma {:induction false} ComponentsSplit(front: string, slash: char, rest: string, cur: string)
    requires NoSlash(front) && (slash == '/' || slash == '\\')
    ensures Components(front + [slash] + rest, cur) ==
      (if Trim(cur + front) == "" then [] else [Trim(cur + front)]) + Components(rest, [])
    decreases |front|
  {
    var path := front + [slash] + rest;
    if front == "" {
      assert path[1..] == rest && cur + front == cur;
    } else {
      assert path[1..] == front[1..] + [slash] + rest && front[0] in front;
      assert cur + [front[0]] + front[1..] == cur + front;
      ComponentsSplit(front[1..], slash, rest, cur + [front[0]]);
    }
  }

  lemma {:induction false} ComponentsOfLast(last: string, cur: string)
    requires NoSlash(last)
    ensures Components(last, cur) == if Trim(cur + last) == "" then [] else [Trim(cur + last)]
    decreases |last|
  {
    if last == "" {
      assert cur + last == cur;
    } else {
      assert cur + [last[0]] + last[1..] == cur + last && last[0] in last;
      ComponentsOfLast(last[1..], cur + [last[0]]);
    }
  }

  /** Folder names joined by slashes of either kind are the components of the path, also with blanks around them. */
  lemma {:induction false} PathIsItsFolders(names: seq<string>, slash: char)
    requires slash == '/' || slash == '\\'
    requires forall i :: 0 <= i < |names| ==> NoSlash(names[i]) && Trimmed(names[i]) && names[i] != ""
    ensures Components(Join(names, [slash]), []) == names
    decreases |names|
  {
    if |names| == 1 {
      ComponentsOfLast(names[0], []);
      TrimOfTrimmed(names[0]);
      assert [] + names[0] == names[0];
    } else if |names| > 1 {
      var rest := Join(names[1..], [slash]);
      assert Join(names, [slash]) == names[0] + [slash] + rest;
      ComponentsSplit(names[0], slash, rest, []);
      TrimOfTrimmed(names[0]);
      assert [] + names[0] == names[0];
      PathIsItsFolders(names[1..], slash);
    }
  }

  function Descend(gs: Groups, parent: Option<nat>, name: string): (Groups, Option<nat>) {
    var i := FindChild(gs.rows, name, parent);
    if i < |gs.rows| then (gs, Some(gs.rows[i].id))
    else (Groups(gs.rows + [Group(gs.nextId, name, parent, 0)], gs.nextId + 1), Some(gs.nextId))
  }

  function Walk(gs: Groups, parent: Option<nat>, names: seq<string>): (Groups, Option<nat>)
    decreases |names|
  {
    if names == [] then (gs, parent)
    else
      var (gs1, child) := Descend(gs, parent, names[0]);
      Walk(gs1, child, names[1..])
  }

  function Resolve(gs: Groups, path: string): (Groups, Option<nat>) {
    Walk(gs, None, Components(path, []))
  }

  class GroupsRepo {
    var groups: Groups

    constructor (groups: Groups)
      ensures this.groups == groups
    {
      this.groups := groups;
    }

    method Create(name: string, parent: Option<nat>) returns (id: nat)
      modifies this
      ensures groups == Groups(old(groups).rows + [Group(id, name, parent, 0)], old(groups).nextId + 1)
      ensures id == old(groups).nextId
    {
      id := groups.nextId;
      groups := Groups(groups.rows + [Group(id, name, parent, 0)], id + 1);
    }

    method ResolveGroupPath(path: string) returns (parentId: Option<nat>)
      modifies this
      ensures (groups, parentId) == Resolve(old(groups), path)
    {
      parentId := None;
      var names := Components(path, []);
      var i := 0;
      assert names[0..] == names;
      while i < |names|
        invariant i <= |names|
        invariant Walk(groups, parentId, names[i..]) == Walk(old(groups), None, names)
      {
        assert names[i..][1..] == names[i + 1..];
        var at := FindChild(groups.rows, names[i], parentId);
        if at < |groups.rows| {
          parentId := Some(groups.rows[at].id);
        } else {
          var id := Create(names[i], parentId);
          parentId := Some(id);
        }
        i := i + 1;
      }
    }
  }

  /** Following parents up from `id` spells `names` from the root. */
  ghost predicate Spells(rows: seq<Group>, id: Option<nat>, names: seq<string>)
    decreases |names|
  {
    if names == [] then id == None
    else id.Some? && exists i :: 0 <= i < |rows| && rows[i].id == id.value && rows[i].name == names[|names| - 1]
                                 && Spells(rows, rows[i].parent, names[..|names| - 1])
  }

  lemma {:induction false} SpellsInMore(rows: seq<Group>, more: seq<Group>, id: Option<nat>, names: seq<string>)
    requires Spells(rows, id, names) && rows <= more
    ensures Spells(more, id, names)
    decreases |names|
  {
    if names != [] {
      var i :| 0 <= i < |rows| && rows[i].id == id.value && rows[i].name == names[|names| - 1]
               && Spells(rows, rows[i].parent, names[..|names| - 1]);
      SpellsInMore(rows, more, rows[i].parent, names[..|names| - 1]);
      assert more[i] == rows[i];
    }
  }

  /** `more` is `rows` with groups added, none of them a second child of its parent by the same name. */
  ghost predicate Grown(rows: seq<Group>, more: seq<Group>) {
    && rows <= more
    && forall k, i :: |rows| <= k < |more| && 0 <= i < k ==> !Matches(more[i], more[k].name, more[k].parent)
  }

  lemma GrownTwice(a: seq<Group>, b: seq<Group>, c: seq<Group>)
    requires Grown(a, b) && Grown(b, c)
    ensures Grown(a, c)
  {
    assert forall k :: 0 <= k < |b| ==> c[k] == b[k];
  }

  lemma FindChildInMore(rows: seq<Group>, more: seq<Group>, name: string, parent: Option<nat>)
    requires Grown(rows, more) && FindChild(rows, name, parent) < |rows|
    ensures FindChild(more, name, parent) == FindChild(rows, name, parent)
  {
    var r := FindChild(rows, name, parent);
    assert forall k :: 0 <= k < |rows| ==> more[k] == rows[k];
    forall k | |rows| <= k < |more| ensures !Matches(more[k], name, parent) {
      assert !Matches(more[r], more[k].name, more[k].parent);
    }
  }

  lemma DescendKeeps(gs: Groups, parent: Option<nat>, name: string)
    requires Keyed(gs)
    ensures var (gs1, child) := Descend(gs, parent, name);
      && Keyed(gs1) && Grown(gs.rows, gs1.rows) && child.Some?
      && FindChild(gs1.rows, name, parent) < |gs1.rows|
      && gs1.rows[FindChild(gs1.rows, name, parent)].id == child.value
  {
    var (gs1, child) := Descend(gs, parent, name);
    if gs1 != gs {
      assert gs1.rows[|gs.rows|] == Group(gs.nextId, name, parent, 0);
      assert forall k :: 0 <= k < |gs.rows| ==> gs1.rows[k] == gs.rows[k];
    }
  }

  lemma DescendSpells(gs: Groups, parent: Option<nat>, above: seq<string>, name: string)
    requires Keyed(gs) && Spells(gs.rows, parent, above)
    ensures var (gs1, child) := Descend(gs, parent, name); Spells(gs1.rows, child, above + [name])
  {
    var (gs1, child) := Descend(gs, parent, name);
    DescendKeeps(gs, parent, name);
    SpellsInMore(gs.rows, gs1.rows, parent, above);
    var here := above + [name];
    assert here[..|here| - 1] == above && here[|here| - 1] == name;
    var i := FindChild(gs1.rows, name, parent);
    assert gs1.rows[i].id == child.value && gs1.rows[i].parent == parent;
  }

  lemma FirstMovesUp(above: seq<string>, names: seq<string>)
    requires names != []
    ensures above + [names[0]] + names[1..] == above + names
  {}

  /** Walking a path ends at the group the path spells. */
  lemma {:induction false} WalkSpells(gs: Groups, parent: Option<nat>, above: seq<string>, names: seq<string>)
    requires Keyed(gs) && Spells(gs.rows, parent, above)
    ensures Spells(Walk(gs, parent, names).0.rows, Walk(gs, parent, names).1, above + names)
    decreases |names|
  {
    if names == [] {
      assert above + names == above;
    } else {
      var (gs1, child) := Descend(gs, parent, names[0]);
      DescendKeeps(gs, parent, names[0]);
      DescendSpells(gs, parent, above, names[0]);
      WalkSpells(gs1, child, above + [names[0]], names[1..]);
      FirstMovesUp(above, names);
    }
  }

  /** In any table that grew from the result, the same walk finds everything and adds nothing. */
  lemma {:induction false} WalkAgain(gs: Groups, parent: Option<nat>, names: seq<string>, later: Groups)
    requires Keyed(gs) && Grown(Walk(gs, parent, names).0.rows, later.rows)
    ensures Walk(later, parent, names) == (later, Walk(gs, parent, names).1)
    decreases |names|
  {
    if names != [] {
      var (gs1, child) := Descend(gs, parent, names[0]);
      DescendKeeps(gs, parent, names[0]);
      WalkGrows(gs1, child, names[1..]);
      GrownTwice(gs1.rows, Walk(gs1, child, names[1..]).0.rows, later.rows);
      FindChildInMore(gs1.rows, later.rows, names[0], parent);
      WalkAgain(gs1, child, names[1..], later);
    }
  }

  lemma {:induction false} WalkGrows(gs: Groups, parent: Option<nat>, names: seq<string>)
    requires Keyed(gs)
    ensures Keyed(Walk(gs, parent, names).0) && Grown(gs.rows, Walk(gs, parent, names).0.rows)
    decreases |names|
  {
    if names != [] {
      DescendKeeps(gs, parent, names[0]);
      var (gs1, child) := Descend(gs, parent, names[0]);
      WalkGrows(gs1, child, names[1..]);
      GrownTwice(gs.rows, gs1.rows, Walk(gs1, child, names[1..]).0.rows);
    }
  }

  /** Groups made on the way down sort first. */
  lemma {:induction false} NewGroupsSortFirst(gs: Groups, parent: Option<nat>, names: seq<string>)
    ensures var rows := Walk(gs, parent, names).0.rows;
      gs.rows <= rows && forall k :: |gs.rows| <= k < |rows| ==> rows[k].sortOrder == 0
    decreases |names|
  {
    if names != [] {
      var (gs1, child) := Descend(gs, parent, names[0]);
      NewGroupsSortFirst(gs1, child, names[1..]);
    }
  }

  /**
   * A resolved path names the group it says, leaves every existing group as it was, and resolves to
   * the same group, creating nothing, in every table that grew from there by further imports.
   */
  lemma ResolvedPath(gs: Groups, path: string, later: Groups)
    requires Keyed(gs) && Grown(Resolve(gs, path).0.rows, later.rows)
    ensures var (gs', id) := Resolve(gs, path);
      && Keyed(gs') && Grown(gs.rows, gs'.rows)
      && Spells(gs'.rows, id, Components(path, []))
      && Resolve(later, path) == (later, id)
      && Resolve(gs', path) == (gs', id)
  {
    WalkSpells(gs, None, [], Components(path, []));
    WalkGrows(gs, None, Components(path, []));
    assert [] + Components(path, []) == Components(path, []);
    WalkAgain(gs, None, Components(path, []), later);
    WalkAgain(gs, None, Components(path, []), Resolve(gs, path).0);
  }

  // ---- sessions ----

  datatype Session = Session(name: string, protocol: string, host: Option<string>, username: Option<string>,
                             group: Option<nat>, sshKey: Option<nat>, notes: Option<string>)

  /** A parsed session waiting to be committed. */
  datatype Draft = Draft(session: Session, importKeyPath: Option<string>, importGroupPath: Option<string>)

  /** The import's notion of "the same session": null and empty count as equal. */
  predicate SameSession(e: Session, s: Session) {
    e.name == s.name && e.protocol == s.protocol && OrEmpty(e.host) == OrEmpty(s.host)
    && OrEmpty(e.username) == OrEmpty(s.username)
  }

  predicate Blank(s: Option<string>) { s == None || s == Some("") }

  /** Name, protocol, host and user decide, and nothing else. */
  lemma FourFieldsDecide(e: Session, s: Session)
    ensures SameSession(e, s) <==>
      && e.name == s.name && e.protocol == s.protocol
      && (e.host == s.host || (Blank(e.host) && Blank(s.host)))
      && (e.username == s.username || (Blank(e.username) && Blank(s.username)))
  {}

  predicate Known(existing: seq<Session>, s: Session) {
    exists i :: 0 <= i < |existing| && SameSession(existing[i], s)
  }

  /** `keyOf` stands for resolving a key file into the vault: its key id, or None when unreadable. */
  type KeyOf = string -> Option<nat>

  function WithKey(d: Draft, keyOf: KeyOf): Session {
    if !Truthy(d.importKeyPath) then d.session
    else
      var path := d.importKeyPath.value;
      if keyOf(path).Some? && keyOf(path).value != 0 then d.session.(sshKey := keyOf(path))
      else
        var note := "Requires key: " + path;
        d.session.(notes := Some(if Truthy(d.session.notes) then d.session.notes.value + "\n" + note else note))
  }

  /** `note` is the last line of the text, below the lines there were. */
  predicate NotedBelow(before: Option<string>, note: string, after: Option<string>) {
    after == Some(if Truthy(before) then before.value + "\n" + note else note)
  }

  /**
   * A key that came into the vault is attached, and the notes stay; without one the notes name the file that is
   * missing, and the key stays. Nothing else changes.
   */
  lemma KeyIsAttachedOrMissed(d: Draft, keyOf: KeyOf)
    ensures var s, path := WithKey(d, keyOf), OrEmpty(d.importKeyPath);
      && s.(sshKey := d.session.sshKey, notes := d.session.notes) == d.session
      && (path == "" ==> s == d.session)
      && (path != "" && keyOf(path).Some? && keyOf(path).value > 0 ==>
            s.sshKey == keyOf(path) && s.notes == d.session.notes)
      && (path != "" && (keyOf(path).None? || keyOf(path).value == 0) ==>
            s.sshKey == d.session.sshKey && NotedBelow(d.session.notes, "Requires key: " + path, s.notes))
  {}

  datatype Store = Store(sessions: seq<Session>, groups: Groups)

  /** One turn of the loop; `existing` is the list read once before it. */
  function CommitOne(existing: seq<Session>, st: Store, d: Draft, keyOf: KeyOf): (Store, nat) {
    var input := WithKey(d, keyOf);
    var (groups, group) :=
      if Truthy(d.importGroupPath) then Resolve(st.groups, d.importGroupPath.value) else (st.groups, input.group);
    if Known(existing, input) then (Store(st.sessions, groups), 0)
    else (Store(st.sessions + [input.(group := group)], groups), 1)
  }

  function CommitAll(existing: seq<Session>, st: Store, ds: seq<Draft>, keyOf: KeyOf): (Store, nat)
    decreases |ds|
  {
    if ds == [] then (st, 0)
    else
      var (st1, n1) := CommitOne(existing, st, ds[0], keyOf);
      var (st2, n2) := CommitAll(existing, st1, ds[1..], keyOf);
      (st2, n1 + n2)
  }

  function Committed(st: Store, ds: seq<Draft>, keyOf: KeyOf): (Store, nat) {
    CommitAll(st.sessions, st, ds, keyOf)
  }

  class Importer {
    const groups: GroupsRepo
    var sessions: seq<Session>

    constructor (groups: GroupsRepo, sessions: seq<Session>)
      ensures this.groups == groups && this.sessions == sessions
    {
      this.groups, this.sessions := groups, sessions;
    }

    function Contents(): Store
      reads this, groups
    {
      Store(sessions, groups.groups)
    }

    /** One turn of the loop; how many sessions it created. */
    method CommitDraft(existing: seq<Session>, d: Draft, keyOf: KeyOf) returns (created: nat)
      modifies this, groups
      ensures (Contents(), created) == CommitOne(existing, old(Contents()), d, keyOf)
    {
      created := 0;
      var input := WithKey(d, keyOf);
      if Truthy(d.importGroupPath) {
        var id := groups.ResolveGroupPath(d.importGroupPath.value);
        input := input.(group := id);
      }
      KnownAlike(existing, WithKey(d, keyOf), input);
      if !Known(existing, input) {
        sessions := sessions + [input];
        created := 1;
      }
    }

    method Commit(ds: seq<Draft>, keyOf: KeyOf) returns (n: nat)
      modifies this, groups
      ensures (Contents(), n) == Committed(old(Contents()), ds, keyOf)
    {
      n := 0;
      var existing := sessions;
      var todo := ds;
      while todo != []
        invariant var (st, m) := CommitAll(existing, Contents(), todo, keyOf);
          (st, n + m) == Committed(old(Contents()), ds, keyOf)
        decreases |todo|
      {
        var created := CommitDraft(existing, todo[0], keyOf);
        n := n + created;
        todo := todo[1..];
      }
    }
  }

  /** What one turn leaves behind for the next import. */
  lemma CommitOneKeeps(existing: seq<Session>, st: Store, d: Draft, keyOf: KeyOf)
    requires Keyed(st.groups) && existing <= st.sessions
    ensures var (st', n) := CommitOne(existing, st, d, keyOf);
            && Keyed(st'.groups) && Grown(st.groups.rows, st'.groups.rows)
            && st.sessions <= st'.sessions && |st'.sessions| == |st.sessions| + n
            && Known(st'.sessions, WithKey(d, keyOf))
  {
    var (st', n) := CommitOne(existing, st, d, keyOf);
    var input := WithKey(d, keyOf);
    if Truthy(d.importGroupPath) { WalkGrows(st.groups, None, Components(d.importGroupPath.value, [])); }
    if n == 1 {
      assert SameSession(st'.sessions[|st.sessions|], input);
    } else {
      var i :| 0 <= i < |existing| && SameSession(existing[i], input);
      assert st'.sessions[i] == existing[i];
    }
  }

  /** Everything the drafts ask for is in place: their sessions are known, their folders resolve. */
  ghost predicate Settled(st: Store, ds: seq<Draft>, keyOf: KeyOf) {
    forall i :: 0 <= i < |ds| ==>
      && Known(st.sessions, WithKey(ds[i], keyOf))
      && (Truthy(ds[i].importGroupPath) ==> Resolve(st.groups, ds[i].importGroupPath.value).0 == st.groups)
  }

  lemma KnownInMore(sessions: seq<Session>, more: seq<Session>, s: Session)
    requires sessions <= more && Known(sessions, s)
    ensures Known(more, s)
  {
    var i :| 0 <= i < |sessions| && SameSession(sessions[i], s);
    assert more[i] == sessions[i];
  }

  lemma {:induction false} CommitSettles(existing: seq<Session>, st: Store, ds: seq<Draft>, keyOf: KeyOf)
    requires Keyed(st.groups) && existing <= st.sessions
    ensures var (st', n) := CommitAll(existing, st, ds, keyOf);
            && Keyed(st'.groups) && Grown(st.groups.rows, st'.groups.rows)
            && st.sessions <= st'.sessions && |st'.sessions| == |st.sessions| + n
            && Settled(st', ds, keyOf)
    decreases |ds|
  {
    if ds != [] {
      CommitOneKeeps(existing, st, ds[0], keyOf);
      var st1 := CommitOne(existing, st, ds[0], keyOf).0;
      CommitSettles(existing, st1, ds[1..], keyOf);
      var st2 := CommitAll(existing, st1, ds[1..], keyOf).0;
      GrownTwice(st.groups.rows, st1.groups.rows, st2.groups.rows);
      KnownInMore(st1.sessions, st2.sessions, WithKey(ds[0], keyOf));
      if Truthy(ds[0].importGroupPath) {
        WalkAgain(st.groups, None, Components(ds[0].importGroupPath.value, []), st2.groups);
      }
      forall i | 1 <= i < |ds|
        ensures Known(st2.sessions, WithKey(ds[i], keyOf))
        ensures Truthy(ds[i].importGroupPath) ==> Resolve(st2.groups, ds[i].importGroupPath.value).0 == st2.groups
      {
        assert ds[i] == ds[1..][i - 1];
      }
    }
  }

  lemma KnownAlike(existing: seq<Session>, s: Session, t: Session)
    requires SameSession(s, t)
    ensures Known(existing, s) <==> Known(existing, t)
  {
    if Known(existing, s) {
      var i :| 0 <= i < |existing| && SameSession(existing[i], s);
      assert SameSession(existing[i], t);
    }
    if Known(existing, t) {
      var i :| 0 <= i < |existing| && SameSession(existing[i], t);
      assert SameSession(existing[i], s);
    }
  }

  /** The keys a path resolves to make no difference to whether a session is known. */
  lemma KeysDoNotMatter(existing: seq<Session>, d: Draft, before: KeyOf, after: KeyOf)
    requires Known(existing, WithKey(d, before))
    ensures Known(existing, WithKey(d, after))
  {
    KnownAlike(existing, WithKey(d, before), WithKey(d, after));
  }

  lemma {:induction false} SettledIsLeftAlone(st: Store, ds: seq<Draft>, before: KeyOf, after: KeyOf)
    requires Settled(st, ds, before)
    ensures CommitAll(st.sessions, st, ds, after) == (st, 0)
    decreases |ds|
  {
    if ds != [] {
      KeysDoNotMatter(st.sessions, ds[0], before, after);
      assert CommitOne(st.sessions, st, ds[0], after) == (st, 0);
      forall i | 0 <= i < |ds[1..]|
        ensures Known(st.sessions, WithKey(ds[1..][i], before))
        ensures Truthy(ds[1..][i].importGroupPath) ==>
          Resolve(st.groups, ds[1..][i].importGroupPath.value).0 == st.groups
      {
        assert ds[1..][i] == ds[i + 1];
      }
      SettledIsLeftAlone(st, ds[1..], before, after);
    }
  }

  /**
   * Importing the same list twice: the second time creates no session and no group and returns 0, whatever keys its
   * paths resolve to by then.
   */
  lemma CommitIsIdempotent(st: Store, ds: seq<Draft>, keyOf: KeyOf, keyOfLater: KeyOf)
    requires Keyed(st.groups)
    ensures var (st', n) := Committed(st, ds, keyOf);
            && st.sessions <= st'.sessions && |st'.sessions| == |st.sessions| + n
            && Committed(st', ds, keyOfLater) == (st', 0)
  {
    CommitSettles(st.sessions, st, ds, keyOf);
    SettledIsLeftAlone(Committed(st, ds, keyOf).0, ds, keyOf, keyOfLater);
  }

  // ---- twins ----

  /** The import does not know this draft yet. */
  predicate IsNew(existing: seq<Session>, d: Draft, keyOf: KeyOf) { !Known(existing, WithKey(d, keyOf)) }

  predicate Increasing(at: seq<nat>) { forall k, l :: 0 <= k < l < |at| ==> at[k] < at[l] }

  predicate AllFrom(at: seq<nat>, from: nat) { forall k :: 0 <= k < |at| ==> from <= at[k] }

  /** Which drafts of the list are new, by position. */
  function Unknown(existing: seq<Session>, ds: seq<Draft>, keyOf: KeyOf, from: nat): (r: seq<nat>)
    requires from <= |ds|
    ensures Increasing(r) && AllFrom(r, from)
    ensures forall i :: i in r <==> from <= i < |ds| && IsNew(existing, ds[i], keyOf)
    decreases |ds| - from
  {
    if from == |ds| then []
    else
      var rest := Unknown(existing, ds, keyOf, from + 1);
      if IsNew(existing, ds[from], keyOf) then [from] + rest else rest
  }

  /** `s` is the draft's session, put into some group. */
  predicate MadeFrom(s: Session, d: Draft, keyOf: KeyOf) {
    s == WithKey(d, keyOf).(group := s.group)
  }

  /** Made from the drafts at these positions, one each, in this order. */
  predicate AllMadeFrom(made: seq<Session>, at: seq<nat>, ds: seq<Draft>, keyOf: KeyOf) {
    && |made| == |at|
    && forall k :: 0 <= k < |at| ==> at[k] < |ds| && MadeFrom(made[k], ds[at[k]], keyOf)
  }

  /** It lies in the group its path spells, or without a path in the one its draft names. */
  ghost predicate Placed(s: Session, d: Draft, rows: seq<Group>) {
    if Truthy(d.importGroupPath) then Spells(rows, s.group, Components(d.importGroupPath.value, []))
    else s.group == d.session.group
  }

  ghost predicate AllPlaced(made: seq<Session>, at: seq<nat>, ds: seq<Draft>, rows: seq<Group>) {
    && |made| == |at|
    && forall k :: 0 <= k < |at| ==> at[k] < |ds| && Placed(made[k], ds[at[k]], rows)
  }

  lemma OneIsPlaced(existing: seq<Session>, st: Store, d: Draft, keyOf: KeyOf)
    requires Keyed(st.groups) && IsNew(existing, d, keyOf)
    ensures var st' := CommitOne(existing, st, d, keyOf).0;
      && |st'.sessions| == |st.sessions| + 1 && Placed(st'.sessions[|st.sessions|], d, st'.groups.rows)
  {
    if Truthy(d.importGroupPath) { ResolvedPathSpells(st.groups, d.importGroupPath.value); }
  }

  lemma ResolvedPathSpells(gs: Groups, path: string)
    requires Keyed(gs)
    ensures Spells(Resolve(gs, path).0.rows, Resolve(gs, path).1, Components(path, []))
  {
    WalkSpells(gs, None, [], Components(path, []));
    assert [] + Components(path, []) == Components(path, []);
  }

  lemma PlacedInMore(s: Session, d: Draft, rows: seq<Group>, more: seq<Group>)
    requires Placed(s, d, rows) && rows <= more
    ensures Placed(s, d, more)
  {
    if Truthy(d.importGroupPath) { SpellsInMore(rows, more, s.group, Components(d.importGroupPath.value, [])); }
  }

  lemma OneMorePlaced(s: Session, i: nat, made: seq<Session>, at: seq<nat>, ds: seq<Draft>, rows: seq<Group>)
    requires i < |ds| && Placed(s, ds[i], rows) && AllPlaced(made, at, ds, rows)
    ensures AllPlaced([s] + made, [i] + at, ds, rows)
  {}

  lemma OneMore(s: Session, i: nat, made: seq<Session>, at: seq<nat>, ds: seq<Draft>, keyOf: KeyOf)
    requires i < |ds| && MadeFrom(s, ds[i], keyOf) && AllMadeFrom(made, at, ds, keyOf)
    ensures AllMadeFrom([s] + made, [i] + at, ds, keyOf)
  {}

  lemma CommitOneCreates(existing: seq<Session>, st: Store, d: Draft, keyOf: KeyOf) returns (made: seq<Session>)
    ensures CommitOne(existing, st, d, keyOf).0.sessions == st.sessions + made
    ensures if IsNew(existing, d, keyOf) then |made| == 1 && MadeFrom(made[0], d, keyOf) else made == []
  {
    var sessions := CommitOne(existing, st, d, keyOf).0.sessions;
    made := if IsNew(existing, d, keyOf) then [sessions[|st.sessions|]] else [];
  }

  lemma CommitFirst(existing: seq<Session>, st: Store, ds: seq<Draft>, from: nat, keyOf: KeyOf)
    requires from < |ds|
    ensures CommitAll(existing, st, ds[from..], keyOf).0 ==
      CommitAll(existing, CommitOne(existing, st, ds[from], keyOf).0, ds[from + 1..], keyOf).0
  {
    assert ds[from..][0] == ds[from] && ds[from..][1..] == ds[from + 1..];
  }

  lemma MadeConcat(a: seq<Session>, b: seq<Session>, c: seq<Session>)
    ensures a + b + c == a + (b + c)
  {}

  lemma FirstMade(first: seq<Session>, rest: seq<Session>, existing: seq<Session>, ds: seq<Draft>, keyOf: KeyOf,
    from: nat)
    requires from < |ds| && AllMadeFrom(rest, Unknown(existing, ds, keyOf, from + 1), ds, keyOf)
    requires if IsNew(existing, ds[from], keyOf) then |first| == 1 && MadeFrom(first[0], ds[from], keyOf)
      else first == []
    ensures AllMadeFrom(first + rest, Unknown(existing, ds, keyOf, from), ds, keyOf)
  {
    var at := Unknown(existing, ds, keyOf, from + 1);
    if first != [] {
      OneMore(first[0], from, rest, at, ds, keyOf);
      assert first == [first[0]];
    } else {
      assert [] + rest == rest && [] + at == at;
    }
  }

  /** Created are exactly the drafts not known at the start, in order; what the batch itself creates plays no part. */
  lemma {:induction false} CreatesTheUnknown(existing: seq<Session>, st: Store, ds: seq<Draft>, keyOf: KeyOf, from: nat)
    returns (made: seq<Session>)
    requires from <= |ds|
    ensures CommitAll(existing, st, ds[from..], keyOf).0.sessions == st.sessions + made
    ensures AllMadeFrom(made, Unknown(existing, ds, keyOf, from), ds, keyOf)
    decreases |ds| - from
  {
    if from == |ds| {
      made := [];
    } else {
      var first := CommitOneCreates(existing, st, ds[from], keyOf);
      var rest := CreatesTheUnknown(existing, CommitOne(existing, st, ds[from], keyOf).0, ds, keyOf, from + 1);
      made := first + rest;
      CommitFirst(existing, st, ds, from, keyOf);
      MadeConcat(st.sessions, first, rest);
      FirstMade(first, rest, existing, ds, keyOf, from);
    }
  }

  /** What was created, in the groups of the table as it is in the end. */
  lemma {:induction false} CreatedFromArePlaced(existing: seq<Session>, st: Store, ds: seq<Draft>, keyOf: KeyOf,
    from: nat)
    requires from <= |ds| && Keyed(st.groups) && existing <= st.sessions
    ensures var st' := CommitAll(existing, st, ds[from..], keyOf).0;
      && st.sessions <= st'.sessions && st.groups.rows <= st'.groups.rows
      && AllPlaced(st'.sessions[|st.sessions|..], Unknown(existing, ds, keyOf, from), ds, st'.groups.rows)
    decreases |ds| - from
  {
    if from < |ds| {
      var st1 := CommitOne(existing, st, ds[from], keyOf).0;
      CommitOneKeeps(existing, st, ds[from], keyOf);
      CreatedFromArePlaced(existing, st1, ds, keyOf, from + 1);
      CommitFirst(existing, st, ds, from, keyOf);
      FirstPlaced(existing, st, ds, keyOf, from, CommitAll(existing, st, ds[from..], keyOf).0);
    }
  }

  lemma FromHere(some: seq<Session>, all: seq<Session>, n: nat)
    requires n < |some| && some <= all
    ensures all[n..] == [some[n]] + all[n + 1..]
  {}

  lemma FirstPlaced(existing: seq<Session>, st: Store, ds: seq<Draft>, keyOf: KeyOf, from: nat, st': Store)
    requires from < |ds| && Keyed(st.groups)
    requires var st1 := CommitOne(existing, st, ds[from], keyOf).0;
      && st1.sessions <= st'.sessions && st1.groups.rows <= st'.groups.rows
      && AllPlaced(st'.sessions[|st1.sessions|..], Unknown(existing, ds, keyOf, from + 1), ds, st'.groups.rows)
    ensures st.sessions <= st'.sessions
      && AllPlaced(st'.sessions[|st.sessions|..], Unknown(existing, ds, keyOf, from), ds, st'.groups.rows)
  {
    var st1, n := CommitOne(existing, st, ds[from], keyOf).0, |st.sessions|;
    if IsNew(existing, ds[from], keyOf) {
      OneIsPlaced(existing, st, ds[from], keyOf);
      PlacedInMore(st1.sessions[n], ds[from], st1.groups.rows, st'.groups.rows);
      FromHere(st1.sessions, st'.sessions, n);
      OneMorePlaced(st1.sessions[n], from, st'.sessions[n + 1..], Unknown(existing, ds, keyOf, from + 1), ds,
        st'.groups.rows);
    }
  }

  /** Every session a commit creates lies in the group its draft asked for. */
  lemma CreatedLieInTheirGroups(st: Store, ds: seq<Draft>, keyOf: KeyOf)
    requires Keyed(st.groups)
    ensures var st' := Committed(st, ds, keyOf).0;
      && st.sessions <= st'.sessions
      && AllPlaced(st'.sessions[|st.sessions|..], Unknown(st.sessions, ds, keyOf, 0), ds, st'.groups.rows)
  {
    assert ds[0..] == ds;
    CreatedFromArePlaced(st.sessions, st, ds, keyOf, 0);
  }

  /** Two sessions an import would take for one. */
  predicate HaveTwins(sessions: seq<Session>) {
    exists a, b :: 0 <= a < b < |sessions| && SameSession(sessions[a], sessions[b])
  }

  /** Two drafts that are one session, which the import does not know yet. */
  predicate TwinDrafts(existing: seq<Session>, ds: seq<Draft>, keyOf: KeyOf) {
    exists i, j :: 0 <= i < j < |ds| && SameSession(WithKey(ds[i], keyOf), WithKey(ds[j], keyOf))
      && IsNew(existing, ds[i], keyOf)
  }

  lemma MadeAlike(s: Session, t: Session, d: Draft, e: Draft, keyOf: KeyOf)
    requires MadeFrom(s, d, keyOf) && MadeFrom(t, e, keyOf)
    ensures SameSession(s, t) <==> SameSession(WithKey(d, keyOf), WithKey(e, keyOf))
  {}

  /**
   * For every store and every list: a commit creates two sessions alike exactly when two drafts of the list are
   * alike and not known when it starts. The list of known sessions is read once, before the loop.
   */
  lemma TwinsAreCreatedIffDrafted(st: Store, ds: seq<Draft>, keyOf: KeyOf)
    ensures var st' := Committed(st, ds, keyOf).0;
      && st.sessions <= st'.sessions
      && (HaveTwins(st'.sessions[|st.sessions|..]) <==> TwinDrafts(st.sessions, ds, keyOf))
  {
    var unknown := Unknown(st.sessions, ds, keyOf, 0);
    var st' := Committed(st, ds, keyOf).0;
    assert ds[0..] == ds;
    var made := CreatesTheUnknown(st.sessions, st, ds, keyOf, 0);
    assert st'.sessions[|st.sessions|..] == made;
    if HaveTwins(made) { TwinsComeOfTwinDrafts(st.sessions, ds, keyOf, unknown, made); }
    if TwinDrafts(st.sessions, ds, keyOf) { TwinDraftsMakeTwins(st.sessions, ds, keyOf, unknown, made); }
  }

  lemma TwinsComeOfTwinDrafts(existing: seq<Session>, ds: seq<Draft>, keyOf: KeyOf, unknown: seq<nat>,
    made: seq<Session>)
    requires HaveTwins(made) && unknown == Unknown(existing, ds, keyOf, 0) && AllMadeFrom(made, unknown, ds, keyOf)
    ensures TwinDrafts(existing, ds, keyOf)
  {
    var a, b :| 0 <= a < b < |made| && SameSession(made[a], made[b]);
    var i, j := unknown[a], unknown[b];
    assert i in unknown && j in unknown;
    MadeAlike(made[a], made[b], ds[i], ds[j], keyOf);
  }

  lemma PlacesOf(at: seq<nat>, i: nat, j: nat) returns (a: nat, b: nat)
    requires Increasing(at) && i in at && j in at && i < j
    ensures a < b < |at| && at[a] == i && at[b] == j
  {
    a :| a < |at| && at[a] == i;
    b :| b < |at| && at[b] == j;
  }

  lemma TwinDraftsMakeTwins(existing: seq<Session>, ds: seq<Draft>, keyOf: KeyOf, unknown: seq<nat>, made: seq<Session>)
    requires TwinDrafts(existing, ds, keyOf) && unknown == Unknown(existing, ds, keyOf, 0)
    requires AllMadeFrom(made, unknown, ds, keyOf)
    ensures HaveTwins(made)
  {
    var i: nat, j: nat :| i < j < |ds| && SameSession(WithKey(ds[i], keyOf), WithKey(ds[j], keyOf))
      && IsNew(existing, ds[i], keyOf);
    KnownAlike(existing, WithKey(ds[i], keyOf), WithKey(ds[j], keyOf));
    var a, b := PlacesOf(unknown, i, j);
    MadeAlike(made[a], made[b], ds[i], ds[j], keyOf);
  }

  /** The smallest case: the same new draft twice gives two sessions. */
  lemma DuplicatesInOneBatchAreBothCreated(d: Draft, keyOf: KeyOf)
    ensures Committed(Store([], Groups([], 1)), [d, d], keyOf).1 == 2
  {
    var st := Store([], Groups([], 1));
    assert [d, d][1..] == [d] && [d][1..] == [];
    var st1 := CommitOne([], st, d, keyOf).0;
    assert CommitAll([], st1, [d], keyOf).1 == 1;
  }
}
