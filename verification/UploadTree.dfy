/**
 * The plan of a folder upload (electron/services/SftpService.ts, the `walk` closure of `uploadDir`): one list of
 * directories to make, parents first, and one list of files to copy. The names come from a listing of the local
 * disk, so each is a single component of a path and joining appends it.
 */
module UploadTree {
  import opened Basics

  type Path = seq<string>

  datatype Tree = File | Dir(entries: seq<Entry>)

  datatype Entry = Entry(name: string, node: Tree)

  /** A directory holds each name once. */
  ghost predicate ProperDir(entries: seq<Entry>)
    decreases entries
  {
    && (forall i, j :: 0 <= i < j < |entries| ==> entries[i].name != entries[j].name)
    && (forall i :: 0 <= i < |entries| ==> entries[i].node.Dir? ==> ProperDir(entries[i].node.entries))
  }

  /** `p` (not empty) leads into this entry, to a directory or to a file. */
  predicate LeadsTo(e: Entry, p: Path, dir: bool)
    requires p != []
    decreases e
  {
    e.name == p[0] &&
    match e.node
    case File => !dir && |p| == 1
    case Dir(below) => Has(below, p[1..], dir)
  }

  /** There is a directory, or a file, at this path below the folder. */
  predicate Has(entries: seq<Entry>, p: Path, dir: bool)
    decreases entries
  {
    if p == [] then dir
    else entries != [] && (LeadsTo(entries[0], p, dir) || Has(entries[1..], p, dir))
  }

  datatype Plan = Plan(dirs: seq<Path>, files: seq<(Path, Path)>) {
    function Then(more: Plan): Plan {
      Plan(dirs + more.dirs, files + more.files)
    }
  }

  /** The rest of a folder: `src` is where it lies, `dst` where it goes. */
  function Entries(entries: seq<Entry>, src: Path, dst: Path): Plan
    decreases entries, 0
  {
    if entries == [] then Plan([], [])
    else
      var e, rest := entries[0], Entries(entries[1..], src, dst);
      match e.node
      case File => Plan(rest.dirs, [(src + [e.name], dst + [e.name])] + rest.files)
      case Dir(below) =>
        var inner := Entries(below, src + [e.name], dst + [e.name]);
        Plan([dst + [e.name]] + inner.dirs + rest.dirs, inner.files + rest.files)
  }

  function Walked(entries: seq<Entry>, src: Path, dst: Path): Plan {
    Plan([dst], []).Then(Entries(entries, src, dst))
  }

  /** One entry: a file, or a folder walked in turn. */
  function One(e: Entry, src: Path, dst: Path): Plan {
    match e.node
    case File => Plan([], [(src + [e.name], dst + [e.name])])
    case Dir(below) => Walked(below, src + [e.name], dst + [e.name])
  }

  lemma ThenAssociates(a: Plan, b: Plan, c: Plan)
    ensures a.Then(b).Then(c) == a.Then(b.Then(c))
  {}

  lemma EntriesOneByOne(e: Entry, rest: seq<Entry>, src: Path, dst: Path)
    ensures Entries([e] + rest, src, dst) == One(e, src, dst).Then(Entries(rest, src, dst))
  {
    assert ([e] + rest)[1..] == rest;
  }

  lemma NextEntry(done: Plan, entries: seq<Entry>, i: nat, src: Path, dst: Path)
    requires i < |entries|
    ensures done.Then(Entries(entries[i..], src, dst)) ==
      done.Then(One(entries[i], src, dst)).Then(Entries(entries[i + 1..], src, dst))
  {
    assert entries[i..] == [entries[i]] + entries[i + 1..];
    EntriesOneByOne(entries[i], entries[i + 1..], src, dst);
    ThenAssociates(done, One(entries[i], src, dst), Entries(entries[i + 1..], src, dst));
  }

  class Planner {
    var dirs: seq<Path>
    var files: seq<(Path, Path)>

    constructor ()
      ensures dirs == [] && files == []
    {
      dirs, files := [], [];
    }

    method Walk(entries: seq<Entry>, src: Path, dst: Path)
      modifies this
      ensures Plan(dirs, files) == old(Plan(dirs, files)).Then(Walked(entries, src, dst))
      decreases entries
    {
      ghost var before := Plan(dirs, files);
      dirs := dirs + [dst];
      ghost var start := Plan(dirs, files);
      ThenAssociates(before, Plan([dst], []), Entries(entries, src, dst));
      assert entries[0..] == entries;
      var i := 0;
      while i < |entries|
        invariant i <= |entries|
        invariant Plan(dirs, files).Then(Entries(entries[i..], src, dst)) == start.Then(Entries(entries, src, dst))
        decreases |entries| - i
      {
        var e := entries[i];
        NextEntry(Plan(dirs, files), entries, i, src, dst);
        match e.node {
          case Dir(below) => Walk(below, src + [e.name], dst + [e.name]);
          case File => files := files + [(src + [e.name], dst + [e.name])];
        }
        i := i + 1;
      }
      assert Plan(dirs, files).Then(Entries([], src, dst)) == Plan(dirs, files);
    }
  }

  // ---- completeness and exactness ----

  /** `q` is `base` followed by a proper path. */
  predicate Below(base: Path, q: Path) { |base| < |q| && q[..|base|] == base }

  function Tail(base: Path, q: Path): Path
    requires Below(base, q)
  {
    q[|base|..]
  }

  lemma BelowStep(base: Path, name: string, q: Path)
    ensures Below(base + [name], q) ==>
      Below(base, q) && Tail(base, q)[0] == name && Tail(base, q)[1..] == Tail(base + [name], q)
    ensures Below(base, q) && Tail(base, q)[0] == name ==> q == base + [name] || Below(base + [name], q)
    ensures q == base + [name] ==> Below(base, q) && Tail(base, q) == [name] && Tail(base, q)[1..] == []
  {
    if Below(base + [name], q) {
      assert q[..|base| + 1][..|base|] == q[..|base|];
      assert (base + [name])[..|base|] == base;
    }
    if Below(base, q) && Tail(base, q)[0] == name && |q| > |base| + 1 {
      assert q[..|base| + 1] == q[..|base|] + [q[|base|]];
    }
    if Below(base, q) && |q| == |base| + 1 { assert q == q[..|base|] + [q[|base|]]; }
  }

  /** The directories listed are exactly the directories of the tree, under their new names. */
  lemma {:induction false} DirsAreExact(entries: seq<Entry>, src: Path, dst: Path, q: Path)
    ensures q in Entries(entries, src, dst).dirs <==> Below(dst, q) && Has(entries, Tail(dst, q), true)
    decreases entries
  {
    if entries != [] {
      var e := entries[0];
      DirsAreExact(entries[1..], src, dst, q);
      BelowStep(dst, e.name, q);
      match e.node
      case File =>
      case Dir(below) =>
        DirsAreExact(below, src + [e.name], dst + [e.name], q);
        if Below(dst, q) {
          assert LeadsTo(e, Tail(dst, q), true) <==>
            q == dst + [e.name] || q in Entries(below, src + [e.name], dst + [e.name]).dirs;
        }
    }
  }

  /** A file is listed exactly when the tree has it, and it goes to the same place under the new root. */
  lemma {:induction false} FilesAreExact(entries: seq<Entry>, src: Path, dst: Path, f: (Path, Path))
    ensures f in Entries(entries, src, dst).files <==>
            Below(src, f.0) && Below(dst, f.1) && Tail(src, f.0) == Tail(dst, f.1)
              && Has(entries, Tail(dst, f.1), false)
    decreases entries
  {
    if entries != [] {
      var e := entries[0];
      FilesAreExact(entries[1..], src, dst, f);
      BelowStep(dst, e.name, f.1);
      BelowStep(src, e.name, f.0);
      match e.node
      case File =>
      case Dir(below) =>
        FilesAreExact(below, src + [e.name], dst + [e.name], f);
        var inner := Entries(below, src + [e.name], dst + [e.name]).files;
        if Below(src, f.0) && Below(dst, f.1) && Tail(src, f.0) == Tail(dst, f.1) {
          var t := Tail(dst, f.1);
          if t[0] == e.name { assert |t| > 1 ==> t[1..] == Tail(src + [e.name], f.0) == Tail(dst + [e.name], f.1); }
          assert LeadsTo(e, t, false) <==> f in inner;
        } else {
          assert f !in inner;
        }
    }
  }

  // ---- each once, parents first ----

  lemma NoRepeatsConcat<T>(a: seq<T>, b: seq<T>)
    requires NoRepeats(a) && NoRepeats(b) && forall x :: x in a ==> x !in b
    ensures NoRepeats(a + b)
  {
    var c := a + b;
    forall i, j | 0 <= i < j < |c| ensures c[i] != c[j] {
      if i < |a| <= j { assert c[i] in a && c[j] in b; }
    }
  }

  lemma {:induction false} HasNeedsTheName(entries: seq<Entry>, p: Path, dir: bool)
    requires p != [] && Has(entries, p, dir)
    ensures exists i :: 0 <= i < |entries| && entries[i].name == p[0]
    decreases |entries|
  {
    if LeadsTo(entries[0], p, dir) {
      assert entries[0].name == p[0];
    } else {
      HasNeedsTheName(entries[1..], p, dir);
      var i :| 0 <= i < |entries[1..]| && entries[1..][i].name == p[0];
      assert entries[i + 1].name == p[0];
    }
  }

  lemma ProperTail(entries: seq<Entry>)
    requires ProperDir(entries) && entries != []
    ensures ProperDir(entries[1..])
    ensures entries[0].node.Dir? ==> ProperDir(entries[0].node.entries)
    ensures forall i :: 0 <= i < |entries[1..]| ==> entries[1..][i].name != entries[0].name
  {
    assert forall i :: 0 <= i < |entries[1..]| ==> entries[1..][i] == entries[i + 1];
  }

  lemma {:induction false} DirsOnce(entries: seq<Entry>, src: Path, dst: Path)
    requires ProperDir(entries)
    ensures NoRepeats(Entries(entries, src, dst).dirs)
    decreases entries
  {
    if entries != [] {
      var e, rest := entries[0], Entries(entries[1..], src, dst).dirs;
      ProperTail(entries);
      DirsOnce(entries[1..], src, dst);
      match e.node
      case File =>
      case Dir(below) =>
        var inner := Entries(below, src + [e.name], dst + [e.name]).dirs;
        DirsOnce(below, src + [e.name], dst + [e.name]);
        var mine := [dst + [e.name]] + inner;
        forall q | q in inner ensures q != dst + [e.name] { DirsAreExact(below, src + [e.name], dst + [e.name], q); }
        NoRepeatsConcat([dst + [e.name]], inner);
        forall q | q in mine ensures q !in rest {
          DirsAreExact(entries[1..], src, dst, q);
          DirsAreExact(below, src + [e.name], dst + [e.name], q);
          BelowStep(dst, e.name, q);
          if q in rest { HasNeedsTheName(entries[1..], Tail(dst, q), true); }
        }
        NoRepeatsConcat(mine, rest);
    }
  }

  lemma {:induction false} FilesOnce(entries: seq<Entry>, src: Path, dst: Path)
    requires ProperDir(entries)
    ensures NoRepeats(Entries(entries, src, dst).files)
    decreases entries
  {
    if entries != [] {
      var e, rest := entries[0], Entries(entries[1..], src, dst).files;
      ProperTail(entries);
      FilesOnce(entries[1..], src, dst);
      var mine := if e.node.File? then [(src + [e.name], dst + [e.name])]
                  else Entries(e.node.entries, src + [e.name], dst + [e.name]).files;
      if e.node.Dir? { FilesOnce(e.node.entries, src + [e.name], dst + [e.name]); }
      forall f | f in mine ensures f !in rest {
        FilesAreExact(entries[1..], src, dst, f);
        if e.node.Dir? { FilesAreExact(e.node.entries, src + [e.name], dst + [e.name], f); }
        BelowStep(dst, e.name, f.1);
        if f in rest { HasNeedsTheName(entries[1..], Tail(dst, f.1), false); }
      }
      NoRepeatsConcat(mine, rest);
    }
  }

  /** Every directory listed has its parent in `known` or earlier in the list. */
  ghost predicate ParentsFirst(dirs: seq<Path>, known: seq<Path>) {
    forall k :: 0 <= k < |dirs| ==> dirs[k] != [] && dirs[k][..|dirs[k]| - 1] in known + dirs[..k]
  }

  lemma ParentsFirstConcat(a: seq<Path>, b: seq<Path>, known: seq<Path>, more: seq<Path>)
    requires ParentsFirst(a, known) && ParentsFirst(b, more) && forall p :: p in more ==> p in known + a
    ensures ParentsFirst(a + b, known)
  {
    var c := a + b;
    forall k | 0 <= k < |c| ensures c[k] != [] && c[k][..|c[k]| - 1] in known + c[..k] {
      if k < |a| {
        assert c[..k] == a[..k] && c[k] == a[k];
      } else {
        var parent := c[k][..|c[k]| - 1];
        assert c[k] == b[k - |a|] && c[..k] == a + b[..k - |a|];
        assert parent in more + b[..k - |a|];
      }
    }
  }

  lemma {:induction false} EntriesParentsFirst(entries: seq<Entry>, src: Path, dst: Path)
    ensures ParentsFirst(Entries(entries, src, dst).dirs, [dst])
    decreases entries
  {
    if entries != [] {
      var e, rest := entries[0], Entries(entries[1..], src, dst).dirs;
      EntriesParentsFirst(entries[1..], src, dst);
      match e.node
      case File =>
      case Dir(below) =>
        var here := dst + [e.name];
        var inner := Entries(below, src + [e.name], here).dirs;
        EntriesParentsFirst(below, src + [e.name], here);
        assert here[..|here| - 1] == dst;
        assert ParentsFirst([here], [dst]);
        ParentsFirstConcat([here], inner, [dst], [here]);
        ParentsFirstConcat([here] + inner, rest, [dst], [dst]);
    }
  }

  lemma {:induction false} FilesHaveADirectory(entries: seq<Entry>, p: Path)
    requires p != [] && Has(entries, p, false)
    ensures Has(entries, p[..|p| - 1], true)
    decreases entries
  {
    if LeadsTo(entries[0], p, false) {
      if |p| > 1 {
        var below := entries[0].node.entries;
        HasFileIsNotEmpty(below, p[1..]);
        FilesHaveADirectory(below, p[1..]);
        assert p[1..][..|p[1..]| - 1] == p[..|p| - 1][1..];
      }
    } else {
      FilesHaveADirectory(entries[1..], p);
    }
  }

  lemma HasFileIsNotEmpty(entries: seq<Entry>, p: Path)
    requires Has(entries, p, false)
    ensures p != []
  {}

  /**
   * The plan for a whole folder: the target first, each directory after its parent and once; each file
   * of the tree once, to the same place under the target, in a directory of the plan; nothing else.
   */
  lemma PlanIsComplete(entries: seq<Entry>, src: Path, dst: Path)
    requires ProperDir(entries)
    ensures var plan := Walked(entries, src, dst);
            && plan.dirs[0] == dst && ParentsFirst(plan.dirs[1..], [dst])
            && NoRepeats(plan.dirs) && NoRepeats(plan.files)
            && (forall q :: q in plan.dirs <==> q == dst || (Below(dst, q) && Has(entries, Tail(dst, q), true)))
            && (forall f :: f in plan.files <==>
                  Below(src, f.0) && Below(dst, f.1) && Tail(src, f.0) == Tail(dst, f.1)
                    && Has(entries, Tail(dst, f.1), false))
            && (forall f :: f in plan.files ==> f.1 != [] && f.1[..|f.1| - 1] in plan.dirs)
  {
    var plan, below := Walked(entries, src, dst), Entries(entries, src, dst);
    EntriesParentsFirst(entries, src, dst);
    DirsOnce(entries, src, dst);
    FilesOnce(entries, src, dst);
    forall q ensures q in below.dirs <==> Below(dst, q) && Has(entries, Tail(dst, q), true) {
      DirsAreExact(entries, src, dst, q);
    }
    forall f ensures f in below.files <==>
        Below(src, f.0) && Below(dst, f.1) && Tail(src, f.0) == Tail(dst, f.1) && Has(entries, Tail(dst, f.1), false)
    {
      FilesAreExact(entries, src, dst, f);
    }
    NoRepeatsConcat([dst], below.dirs);
    forall f | f in plan.files ensures f.1 != [] && f.1[..|f.1| - 1] in plan.dirs {
      FileGoesIntoThePlan(entries, src, dst, f);
    }
  }

  lemma FileGoesIntoThePlan(entries: seq<Entry>, src: Path, dst: Path, f: (Path, Path))
    requires f in Entries(entries, src, dst).files
    ensures f.1 != [] && f.1[..|f.1| - 1] in Walked(entries, src, dst).dirs
  {
    FilesAreExact(entries, src, dst, f);
    var t, parent := Tail(dst, f.1), f.1[..|f.1| - 1];
    FilesHaveADirectory(entries, t);
    assert parent[..|dst|] == f.1[..|dst|] == dst;
    if |parent| > |dst| {
      assert Tail(dst, parent) == t[..|t| - 1];
    } else {
      assert parent == parent[..|dst|];
    }
    DirsAreExact(entries, src, dst, parent);
  }
}
