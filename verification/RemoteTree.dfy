/**
 * Recursive delete on the remote side (electron/services/SftpService.ts, `delete`): directories are
 * emptied before they are removed, and links are removed rather than followed.
 */
module RemoteTree {
  /** A remote path as its components; `p + [name]` is `posix.join(p, name)`. */
  type Path = seq<string>

  datatype Kind = Directory | File | Symlink | Other

  type Nodes = map<Path, Kind>

  predicate HangsInDir(nodes: Nodes, p: Path) {
    p != [] ==> p[..|p| - 1] in nodes && nodes[p[..|p| - 1]] == Directory
  }

  /** Every node but the root hangs in a directory. */
  ghost predicate WellFormed(nodes: Nodes) {
    forall p {:trigger HangsInDir(nodes, p)} :: p in nodes ==> HangsInDir(nodes, p)
  }

  /** `p` is `top` or lies below it. */
  predicate Under(top: Path, p: Path) { |top| <= |p| && p[..|top|] == top }

  ghost predicate EmptyDir(nodes: Nodes, dir: Path) {
    forall p {:trigger Under(dir, p)} :: p in nodes && Under(dir, p) ==> p == dir
  }

  predicate UnderAny(tops: seq<Path>, p: Path) { exists i :: 0 <= i < |tops| && Under(tops[i], p) }

  /** What is left when the subtrees at `tops` are gone. */
  function Without(nodes: Nodes, tops: seq<Path>): Nodes {
    map p | p in nodes && !UnderAny(tops, p) :: nodes[p]
  }

  /** What the server will not do: remove these nodes, list these directories. */
  datatype Refusals = Refusals(removal: set<Path>, listing: set<Path>)

  predicate Refused(nodes: Nodes, p: Path, no: Refusals)
    requires p in nodes
  {
    p in no.removal || (nodes[p] == Directory && p in no.listing)
  }

  /** Nothing at or below `top` is refused by the server. */
  ghost predicate Removable(nodes: Nodes, top: Path, no: Refusals) {
    forall p {:trigger Under(top, p)} :: p in nodes && Under(top, p) ==> !Refused(nodes, p, no)
  }

  /** The nodes at and below `top`. */
  function Subtree(nodes: Nodes, top: Path): set<Path> {
    set p | p in nodes && Under(top, p)
  }

  /** The same for the first `n` of several subtrees. */
  ghost predicate AllRemovable(nodes: Nodes, tops: seq<Path>, n: nat, no: Refusals)
    requires n <= |tops|
  {
    forall i :: 0 <= i < n ==> Removable(nodes, tops[i], no)
  }

  /** `left` is `nodes` with some nodes missing. */
  ghost predicate PartOf(left: Nodes, nodes: Nodes) {
    forall p :: p in left ==> p in nodes && left[p] == nodes[p]
  }

  // ---- lemmas on paths ----

  /** Every proper prefix of a node is a directory of the tree. */
  lemma {:induction false} AncestorsExist(nodes: Nodes, p: Path, k: nat)
    requires WellFormed(nodes) && p in nodes && k < |p|
    ensures p[..k] in nodes && nodes[p[..k]] == Directory
    decreases |p|
  {
    var parent := p[..|p| - 1];
    assert HangsInDir(nodes, p);
    if k < |p| - 1 {
      AncestorsExist(nodes, parent, k);
      assert parent[..k] == p[..k];
    }
  }

  lemma LeafHasNothingBelow(nodes: Nodes, path: Path)
    requires WellFormed(nodes) && path in nodes && nodes[path] != Directory
    ensures EmptyDir(nodes, path)
  {
    forall p | p in nodes && Under(path, p) ensures p == path {
      if |path| < |p| { AncestorsExist(nodes, p, |path|); }
      assert p[..|p|] == p;
    }
  }

  lemma UnderSelf(p: Path)
    ensures Under(p, p)
  {
    assert p[..|p|] == p;
  }

  lemma UnderIsTransitive(a: Path, b: Path, c: Path)
    requires Under(a, b) && Under(b, c)
    ensures Under(a, c)
  {
    assert c[..|a|] == c[..|b|][..|a|];
  }

  /** Taking whole subtrees out leaves a tree. */
  lemma WithoutIsWellFormed(nodes: Nodes, tops: seq<Path>)
    requires WellFormed(nodes)
    ensures WellFormed(Without(nodes, tops))
  {
    var left := Without(nodes, tops);
    forall p | p in left ensures HangsInDir(left, p) {
      assert HangsInDir(nodes, p);
      if p != [] {
        var parent := p[..|p| - 1];
        assert Under(parent, p);
        forall i | 0 <= i < |tops| ensures !Under(tops[i], parent) {
          if Under(tops[i], parent) { UnderIsTransitive(tops[i], parent, p); }
        }
      }
    }
  }

  lemma UnderAnySnoc(tops: seq<Path>, top: Path, p: Path)
    ensures UnderAny(tops + [top], p) <==> UnderAny(tops, p) || Under(top, p)
  {
    var more := tops + [top];
    if UnderAny(tops, p) {
      var i :| 0 <= i < |tops| && Under(tops[i], p);
      assert Under(more[i], p);
    }
    if Under(top, p) { assert Under(more[|tops|], p); }
  }

  lemma WithoutSnoc(nodes: Nodes, tops: seq<Path>, top: Path)
    ensures Without(Without(nodes, tops), [top]) == Without(nodes, tops + [top])
  {
    forall p ensures UnderAny(tops + [top], p) <==> UnderAny(tops, p) || UnderAny([top], p) {
      UnderAnySnoc(tops, top, p);
      UnderOnly(top, p);
    }
  }

  // ---- children ----

  /** The directory listing: each child of `dir` once. */
  ghost predicate Lists(nodes: Nodes, dir: Path, children: seq<Path>) {
    && (forall i :: 0 <= i < |children| ==>
      children[i] in nodes && |children[i]| == |dir| + 1 && Under(dir, children[i]))
    && (forall i, j :: 0 <= i < j < |children| ==> children[i] != children[j])
    && (forall p {:trigger Under(dir, p)} :: p in nodes && |p| == |dir| + 1 && Under(dir, p) ==> p in children)
  }

  /** Below a directory there is only what is below its children. */
  lemma BelowDirIsBelowAChild(nodes: Nodes, dir: Path, children: seq<Path>, p: Path)
    requires WellFormed(nodes) && Lists(nodes, dir, children) && p in nodes && Under(dir, p) && p != dir
    ensures UnderAny(children, p)
  {
    assert p[..|p|] == p;
    var child := p[..|dir| + 1];
    if |p| > |dir| + 1 { AncestorsExist(nodes, p, |dir| + 1); }
    assert child[..|dir|] == p[..|dir|];
    assert Under(dir, child);
    var i :| 0 <= i < |children| && children[i] == child;
    assert Under(children[i], p);
  }

  lemma UnderOnly(top: Path, p: Path)
    ensures UnderAny([top], p) <==> Under(top, p)
  {
    if Under(top, p) { assert Under([top][0], p); }
  }

  lemma OnlyDirIsLeft(nodes: Nodes, dir: Path, children: seq<Path>, p: Path)
    requires WellFormed(nodes) && Lists(nodes, dir, children) && p in nodes
    ensures UnderAny(children, p) <==> Under(dir, p) && p != dir
  {
    if Under(dir, p) && p != dir { BelowDirIsBelowAChild(nodes, dir, children, p); }
    if UnderAny(children, p) {
      var i :| 0 <= i < |children| && Under(children[i], p);
      UnderIsTransitive(dir, children[i], p);
    }
  }

  lemma ChildrenGoneIsEmpty(nodes: Nodes, dir: Path, children: seq<Path>)
    requires WellFormed(nodes) && Lists(nodes, dir, children) && dir in nodes
    ensures var left := Without(nodes, children);
            && EmptyDir(left, dir) && dir in left && left - {dir} == Without(nodes, [dir])
  {
    UnderSelf(dir);
    forall p | p in nodes
      ensures UnderAny(children, p) <==> Under(dir, p) && p != dir
      ensures UnderAny([dir], p) <==> Under(dir, p)
    {
      OnlyDirIsLeft(nodes, dir, children, p);
      UnderOnly(dir, p);
    }
  }

  /** A child's subtree is untouched while its earlier siblings go. */
  lemma SiblingsAreApart(nodes: Nodes, dir: Path, children: seq<Path>, i: nat, p: Path)
    requires Lists(nodes, dir, children) && i < |children| && Under(children[i], p)
    ensures !UnderAny(children[..i], p)
  {
    forall j | 0 <= j < i ensures !Under(children[..i][j], p) {
      assert children[..i][j] == children[j] != children[i] == p[..|dir| + 1];
    }
  }

  lemma RemovableOfChildren(nodes: Nodes, dir: Path, children: seq<Path>, no: Refusals)
    requires WellFormed(nodes) && Lists(nodes, dir, children) && dir in nodes
    ensures Removable(nodes, dir, no) <==> !Refused(nodes, dir, no) && AllRemovable(nodes, children, |children|, no)
  {
    UnderSelf(dir);
    if Removable(nodes, dir, no) {
      forall i, p | 0 <= i < |children| && p in nodes && Under(children[i], p) ensures !Refused(nodes, p, no) {
        UnderIsTransitive(dir, children[i], p);
      }
    }
    if !Refused(nodes, dir, no) && AllRemovable(nodes, children, |children|, no) {
      forall p | p in nodes && Under(dir, p) ensures !Refused(nodes, p, no) {
        if p != dir {
          BelowDirIsBelowAChild(nodes, dir, children, p);
          var i :| 0 <= i < |children| && Under(children[i], p);
          assert Removable(nodes, children[i], no);
        }
      }
    }
  }

  // ---- the server ----

  class RemoteFs {
    var nodes: Nodes
    const no: Refusals

    constructor (nodes: Nodes, no: Refusals)
      ensures this.nodes == nodes && this.no == no
    {
      this.nodes, this.no := nodes, no;
    }

    method ListDir(dir: Path) returns (ok: bool, children: seq<Path>)
      ensures ok <==> dir in nodes && nodes[dir] == Directory && dir !in no.listing
      ensures ok ==> Lists(nodes, dir, children)
    {
      ok, children := dir in nodes && nodes[dir] == Directory && dir !in no.listing, [];
      if !ok { return; }
      var left := set p | p in nodes && |p| == |dir| + 1 && Under(dir, p);
      ghost var all := left;
      while left != {}
        invariant left <= all
        invariant forall i :: 0 <= i < |children| ==> children[i] in all && children[i] !in left
        invariant forall i, j :: 0 <= i < j < |children| ==> children[i] != children[j]
        invariant forall p :: p in all ==> p in left || p in children
      {
        var p :| p in left;
        children := children + [p];
        left := left - {p};
      }
    }

    method Unlink(p: Path) returns (ok: bool)
      requires p in nodes ==> nodes[p] != Directory
      modifies this
      ensures ok <==> p in old(nodes) && p !in no.removal
      ensures nodes == if ok then old(nodes) - {p} else old(nodes)
    {
      ok := p in nodes && p !in no.removal;
      if ok { nodes := nodes - {p}; }
    }

    /** Its precondition is the point: `rmdir` is only ever called on a directory already empty. */
    method Rmdir(dir: Path) returns (ok: bool)
      requires dir in nodes && nodes[dir] == Directory && EmptyDir(nodes, dir)
      modifies this
      ensures ok <==> dir !in no.removal
      ensures nodes == if ok then old(nodes) - {dir} else old(nodes)
    {
      ok := dir !in no.removal;
      if ok { nodes := nodes - {dir}; }
    }

    /**
     * Removes exactly the subtree at `path`, unless there is nothing there or the server refuses something in it;
     * then it stops there, having touched nothing outside the subtree.
     */
    method Delete(path: Path, isDir: bool) returns (ok: bool)
      requires WellFormed(nodes) && (path in nodes ==> (isDir <==> nodes[path] == Directory))
      modifies this
      ensures ok <==> path in old(nodes) && Removable(old(nodes), path, no)
      ensures ok ==> nodes == Without(old(nodes), [path])
      ensures PartOf(nodes, old(nodes)) && PartOf(Without(old(nodes), [path]), nodes)
      decreases Subtree(nodes, path), 2
    {
      UnderSelf(path);
      if !isDir {
        if path in nodes {
          LeafHasNothingBelow(nodes, path);
          LeafWithout(nodes, path);
        }
        ok := Unlink(path);
        return;
      }
      ghost var before := nodes;
      var listed, children := ListDir(path);
      if !listed { return false; }
      ok := DeleteChildren(path, children);
      RemovableOfChildren(before, path, children, no);
      if ok {
        ChildrenGoneIsEmpty(before, path, children);
        OutsideStays(before, path, children);
        ok := Rmdir(path);
      }
    }

    /** The loop of `delete`: each entry's subtree in turn, up to the first refusal. */
    method DeleteChildren(dir: Path, children: seq<Path>) returns (ok: bool)
      requires WellFormed(nodes) && dir in nodes && Lists(nodes, dir, children)
      modifies this
      ensures ok <==> AllRemovable(old(nodes), children, |children|, no)
      ensures ok ==> nodes == Without(old(nodes), children)
      ensures !ok ==> PartOf(nodes, old(nodes)) && PartOf(Without(old(nodes), [dir]), nodes)
      decreases Subtree(nodes, dir), 1
    {
      ghost var before := nodes;
      var i := 0;
      NothingGone(before, children);
      while i < |children|
        invariant i <= |children|
        invariant nodes == Without(before, children[..i])
        invariant AllRemovable(before, children, i, no)
      {
        ok := DeleteChild(before, dir, children, i);
        if !ok { return; }
        i := i + 1;
      }
      return true;
    }

    /** One turn of it, with the earlier entries already gone. */
    method DeleteChild(ghost before: Nodes, dir: Path, children: seq<Path>, i: nat) returns (ok: bool)
      requires WellFormed(before) && dir in before && Lists(before, dir, children) && i < |children|
      requires nodes == Without(before, children[..i])
      modifies this
      ensures ok <==> Removable(before, children[i], no)
      ensures ok ==> nodes == Without(before, children[..i + 1])
      ensures PartOf(nodes, before) && PartOf(Without(before, [dir]), nodes)
      decreases Subtree(before, dir), 0
    {
      var child := children[i];
      ChildIsNext(before, dir, children, i);
      RemovableNow(before, dir, children, i, no);
      ok := Delete(child, nodes[child] == Directory);
      NextPrefix(before, dir, children, i, nodes);
    }
  }

  lemma NothingGone(nodes: Nodes, tops: seq<Path>)
    ensures Without(nodes, tops[..0]) == nodes && tops[..|tops|] == tops
  {}

  /** When its turn comes, a child's subtree is what it was at the start, and smaller than its directory's. */
  lemma ChildIsNext(before: Nodes, dir: Path, children: seq<Path>, i: nat)
    requires WellFormed(before) && dir in before && Lists(before, dir, children) && i < |children|
    ensures var nodes := Without(before, children[..i]);
      WellFormed(nodes) && children[i] in nodes && Subtree(nodes, children[i]) < Subtree(before, dir)
  {
    var nodes := Without(before, children[..i]);
    WithoutIsWellFormed(before, children[..i]);
    UnderSelf(children[i]);
    UnderSelf(dir);
    forall p | p in before && Under(children[i], p) ensures p in nodes && Under(dir, p) {
      SiblingsAreApart(before, dir, children, i, p);
      UnderIsTransitive(dir, children[i], p);
    }
    assert dir in Subtree(before, dir) && dir !in Subtree(nodes, children[i]);
  }

  lemma RemovableNow(before: Nodes, dir: Path, children: seq<Path>, i: nat, no: Refusals)
    requires Lists(before, dir, children) && i < |children|
    ensures Removable(Without(before, children[..i]), children[i], no) <==> Removable(before, children[i], no)
  {
    var now := Without(before, children[..i]);
    forall p | p in before && Under(children[i], p) ensures p in now {
      SiblingsAreApart(before, dir, children, i, p);
    }
  }

  lemma PartOfTrans(a: Nodes, b: Nodes, c: Nodes)
    requires PartOf(a, b) && PartOf(b, c)
    ensures PartOf(a, c)
  {}

  /** Below `dir`, everything outside it is still there and nothing is new. */
  lemma AfterChild(before: Nodes, dir: Path, tops: seq<Path>, top: Path, more: seq<Path>, after: Nodes)
    requires more == tops + [top] && AllBelow(dir, tops) && AllBelow(dir, more)
    requires PartOf(after, Without(before, tops)) && PartOf(Without(Without(before, tops), [top]), after)
    ensures Without(Without(before, tops), [top]) == Without(before, more)
    ensures PartOf(after, before) && PartOf(Without(before, [dir]), after)
  {
    WithoutSnoc(before, tops, top);
    OutsideStays(before, dir, tops);
    OutsideStays(before, dir, more);
    PartOfTrans(after, Without(before, tops), before);
    PartOfTrans(Without(before, [dir]), Without(before, more), after);
  }

  ghost predicate AllBelow(dir: Path, tops: seq<Path>) {
    forall k :: 0 <= k < |tops| ==> Under(dir, tops[k])
  }

  lemma PrefixBelow(dir: Path, tops: seq<Path>, n: nat)
    requires AllBelow(dir, tops) && n <= |tops|
    ensures AllBelow(dir, tops[..n])
  {
    assert forall k :: 0 <= k < n ==> tops[..n][k] == tops[k];
  }

  lemma PrefixSnoc(tops: seq<Path>, i: nat)
    requires i < |tops|
    ensures tops[..i + 1] == tops[..i] + [tops[i]]
  {}

  lemma NextPrefix(before: Nodes, dir: Path, children: seq<Path>, i: nat, after: Nodes)
    requires AllBelow(dir, children) && i < |children|
    requires PartOf(after, Without(before, children[..i]))
      && PartOf(Without(Without(before, children[..i]), [children[i]]), after)
    ensures Without(Without(before, children[..i]), [children[i]]) == Without(before, children[..i + 1])
    ensures PartOf(after, before) && PartOf(Without(before, [dir]), after)
  {
    PrefixSnoc(children, i);
    PrefixBelow(dir, children, i);
    PrefixBelow(dir, children, i + 1);
    AfterChild(before, dir, children[..i], children[i], children[..i + 1], after);
  }

  lemma LeafWithout(nodes: Nodes, path: Path)
    requires path in nodes && EmptyDir(nodes, path)
    ensures nodes - {path} == Without(nodes, [path])
  {
    UnderSelf(path);
    forall p | p in nodes ensures UnderAny([path], p) <==> Under(path, p) { UnderOnly(path, p); }
  }

  /** Taking things out of `dir` leaves everything outside it in place. */
  lemma OutsideStays(before: Nodes, dir: Path, tops: seq<Path>)
    requires AllBelow(dir, tops)
    ensures PartOf(Without(before, [dir]), Without(before, tops)) && PartOf(Without(before, tops), before)
  {
    forall p | p in before && UnderAny(tops, p) ensures UnderAny([dir], p) {
      var i :| 0 <= i < |tops| && Under(tops[i], p);
      UnderIsTransitive(dir, tops[i], p);
      UnderOnly(dir, p);
    }
  }
}
