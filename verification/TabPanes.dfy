/**
 * What every action does to panes: each tab's grid stays a partition of its panes, no pane is lost, and a
 * pane leaves the strip either killed or handed over.
 */
module TabPanes {
  import opened PaneGrid
  import opened TabModel

  // ---- one tab ----

  /** The grid holds the tab's panes, each once, in at most two rows of at most three; one of them is active. */
  ghost predicate TabOk(t: Tab) {
    Shape(t.layout) && Partition(t.layout, t.panes) && t.activePane in t.panes
  }

  lemma InFlat(t: Tab, p: Id)
    requires Partition(t.layout, t.panes)
    ensures p in Flat(t.layout) <==> p in t.panes
  {
    assert p in t.panes <==> p in multiset(t.panes);
    assert p in Flat(t.layout) <==> p in multiset(Flat(t.layout));
  }

  /** A free column in the active pane's row, or a free row. */
  predicate RoomFor(t: Tab, dir: Direction, maxCols: nat) {
    if dir == Down then |t.layout| < 2
    else exists k :: 0 <= k < |t.layout| && t.activePane in t.layout[k] && |t.layout[k]| < maxCols
  }

  lemma RoomIsFound(t: Tab, newId: Id, dir: Direction, maxCols: nat)
    requires Partition(t.layout, t.panes) && t.activePane in Flat(t.layout)
    ensures RoomFor(t, dir, maxCols) <==> InsertPane(t.layout, t.activePane, newId, dir, maxCols).Some?
  {
    var (r, c) := PlaceOf(t.layout, t.activePane).value;
    SplitPlacesNewPane(t.layout, t.activePane, newId, maxCols);
    assert t.activePane in t.layout[r];
    forall k | 0 <= k < |t.layout| && t.activePane in t.layout[k] ensures k == r {
      InOneRow(t.layout, t.panes, t.activePane, r, k);
    }
  }

  lemma InOneRow(rows: Rows, panes: seq<Id>, p: Id, r: nat, k: nat)
    requires Partition(rows, panes) && r < |rows| && k < |rows| && p in rows[r] && p in rows[k]
    ensures r == k
  {
    if r < k { InTwoRows(rows, r, k, p); }
    if k < r { InTwoRows(rows, k, r, p); }
  }

  lemma InTwoRows(rows: Rows, r: nat, k: nat, p: Id)
    requires r < k < |rows| && p in rows[r] && p in rows[k]
    ensures multiset(Flat(rows))[p] >= 2
  {
    CutRows(rows, r);
    FlatAround(rows[..r], rows[r], rows[r + 1..]);
    InSomeRow(rows[r + 1..], k - r - 1, p);
  }

  lemma {:induction false} InSomeRow(rows: Rows, k: nat, p: Id)
    requires k < |rows| && p in rows[k]
    ensures p in Flat(rows)
    decreases k
  {
    if k > 0 { InSomeRow(rows[1..], k - 1, p); }
  }

  /**
   * A split finds the active pane, so nothing ever falls through to the bottom row; it stays within the limits it is
   * given.
   */
  lemma SplitTabOk(t: Tab, dir: Direction, newId: Id, maxPanes: nat, maxCols: nat)
    requires TabOk(t) && newId !in t.panes && 1 <= maxCols <= MAX_COLS
    ensures var r := SplitTab(t, dir, newId, maxPanes, maxCols);
      && PlaceOf(t.layout, t.activePane).Some?
      && TabOk(r) && r.id == t.id && r.side == t.side
      && (r == t || (r.panes == t.panes + [newId] && |r.panes| <= maxPanes && r.activePane == newId))
      && (r != t <==> |t.panes| < maxPanes && RoomFor(t, dir, maxCols))
      && forall k :: 0 <= k < |r.layout| ==> |r.layout[k]| <= maxCols || r.layout[k] in t.layout
  {
    InFlat(t, t.activePane);
    RoomIsFound(t, newId, dir, maxCols);
    var r := SplitTab(t, dir, newId, maxPanes, maxCols);
    if r != t {
      InsertKeepsShape(t.layout, t.activePane, newId, dir, maxCols);
      InsertAddsOne(t.layout, PlaceOf(t.layout, t.activePane), newId, dir, maxCols);
      AddedOnce(t.panes, newId);
    }
  }

  lemma AddedOnce(panes: seq<Id>, newId: Id)
    requires Once(panes) && newId !in panes
    ensures Once(panes + [newId]) && multiset(panes + [newId]) == multiset(panes) + multiset{newId}
  {
    assert multiset(panes)[newId] == 0;
  }

  lemma OthersRemain(panes: seq<Id>, pane: Id)
    requires Once(panes)
    ensures Once(Without(panes, pane)) && forall p :: p in Without(panes, pane) <==> p in panes && p != pane
  {
    WithoutCounts(panes, pane);
    forall p ensures p in Without(panes, pane) <==> p in panes && p != pane {
      assert p in Without(panes, pane) <==> p in multiset(Without(panes, pane));
    }
  }

  lemma ShrunkPartition(layout: Rows, panes: seq<Id>, pane: Id)
    requires Partition(layout, panes)
    ensures Partition(RemovePane(layout, pane), Without(panes, pane))
  {
    FlatOfRemove(layout, pane);
    WithoutCounts(Flat(layout), pane);
    WithoutCounts(panes, pane);
  }

  lemma ShrunkShape(layout: Rows, pane: Id)
    requires Shape(layout) && Flat(RemovePane(layout, pane)) != []
    ensures Shape(RemovePane(layout, pane))
  {
    RemoveKeepsRows(layout, pane, MAX_COLS);
  }

  /** Closing a pane that is not the tab's last. */
  lemma ShrinkTabOk(t: Tab, pane: Id)
    requires TabOk(t) && |t.panes| != 1
    ensures var r := ShrinkTab(t, pane);
      && TabOk(r) && r.id == t.id && r.side == t.side && (forall p :: p in r.panes <==> p in t.panes && p != pane)
      && r.activePane == if t.activePane == pane then r.panes[0] else t.activePane
  {
    OthersRemain(t.panes, pane);
    SomeOther(t.panes, pane);
    ShrunkPartition(t.layout, t.panes, pane);
    InFlat(ShrinkTab(t, pane), Without(t.panes, pane)[0]);
    ShrunkShape(t.layout, pane);
  }

  /** Two different ids, or more, cannot all be `pane`. */
  lemma SomeOther(panes: seq<Id>, pane: Id)
    requires Once(panes) && panes != [] && |panes| != 1
    ensures Without(panes, pane) != []
  {
    WithoutCounts(panes, pane);
    assert |multiset(panes)[pane := 0]| == |panes| - multiset(panes)[pane];
  }

  /** Splitting and closing the new pane again gives back the tab's panes and grid. */
  lemma SplitThenClose(t: Tab, dir: Direction, newId: Id, maxPanes: nat, maxCols: nat)
    requires TabOk(t) && newId !in t.panes
    ensures var r := ShrinkTab(SplitTab(t, dir, newId, maxPanes, maxCols), newId);
      r.panes == t.panes && r.layout == t.layout
  {
    InFlat(t, newId);
    WithoutAbsent(t.panes, newId);
    RemoveAbsent(t.layout, newId);
    CloseUndoesSplit(t.layout, PlaceOf(t.layout, t.activePane), newId, dir, maxCols);
    WithoutConcat(t.panes, [newId], newId);
    WithoutOnly(newId);
  }

  // ---- the strip ----

  ghost predicate PanesApart(tabs: seq<Tab>) {
    forall t, u, p :: t in tabs && u in tabs && p in t.panes && p in u.panes ==> t.id == u.id
  }

  ghost predicate GridsOk(tabs: seq<Tab>) {
    (forall t :: t in tabs ==> TabOk(t)) && PanesApart(tabs)
  }

  /** A pane is in the strip, killed or handed over, and only one of these. */
  ghost predicate Accounted(s: Store) {
    Live(s.tabs) !! s.killed && Live(s.tabs) !! s.detached && s.killed !! s.detached
  }

  /** The same tabs with the same panes and grids, in any order and on any side. */
  ghost predicate Permuted(a: seq<Tab>, b: seq<Tab>) {
    multiset(AllLeft(a)) == multiset(AllLeft(b))
  }

  lemma Counterpart(a: seq<Tab>, b: seq<Tab>, t: Tab)
    requires Permuted(a, b) && t in a
    ensures exists u :: u in b && u.(side := Left) == t.(side := Left)
  {
    var i :| 0 <= i < |a| && a[i] == t;
    assert AllLeft(a)[i] in multiset(AllLeft(a));
    assert AllLeft(a)[i] in AllLeft(b);
    var j :| 0 <= j < |b| && AllLeft(b)[j] == AllLeft(a)[i];
    assert b[j] in b;
  }

  lemma PermutedKeepsGrids(a: seq<Tab>, b: seq<Tab>)
    requires Permuted(a, b) && GridsOk(a)
    ensures GridsOk(b)
  {
    forall t | t in b ensures TabOk(t) {
      Counterpart(b, a, t);
      var u :| u in a && u.(side := Left) == t.(side := Left);
      assert TabOk(u);
    }
    forall t, u, p | t in b && u in b && p in t.panes && p in u.panes ensures t.id == u.id {
      Counterpart(b, a, t);
      Counterpart(b, a, u);
      var t1 :| t1 in a && t1.(side := Left) == t.(side := Left);
      var u1 :| u1 in a && u1.(side := Left) == u.(side := Left);
    }
  }

  lemma PermutedKeepsLive(a: seq<Tab>, b: seq<Tab>)
    requires Permuted(a, b)
    ensures Live(a) == Live(b)
  {
    forall p | p in Live(a) ensures p in Live(b) { LiveMoves(a, b, p); }
    forall p | p in Live(b) ensures p in Live(a) { LiveMoves(b, a, p); }
  }

  lemma LiveMoves(a: seq<Tab>, b: seq<Tab>, p: Id)
    requires Permuted(a, b) && p in Live(a)
    ensures p in Live(b)
  {
    var t :| t in a && p in t.panes;
    Counterpart(a, b, t);
    var u :| u in b && u.(side := Left) == t.(side := Left);
    assert p in u.panes;
  }

  lemma AllLeftOfCollapse(tabs: seq<Tab>)
    ensures AllLeft(Collapse(tabs)) == AllLeft(tabs)
  {}

  // ---- permuting actions ----

  lemma AllLeftConcat(a: seq<Tab>, b: seq<Tab>)
    ensures AllLeft(a + b) == AllLeft(a) + AllLeft(b)
  {}

  lemma AllLeftAround(a: seq<Tab>, t: Tab, b: seq<Tab>)
    ensures multiset(AllLeft(a + [t] + b)) == multiset(AllLeft(a + b)) + multiset{t.(side := Left)}
  {
    AllLeftConcat(a + [t], b);
    AllLeftConcat(a, [t]);
    AllLeftConcat(a, b);
    assert AllLeft([t]) == [t.(side := Left)];
  }

  lemma MovedPermutes(tabs: seq<Tab>, from: nat, to: nat, g: Side)
    requires from < |tabs| && to < |tabs|
    ensures Permuted(tabs, Moved(tabs, from, to, g))
  {
    var rest := tabs[..from] + tabs[from + 1..];
    AllLeftAround(tabs[..from], tabs[from], tabs[from + 1..]);
    assert tabs[..from] + [tabs[from]] + tabs[from + 1..] == tabs;
    AllLeftAround(rest[..to], tabs[from].(side := g), rest[to..]);
    assert rest[..to] + rest[to..] == rest;
  }

  /** Every tab keeps its panes, grid and active pane; none is killed or handed over. */
  ghost predicate OnlyPermutes(s: Store, r: Store) {
    Permuted(s.tabs, r.tabs) && r.killed == s.killed && r.detached == s.detached
  }

  /** The order of the strip stays too. */
  ghost predicate KeepsOrder(s: Store, r: Store) {
    AllLeft(r.tabs) == AllLeft(s.tabs) && r.killed == s.killed && r.detached == s.detached
  }

  lemma OrderedIsPermuted(s: Store, r: Store)
    requires KeepsOrder(s, r)
    ensures OnlyPermutes(s, r)
  {}

  /** Reordering neither changes a tab nor kills nor hands over. */
  lemma ReorderPermutes(s: Store, fromId: Id, toId: Id)
    ensures OnlyPermutes(s, ReorderTab(s, fromId, toId))
  {
    var from, to := FindTab(s.tabs, fromId), FindTab(s.tabs, toId);
    if from < |s.tabs| && to < |s.tabs| {
      MovedPermutes(s.tabs, from, to, s.tabs[to].side);
      AllLeftOfCollapse(Moved(s.tabs, from, to, s.tabs[to].side));
    }
  }

  /** Moving to a group and unsplitting keep the order of the strip too. */
  lemma MoveKeepsOrder(s: Store, id: Id, to: Side)
    ensures KeepsOrder(s, MoveTabToGroup(s, id, to).0)
  {
    var next := MapTab(s.tabs, id, (t: Tab) => t.(side := to));
    assert AllLeft(next) == AllLeft(s.tabs);
    AllLeftOfCollapse(next);
  }

  lemma UnsplitKeepsOrder(s: Store)
    ensures KeepsOrder(s, UnsplitTabs(s))
  {}

  // ---- actions that take tabs away ----

  lemma FewerTabsOk(tabs: seq<Tab>, remaining: seq<Tab>)
    requires GridsOk(tabs) && forall t :: t in remaining ==> t in tabs
    ensures GridsOk(Collapse(remaining)) && Live(Collapse(remaining)) == Live(remaining) <= Live(tabs)
  {
    AllLeftOfCollapse(remaining);
    PermutedKeepsGrids(remaining, Collapse(remaining));
    PermutedKeepsLive(remaining, Collapse(remaining));
  }

  /** What stays and what goes are all there was, and share no pane. */
  lemma PanesDivide(tabs: seq<Tab>, stay: seq<Tab>, go: seq<Tab>)
    requires GridsOk(tabs)
    requires forall t :: t in tabs <==> t in stay || t in go
    requires forall t, u :: t in stay && u in go ==> t.id != u.id
    ensures Live(tabs) == Live(stay) + Live(go) && Live(stay) !! Live(go)
  {}

  // ---- actions on one tab ----

  lemma {:induction false} MapOne(tabs: seq<Tab>, id: Id, f: Tab -> Tab)
    requires IsOpen(tabs, id) && Unique(tabs)
    ensures MapTab(tabs, id, f) == tabs[FindTab(tabs, id) := f(tabs[FindTab(tabs, id)])]
  {
    var k := FindTab(tabs, id);
    forall i | 0 <= i < |tabs| && i != k ensures tabs[i].id != id { assert tabs[k].id == id; }
  }

  function PaneSet(t: Tab): set<Id> {
    set p | p in t.panes
  }

  /** Replacing a tab by one with other panes, as long as the new ones are not in the strip. */
  lemma ReplacedTab(tabs: seq<Tab>, k: nat, t: Tab)
    requires k < |tabs| && GridsOk(tabs) && Unique(tabs)
    requires TabOk(t) && t.id == tabs[k].id && forall p :: p in t.panes ==> p in tabs[k].panes || p !in Live(tabs)
    ensures GridsOk(tabs[k := t]) && Live(tabs[k := t]) == Live(tabs) - PaneSet(tabs[k]) + PaneSet(t)
  {
    var r := tabs[k := t];
    forall u | u in r ensures u == t || (u in tabs && u.id != t.id) {
      var i :| 0 <= i < |r| && r[i] == u;
    }
    assert tabs[k] in tabs && r[k] == t;
    forall u | u in tabs && u != tabs[k] ensures u in r && u.id != t.id {
      var i :| 0 <= i < |tabs| && tabs[i] == u;
      assert r[i] == u;
    }
  }

  lemma GrownTab(tabs: seq<Tab>, k: nat, t: Tab, newId: Id)
    requires k < |tabs| && GridsOk(tabs) && Unique(tabs) && newId !in Live(tabs)
    requires TabOk(t) && t.id == tabs[k].id && t.panes == tabs[k].panes + [newId]
    ensures GridsOk(tabs[k := t]) && Live(tabs[k := t]) == Live(tabs) + {newId}
  {
    ReplacedTab(tabs, k, t);
    assert tabs[k] in tabs;
    assert PaneSet(tabs[k]) <= Live(tabs);
    assert PaneSet(t) == PaneSet(tabs[k]) + {newId};
  }

  lemma ShrunkTab(tabs: seq<Tab>, k: nat, t: Tab, pane: Id)
    requires k < |tabs| && GridsOk(tabs) && Unique(tabs) && pane in tabs[k].panes
    requires TabOk(t) && t.id == tabs[k].id && forall p :: p in t.panes <==> p in tabs[k].panes && p != pane
    ensures GridsOk(tabs[k := t]) && Live(tabs[k := t]) == Live(tabs) - {pane}
  {
    ReplacedTab(tabs, k, t);
    assert tabs[k] in tabs;
    assert PaneSet(tabs[k]) <= Live(tabs);
    assert PaneSet(t) == PaneSet(tabs[k]) - {pane};
  }

  lemma SplitPaneIs(s: Store, id: Id, dir: Direction, newId: Id)
    requires Unique(s.tabs)
    ensures var k := FindTab(s.tabs, id);
      SplitPane(s, id, dir, newId).tabs ==
        if k < |s.tabs| then s.tabs[k := SplitTab(s.tabs[k], dir, newId, MaxPanes(s.tabs), MaxCols(s.tabs))] else s.tabs
  {
    var maxPanes, maxCols := MaxPanes(s.tabs), MaxCols(s.tabs);
    var f := (t: Tab) => SplitTab(t, dir, newId, maxPanes, maxCols);
    assert SplitPane(s, id, dir, newId).tabs == MapTab(s.tabs, id, f);
    if IsOpen(s.tabs, id) { MapOne(s.tabs, id, f); }
  }

  /** A tab that is split where it stands. */
  lemma SplitInPlace(tabs: seq<Tab>, k: nat, dir: Direction, newId: Id, maxPanes: nat, maxCols: nat)
    requires GridsOk(tabs) && newId !in Live(tabs) && Unique(tabs) && k < |tabs| && 1 <= maxCols <= MAX_COLS
    ensures var t := SplitTab(tabs[k], dir, newId, maxPanes, maxCols);
      && t.id == tabs[k].id && t.side == tabs[k].side && GridsOk(tabs[k := t])
      && (t == tabs[k] || Live(tabs[k := t]) == Live(tabs) + {newId})
  {
    var t := SplitTab(tabs[k], dir, newId, maxPanes, maxCols);
    assert tabs[k] in tabs && newId !in tabs[k].panes;
    SplitTabOk(tabs[k], dir, newId, maxPanes, maxCols);
    if t == tabs[k] {
      assert tabs[k := t] == tabs;
    } else {
      GrownTab(tabs, k, t, newId);
    }
  }

  lemma OneReplaced(tabs: seq<Tab>, k: nat, t: Tab)
    requires k < |tabs| && t.id == tabs[k].id && t.side == tabs[k].side
    ensures SameStrip(tabs, tabs[k := t]) && (t == tabs[k] ==> tabs[k := t] == tabs)
  {}

  /** Splitting a pane adds at most the new pane to the strip. */
  lemma SplitPaneOk(s: Store, id: Id, dir: Direction, newId: Id)
    requires GridsOk(s.tabs) && newId !in Live(s.tabs) && Unique(s.tabs)
    ensures var r := SplitPane(s, id, dir, newId);
      GridsOk(r.tabs) && (r.tabs == s.tabs || Live(r.tabs) == Live(s.tabs) + {newId}) && SameStrip(s.tabs, r.tabs)
  {
    SplitPaneIs(s, id, dir, newId);
    var k := FindTab(s.tabs, id);
    if k < |s.tabs| {
      SplitInPlace(s.tabs, k, dir, newId, MaxPanes(s.tabs), MaxCols(s.tabs));
      OneReplaced(s.tabs, k, SplitTab(s.tabs[k], dir, newId, MaxPanes(s.tabs), MaxCols(s.tabs)));
    }
  }

  /**
   * While the tabs are split, a split grows a tab up to four panes and a row up to two, otherwise up to six and
   * three; and it does grow the tab it is asked for, as long as there is room.
   */
  lemma SplitPaneWithinLimits(s: Store, id: Id, dir: Direction, newId: Id, i: nat)
    requires GridsOk(s.tabs) && newId !in Live(s.tabs) && Unique(s.tabs) && i < |s.tabs|
    ensures var r := SplitPane(s, id, dir, newId);
      r.tabs[i] == s.tabs[i]
        || SplitWithin(s.tabs[i], r.tabs[i], newId, if IsSplit(s.tabs) then 4 else 6, if IsSplit(s.tabs) then 2 else 3)
    ensures SplitPane(s, id, dir, newId).tabs[i] != s.tabs[i] <==>
      && s.tabs[i].id == id && |s.tabs[i].panes| < (if IsSplit(s.tabs) then 4 else 6)
      && RoomFor(s.tabs[i], dir, if IsSplit(s.tabs) then 2 else 3)
  {
    SplitPaneIs(s, id, dir, newId);
    assert s.tabs[i] in s.tabs;
    if i == FindTab(s.tabs, id) { SplitTabOk(s.tabs[i], dir, newId, MaxPanes(s.tabs), MaxCols(s.tabs)); }
  }

  /** `r` is `t` with one pane more, within these limits wherever it grew. */
  predicate SplitWithin(t: Tab, r: Tab, newId: Id, maxPanes: nat, maxCols: nat) {
    && r.panes == t.panes + [newId] && |r.panes| <= maxPanes
    && forall k :: 0 <= k < |r.layout| ==> |r.layout[k]| <= maxCols || r.layout[k] in t.layout
  }

  /** Closing one of several panes takes just that pane out of the strip. */
  lemma ShrinkOk(s: Store, id: Id, pane: Id)
    requires GridsOk(s.tabs) && Unique(s.tabs)
    requires IsOpen(s.tabs, id) && pane in s.tabs[FindTab(s.tabs, id)].panes && |s.tabs[FindTab(s.tabs, id)].panes| != 1
    ensures var tabs := MapTab(s.tabs, id, (t: Tab) => ShrinkTab(t, pane));
      && GridsOk(tabs) && Live(tabs) == Live(s.tabs) - {pane}
      && SameStrip(s.tabs, tabs)
  {
    var f := (t: Tab) => ShrinkTab(t, pane);
    var k := FindTab(s.tabs, id);
    assert s.tabs[k] in s.tabs;
    MapOne(s.tabs, id, f);
    ShrinkTabOk(s.tabs[k], pane);
    ShrunkTab(s.tabs, k, f(s.tabs[k]), pane);
  }

  lemma FocusPaneOk(s: Store, id: Id, pane: Id)
    requires GridsOk(s.tabs) && Unique(s.tabs)
    requires IsOpen(s.tabs, id) ==> pane in s.tabs[FindTab(s.tabs, id)].panes
    ensures var r := SetActivePane(s, id, pane);
      && (IsOpen(s.tabs, id) ==> r.tabs[FindTab(s.tabs, id)].activePane == pane)
      && GridsOk(r.tabs) && Live(r.tabs) == Live(s.tabs)
      && SameStrip(s.tabs, r.tabs)
  {
    var f := (t: Tab) => t.(activePane := pane);
    var k := FindTab(s.tabs, id);
    if k < |s.tabs| {
      var t := s.tabs[k];
      assert t in s.tabs;
      MapOne(s.tabs, id, f);
      assert TabOk(t) && TabOk(f(t));
      ReplacedTab(s.tabs, k, f(t));
      assert PaneSet(f(t)) == PaneSet(t) <= Live(s.tabs);
    } else {
      assert MapTab(s.tabs, id, f) == s.tabs;
    }
  }

  // ---- actions that bring tabs in ----

  lemma ArrivalOk(tabs: seq<Tab>, at: nat, tab: Tab)
    requires at <= |tabs| && GridsOk(tabs) && TabOk(tab) && PaneSet(tab) !! Live(tabs)
    ensures var r := tabs[..at] + [tab] + tabs[at..]; GridsOk(r) && Live(r) == Live(tabs) + PaneSet(tab)
  {
    var r := tabs[..at] + [tab] + tabs[at..];
    assert forall t :: t in r <==> t == tab || t in tabs by {
      assert tabs == tabs[..at] + tabs[at..];
      assert r[at] == tab;
    }
    forall t, p | t in tabs && p in t.panes ensures p !in tab.panes {
      assert p in Live(tabs);
      assert p in tab.panes ==> p in PaneSet(tab);
    }
    assert Live(r) == Live(tabs) + PaneSet(tab);
  }

  lemma FreshTabOk(id: Id, side: Side, pane: Id)
    ensures TabOk(Tab(id, side, [pane], [[pane]], pane)) && PaneSet(Tab(id, side, [pane], [[pane]], pane)) == {pane}
  {
    FlatOne([pane]);
  }
}
