/**
 * What every run of the workspace keeps: which tab is in focus, which tab each group shows, and on which
 * side the shown tabs are.
 */
module TabRuns {
  import opened Basics
  import opened PaneGrid
  import opened TabModel

  /**
   * A strip that is not empty has an open tab in focus and shows an open tab on the left; the right group
   * exists only beside a left one, shows an open tab exactly while it exists, and then the tab in focus is the one
   * its group shows.
   */
  ghost predicate Focus(s: Store) {
    if s.tabs == [] then s.active == None && s.shown == Shown(None, None)
    else
      && s.active.Some? && IsOpen(s.tabs, s.active.value)
      && HasSide(s.tabs, Left)
      && s.shown.left.Some? && IsOpen(s.tabs, s.shown.left.value)
      && (s.shown.right.Some? <==> IsSplit(s.tabs))
      && (s.shown.right.Some? ==> IsOpen(s.tabs, s.shown.right.value))
      && (IsSplit(s.tabs) ==> s.shown.On(SideOf(s.tabs, s.active.value)) == s.active)
  }

  /** Each group shows a member of its own. */
  ghost predicate OwnSides(s: Store) {
    && (s.shown.left.Some? ==> OpenOn(s.tabs, Left, s.shown.left.value))
    && (s.shown.right.Some? ==> OpenOn(s.tabs, Right, s.shown.right.value))
  }

  // ---- strips ----

  lemma OpenOnIsOpen(tabs: seq<Tab>, side: Side, id: Id)
    requires OpenOn(tabs, side, id)
    ensures IsOpen(tabs, id)
  {
    var i :| 0 <= i < |tabs| && tabs[i].id == id && tabs[i].side == side;
  }

  lemma OpenOnIsSideOf(tabs: seq<Tab>, side: Side, id: Id)
    requires Unique(tabs)
    ensures OpenOn(tabs, side, id) <==> IsOpen(tabs, id) && SideOf(tabs, id) == side
  {
    if OpenOn(tabs, side, id) {
      var i :| 0 <= i < |tabs| && tabs[i].id == id && tabs[i].side == side;
      var j := FindTab(tabs, id);
      assert j <= i && tabs[j].id == tabs[i].id;
    }
  }

  lemma CollapseKeepsIds(tabs: seq<Tab>, id: Id)
    ensures FindTab(Collapse(tabs), id) == FindTab(tabs, id)
    ensures tabs != [] ==> HasSide(Collapse(tabs), Left)
    ensures IsSplit(Collapse(tabs)) ==> Collapse(tabs) == tabs
  {
    FindSame(tabs, Collapse(tabs), id);
    if tabs != [] && !(HasSide(tabs, Left) && HasSide(tabs, Right)) { assert Collapse(tabs)[0].side == Left; }
  }

  lemma {:induction false} FilterKeepsUnique(tabs: seq<Tab>, keep: Tab -> bool)
    requires Unique(tabs)
    ensures Unique(Filter(tabs, keep))
  {
    if tabs != [] {
      FilterKeepsUnique(tabs[1..], keep);
      var rest := Filter(tabs[1..], keep);
      forall j | 0 <= j < |rest| ensures rest[j].id != tabs[0].id {
        assert rest[j] in rest;
        var k :| 0 <= k < |tabs[1..]| && tabs[1..][k] == rest[j];
      }
    }
  }

  // ---- removal ----

  /** The shown tabs after a removal are members of their groups, whatever they were before. */
  lemma RemovalRepairsSides(s: Store, remaining: seq<Tab>)
    ensures OwnSides(AfterRemoval(s, remaining))
  {}

  /** What is left of an open tab are the tabs before it in the strip. */
  lemma LeftOfIsBefore(tabs: seq<Tab>, k: nat)
    requires Unique(tabs) && k < |tabs|
    ensures LeftOf(tabs, Some(tabs[k].id)) == tabs[..k]
  {
    FoundAt(tabs, k);
  }

  /** `id` is shown if it is still there, else one that takes over from it. */
  predicate StaysOrPasses(s: Store, tabs: seq<Tab>, side: Side, id: Option<Id>, now: Option<Id>) {
    && (now.Some? <==> HasSide(tabs, side))
    && (id.Some? && OpenOn(tabs, side, id.value) ==> now == id)
    && (now.Some? && now != id ==> IsNeighbour(LeftOf(s.tabs, id), tabs, side, now.value))
  }

  /**
   * Each group goes on showing the tab it showed, and the focus stays where it was, as long as those tabs are there;
   * otherwise a neighbour takes over, and if its group went with the tab in focus, what the other group shows.
   */
  lemma RemovalPassesOn(s: Store, remaining: seq<Tab>)
    ensures var r := AfterRemoval(s, remaining);
      && StaysOrPasses(s, r.tabs, Left, s.shown.left, r.shown.left)
      && StaysOrPasses(s, r.tabs, Right, s.shown.right, r.shown.right)
      && (s.active.Some? && IsOpen(r.tabs, s.active.value) ==> r.active == s.active)
      && (s.active.Some? && IsOpen(s.tabs, s.active.value) && !IsOpen(r.tabs, s.active.value) ==>
            var side := SideOf(s.tabs, s.active.value);
            if HasSide(r.tabs, side) then StaysOrPasses(s, r.tabs, side, s.active, r.active)
            else r.active == if r.shown.left.Some? then r.shown.left else r.shown.right)
  {}

  lemma SplitWasSplit(s: Store, remaining: seq<Tab>)
    requires forall t :: t in remaining ==> t in s.tabs
    requires IsSplit(Collapse(remaining))
    ensures IsSplit(s.tabs)
  {
    SplitHasBoth(remaining);
    var i :| 0 <= i < |remaining| && remaining[i].side == Right;
    assert remaining[i] in s.tabs;
  }

  /** A tab that stays is on its old side as long as the strip stays split. */
  lemma SideStays(s: Store, remaining: seq<Tab>, id: Id)
    requires Unique(s.tabs) && (forall t :: t in remaining ==> t in s.tabs)
    requires IsSplit(Collapse(remaining)) && IsOpen(Collapse(remaining), id)
    ensures IsOpen(s.tabs, id) && SideOf(s.tabs, id) == SideOf(Collapse(remaining), id)
    ensures OpenOn(Collapse(remaining), SideOf(s.tabs, id), id)
  {
    CollapseKeepsIds(remaining, id);
    var t := remaining[FindTab(remaining, id)];
    assert t in s.tabs;
    var i :| 0 <= i < |s.tabs| && s.tabs[i] == t;
    OpenOnIsSideOf(s.tabs, t.side, id);
  }

  lemma RemovalKeepsFocus(s: Store, remaining: seq<Tab>)
    requires Unique(s.tabs) && Focus(s) && Unique(remaining) && forall t :: t in remaining ==> t in s.tabs
    ensures Focus(AfterRemoval(s, remaining))
  {
    var r := AfterRemoval(s, remaining);
    if remaining != [] {
      assert remaining[0] in s.tabs;
      CollapseKeepsIds(remaining, 0);
      OpenOnIsOpen(r.tabs, Left, r.shown.left.value);
      if IsSplit(r.tabs) {
        OpenOnIsOpen(r.tabs, Right, r.shown.right.value);
        SplitWasSplit(s, remaining);
        FocusAfterSplitRemoval(s, remaining);
      } else if !IsOpen(r.tabs, s.active.value) {
        PickedIsOpen(s, r.tabs, SideOf(s.tabs, s.active.value));
      }
    } else {
      assert !IsOpen(r.tabs, 0);
    }
  }

  lemma PickedIsOpen(s: Store, tabs: seq<Tab>, side: Side)
    ensures Pick(s.tabs, tabs, side, s.active).Some? ==> IsOpen(tabs, Pick(s.tabs, tabs, side, s.active).value)
  {
    var p := Pick(s.tabs, tabs, side, s.active);
    if p.Some? { OpenOnIsOpen(tabs, side, p.value); }
  }

  /** Still split: the focus is on the tab its group shows, kept or picked anew. */
  lemma FocusAfterSplitRemoval(s: Store, remaining: seq<Tab>)
    requires Unique(s.tabs) && Focus(s) && Unique(remaining) && (forall t :: t in remaining ==> t in s.tabs)
    requires IsSplit(Collapse(remaining)) && IsSplit(s.tabs)
    ensures var r := AfterRemoval(s, remaining);
      r.active.Some? && IsOpen(r.tabs, r.active.value) && r.shown.On(SideOf(r.tabs, r.active.value)) == r.active
  {
    var r := AfterRemoval(s, remaining);
    SplitHasBoth(remaining);
    var side := SideOf(s.tabs, s.active.value);
    if IsOpen(r.tabs, s.active.value) {
      SideStays(s, remaining, s.active.value);
    } else {
      assert s.shown.On(side) == s.active;
      OpenOnIsSideOf(r.tabs, side, r.active.value);
    }
  }

  // ---- the other actions ----

  /** One more tab in the strip: the others are as open, and on the same side, as before. */
  lemma InsertedAt(tabs: seq<Tab>, at: nat, tab: Tab)
    requires Unique(tabs) && at <= |tabs| && !IsOpen(tabs, tab.id)
    ensures var r := tabs[..at] + [tab] + tabs[at..];
      && Unique(r) && IsOpen(r, tab.id) && SideOf(r, tab.id) == tab.side
      && (forall id :: IsOpen(tabs, id) ==> IsOpen(r, id) && SideOf(r, id) == SideOf(tabs, id))
      && (forall side :: HasSide(r, side) <==> HasSide(tabs, side) || tab.side == side)
      && (forall side, id :: OpenOn(tabs, side, id) ==> OpenOn(r, side, id))
      && OpenOn(r, tab.side, tab.id)
  {
    var r := tabs[..at] + [tab] + tabs[at..];
    InsertedUnique(tabs, at, tab);
    forall side, x ensures OpenOn(r, side, x) <==> OpenOn(tabs, side, x) || (x == tab.id && side == tab.side) {
      InsertedOn(tabs, at, tab, side, x);
    }
    forall id | IsOpen(tabs, id) ensures IsOpen(r, id) && SideOf(r, id) == SideOf(tabs, id) {
      OpenOnIsSideOf(tabs, SideOf(tabs, id), id);
      OpenOnIsSideOf(r, SideOf(tabs, id), id);
    }
    OpenOnIsSideOf(r, tab.side, tab.id);
    forall side ensures HasSide(r, side) <==> HasSide(tabs, side) || tab.side == side {
      SideIsOpenOn(r, side);
      SideIsOpenOn(tabs, side);
    }
  }

  lemma InsertedUnique(tabs: seq<Tab>, at: nat, tab: Tab)
    requires Unique(tabs) && at <= |tabs| && !IsOpen(tabs, tab.id)
    ensures Unique(tabs[..at] + [tab] + tabs[at..])
  {
    var r := tabs[..at] + [tab] + tabs[at..];
    assert forall i :: 0 <= i < |r| && i != at ==> r[i] == tabs[if i < at then i else i - 1];
  }

  lemma InsertedOn(tabs: seq<Tab>, at: nat, tab: Tab, side: Side, x: Id)
    requires at <= |tabs|
    ensures OpenOn(tabs[..at] + [tab] + tabs[at..], side, x) <==>
      OpenOn(tabs, side, x) || (x == tab.id && side == tab.side)
  {
    var r := tabs[..at] + [tab] + tabs[at..];
    assert r[at] == tab;
    if OpenOn(tabs, side, x) {
      var i :| 0 <= i < |tabs| && tabs[i].id == x && tabs[i].side == side;
      assert tabs[i] == r[if i < at then i else i + 1];
    }
    if OpenOn(r, side, x) {
      var i :| 0 <= i < |r| && r[i].id == x && r[i].side == side;
      assert i != at ==> r[i] == tabs[if i < at then i else i - 1];
    }
  }

  lemma SetActiveKeepsFocus(s: Store, id: Id)
    requires Unique(s.tabs) && Focus(s)
    ensures Focus(SetActiveTab(s, id)) && (OwnSides(s) ==> OwnSides(SetActiveTab(s, id)))
    ensures SetActiveTab(s, id).active == if IsOpen(s.tabs, id) then Some(id) else s.active
    ensures IsOpen(s.tabs, id) ==>
      var side := SideOf(s.tabs, id);
      && SetActiveTab(s, id).shown.On(side) == Some(id)
      && SetActiveTab(s, id).shown.On(side.Other()) == s.shown.On(side.Other())
  {
    if IsOpen(s.tabs, id) { OpenOnIsSideOf(s.tabs, SideOf(s.tabs, id), id); }
  }

  /** A tab comes in and takes the focus; into the right group only beside a split. */
  lemma ArrivalKeepsFocus(s: Store, at: nat, tab: Tab)
    requires Unique(s.tabs) && Focus(s) && at <= |s.tabs| && !IsOpen(s.tabs, tab.id)
      && (tab.side == Right ==> IsSplit(s.tabs))
    ensures var r :=
      s.(tabs := s.tabs[..at] + [tab] + s.tabs[at..], active := Some(tab.id), shown := s.shown.With(tab.side, tab.id));
      Unique(r.tabs) && Focus(r) && (OwnSides(s) ==> OwnSides(r))
  {
    InsertedAt(s.tabs, at, tab);
  }

  lemma NewTabKeepsFocus(s: Store, id: Id, pane: Id, side: Option<Side>, after: Option<Id>)
    requires Unique(s.tabs) && Focus(s) && !IsOpen(s.tabs, id) && (side == Some(Right) ==> IsSplit(s.tabs))
    ensures var r := NewTab(s, id, pane, side, after); Unique(r.tabs) && Focus(r) && (OwnSides(s) ==> OwnSides(r))
  {
    var at := if after.Some? && IsOpen(s.tabs, after.value) then FindTab(s.tabs, after.value) + 1 else |s.tabs|;
    var g := if side.Some? then side.value else FocusSide(s);
    ArrivalKeepsFocus(s, at, Tab(id, g, [pane], [[pane]], pane));
  }

  lemma AdoptKeepsFocus(s: Store, tab: Tab)
    requires Unique(s.tabs) && Focus(s) && !IsOpen(s.tabs, tab.id)
    ensures var r := AdoptTab(s, tab); Unique(r.tabs) && Focus(r) && (OwnSides(s) ==> OwnSides(r))
  {
    ArrivalKeepsFocus(s, |s.tabs|, tab.(side := Left));
    assert s.tabs[..|s.tabs|] + [tab.(side := Left)] + s.tabs[|s.tabs|..] == s.tabs + [tab.(side := Left)];
  }

  lemma UnsplitKeepsFocus(s: Store)
    requires Unique(s.tabs) && Focus(s)
    ensures var r := UnsplitTabs(s);
      Unique(r.tabs) && Focus(r) && OwnSides(r) && !IsSplit(r.tabs) && r.active == r.shown.left == s.active
  {
    var r := UnsplitTabs(s);
    if s.tabs != [] {
      FindSame(s.tabs, r.tabs, s.active.value);
      assert r.tabs[0].side == Left;
      OpenOnIsSideOf(r.tabs, Left, s.active.value);
    }
  }

  lemma SameStripKeepsFocus(s: Store, tabs: seq<Tab>)
    requires Unique(s.tabs) && Focus(s) && SameStrip(s.tabs, tabs)
    ensures var r := s.(tabs := tabs); Unique(r.tabs) && Focus(r) && (OwnSides(s) ==> OwnSides(r))
  {
    var r := s.(tabs := tabs);
    forall id ensures FindTab(s.tabs, id) == FindTab(tabs, id) { FindSame(s.tabs, tabs, id); }
    forall side ensures HasSide(s.tabs, side) <==> HasSide(tabs, side) { SameSides(s.tabs, tabs, side); }
    forall side, id | OpenOn(s.tabs, side, id) ensures OpenOn(tabs, side, id) {
      var i :| 0 <= i < |s.tabs| && s.tabs[i].id == id && s.tabs[i].side == side;
      assert tabs[i].id == id && tabs[i].side == side;
    }
  }

  lemma SameSides(a: seq<Tab>, b: seq<Tab>, side: Side)
    requires SameStrip(a, b)
    ensures HasSide(a, side) <==> HasSide(b, side)
  {
    if HasSide(a, side) { var i :| 0 <= i < |a| && a[i].side == side; assert b[i].side == side; }
    if HasSide(b, side) { var i :| 0 <= i < |b| && b[i].side == side; assert a[i].side == side; }
  }

  // ---- changing sides ----

  /** The same tabs, except that `id` is on side `g` now. */
  ghost predicate Resided(a: seq<Tab>, b: seq<Tab>, id: Id, g: Side) {
    && Unique(b) && IsOpen(a, id)
    && (forall x :: IsOpen(b, x) <==> IsOpen(a, x))
    && (forall side, x :: OpenOn(b, side, x) <==> if x == id then side == g else OpenOn(a, side, x))
  }

  /** All tabs but `id` are as open, and in the same group, as before. */
  ghost predicate OthersStayPut(a: seq<Tab>, b: seq<Tab>, id: Id) {
    forall side, x :: x != id ==> (OpenOn(b, side, x) <==> OpenOn(a, side, x))
  }

  lemma SideIsOpenOn(tabs: seq<Tab>, side: Side)
    ensures HasSide(tabs, side) <==> exists x :: OpenOn(tabs, side, x)
  {
    if HasSide(tabs, side) {
      var i :| 0 <= i < |tabs| && tabs[i].side == side;
      assert OpenOn(tabs, side, tabs[i].id);
    }
  }

  /** If the strip is split after `id` went to the other side, it was split before or `id` made the split. */
  lemma SplitAfterResiding(a: seq<Tab>, b: seq<Tab>, id: Id, g: Side)
    requires Resided(a, b, id, g) && IsSplit(b) && g == Left
    ensures IsSplit(a)
  {
    SideIsOpenOn(b, Right);
    var x :| OpenOn(b, Right, x);
    SideIsOpenOn(a, Right);
  }

  lemma TakenOut(tabs: seq<Tab>, from: nat)
    requires Unique(tabs) && from < |tabs|
    ensures var rest := tabs[..from] + tabs[from + 1..];
      && Unique(rest) && !IsOpen(rest, tabs[from].id)
      && forall side, x :: OpenOn(rest, side, x) <==> x != tabs[from].id && OpenOn(tabs, side, x)
  {
    var rest := tabs[..from] + tabs[from + 1..];
    assert forall i :: 0 <= i < |rest| ==> rest[i] == tabs[if i < from then i else i + 1];
    forall i | 0 <= i < |rest| ensures rest[i].id != tabs[from].id {}
    forall side, x ensures OpenOn(rest, side, x) <==> x != tabs[from].id && OpenOn(tabs, side, x) {
      OthersStay(tabs, rest, from, side, x);
    }
  }

  lemma OthersStay(tabs: seq<Tab>, rest: seq<Tab>, from: nat, side: Side, x: Id)
    requires Unique(tabs) && from < |tabs| && rest == tabs[..from] + tabs[from + 1..]
    ensures OpenOn(rest, side, x) <==> x != tabs[from].id && OpenOn(tabs, side, x)
  {
    if OpenOn(rest, side, x) {
      var i :| 0 <= i < |rest| && rest[i].id == x && rest[i].side == side;
      assert rest[i] == tabs[if i < from then i else i + 1];
    }
    if x != tabs[from].id && OpenOn(tabs, side, x) {
      var i :| 0 <= i < |tabs| && tabs[i].id == x && tabs[i].side == side;
      assert tabs[i] == rest[if i < from then i else i - 1];
    }
  }

  lemma MovedResides(tabs: seq<Tab>, from: nat, to: nat, g: Side)
    requires Unique(tabs) && from < |tabs| && to < |tabs|
    ensures Resided(tabs, Moved(tabs, from, to, g), tabs[from].id, g)
  {
    TakenOut(tabs, from);
    assert IsOpen(tabs, tabs[from].id);
    InsertResides(tabs, tabs[..from] + tabs[from + 1..], to, tabs[from].(side := g));
  }

  lemma InsertResides(tabs: seq<Tab>, rest: seq<Tab>, to: nat, moved: Tab)
    requires Unique(rest) && to <= |rest| && !IsOpen(rest, moved.id) && IsOpen(tabs, moved.id)
    requires forall side, x :: OpenOn(rest, side, x) <==> x != moved.id && OpenOn(tabs, side, x)
    ensures Resided(tabs, rest[..to] + [moved] + rest[to..], moved.id, moved.side)
  {
    var r := rest[..to] + [moved] + rest[to..];
    InsertedAt(rest, to, moved);
    forall side, x ensures OpenOn(r, side, x) <==> if x == moved.id then side == moved.side else OpenOn(tabs, side, x) {
      if OpenOn(r, side, x) && x != moved.id {
        var i :| 0 <= i < |r| && r[i].id == x && r[i].side == side;
        assert r[i] == rest[if i < to then i else i - 1];
      }
      OpenOnIsSideOf(r, side, x);
    }
    forall x ensures IsOpen(r, x) <==> IsOpen(tabs, x) { OpenIsOnASide(r, x); OpenIsOnASide(tabs, x); }
  }

  lemma OpenIsOnASide(tabs: seq<Tab>, id: Id)
    ensures IsOpen(tabs, id) <==> OpenOn(tabs, Left, id) || OpenOn(tabs, Right, id)
  {
    if IsOpen(tabs, id) { assert OpenOn(tabs, tabs[FindTab(tabs, id)].side, id); }
  }

  lemma MappedResides(tabs: seq<Tab>, id: Id, g: Side)
    requires Unique(tabs) && IsOpen(tabs, id)
    ensures Resided(tabs, MapTab(tabs, id, (t: Tab) => t.(side := g)), id, g)
  {
    var r := MapTab(tabs, id, (t: Tab) => t.(side := g));
    forall side, x ensures OpenOn(r, side, x) <==> if x == id then side == g else OpenOn(tabs, side, x) {
      MappedOn(tabs, id, g, side, x);
    }
    forall x ensures IsOpen(r, x) <==> IsOpen(tabs, x) { FindSame(tabs, r, x); }
  }

  lemma MappedOn(tabs: seq<Tab>, id: Id, g: Side, side: Side, x: Id)
    requires Unique(tabs) && IsOpen(tabs, id)
    ensures OpenOn(MapTab(tabs, id, (t: Tab) => t.(side := g)), side, x) <==>
      if x == id then side == g else OpenOn(tabs, side, x)
  {
    var r := MapTab(tabs, id, (t: Tab) => t.(side := g));
    if x == id {
      assert r[FindTab(tabs, id)] == tabs[FindTab(tabs, id)].(side := g);
    } else if OpenOn(tabs, side, x) {
      var i :| 0 <= i < |tabs| && tabs[i].id == x && tabs[i].side == side;
      assert r[i] == tabs[i];
    }
  }

  /** Focus and shown tab after `id` went to side `g` and the strip is still split, or has collapsed. */
  lemma ResidedKeepsFocus(s: Store, next: seq<Tab>, id: Id, g: Side, shown: Shown)
    requires Focus(s) && Resided(s.tabs, next, id, g) && IsSplit(Collapse(next))
    requires shown.On(g) == Some(id)
    requires shown.left.Some? && IsOpen(s.tabs, shown.left.value)
    requires shown.right.Some? ==> IsOpen(s.tabs, shown.right.value)
    requires shown.right.Some? || g == Right
    ensures Focus(s.(tabs := Collapse(next), active := Some(id), shown := shown))
  {
    SplitHasBoth(next);
    OpenOnIsSideOf(next, g, id);
    assert IsOpen(next, id);
  }

  lemma CollapsedKeepsFocus(s: Store, next: seq<Tab>, id: Id)
    requires Unique(next) && IsOpen(next, id) && !IsSplit(Collapse(next))
    ensures var r := s.(tabs := Collapse(next), active := Some(id), shown := Shown(Some(id), None));
      Unique(r.tabs) && Focus(r) && OwnSides(r)
  {
    CollapseKeepsIds(next, id);
    var r := Collapse(next);
    forall i | 0 <= i < |r| ensures r[i].side == Left {}
    CollapseKeepsUnique(next);
  }

  lemma CollapseKeepsUnique(tabs: seq<Tab>)
    requires Unique(tabs)
    ensures Unique(Collapse(tabs))
  {}

  lemma ReorderKeepsFocus(s: Store, fromId: Id, toId: Id)
    requires Unique(s.tabs) && Focus(s)
    ensures Unique(ReorderTab(s, fromId, toId).tabs) && Focus(ReorderTab(s, fromId, toId))
    ensures IsOpen(s.tabs, fromId) && IsOpen(s.tabs, toId) && IsSplit(ReorderTab(s, fromId, toId).tabs) ==>
      OpenOn(ReorderTab(s, fromId, toId).tabs, SideOf(s.tabs, toId), fromId)
    ensures IsSplit(ReorderTab(s, fromId, toId).tabs) ==>
      OthersStayPut(s.tabs, ReorderTab(s, fromId, toId).tabs, fromId)
  {
    var from, to := FindTab(s.tabs, fromId), FindTab(s.tabs, toId);
    if from < |s.tabs| && to < |s.tabs| {
      MovedResides(s.tabs, from, to, s.tabs[to].side);
      DropKeepsFocus(s, Moved(s.tabs, from, to, s.tabs[to].side), fromId, s.tabs[to].side);
    }
  }

  /** The strip, the focus and the shown tabs after a drop onto a tab of group `g`. */
  function Dropped(s: Store, next: seq<Tab>, id: Id, g: Side): Store {
    s.(tabs := Collapse(next), active := Some(id),
       shown := if IsSplit(Collapse(next)) then s.shown.With(g, id) else Shown(Some(id), None))
  }

  lemma DropKeepsFocus(s: Store, next: seq<Tab>, id: Id, g: Side)
    requires Unique(s.tabs) && Focus(s) && Resided(s.tabs, next, id, g)
    ensures var r := Dropped(s, next, id, g);
      && Unique(r.tabs) && Focus(r)
      && (IsSplit(r.tabs) ==> OpenOn(r.tabs, g, id) && OthersStayPut(s.tabs, r.tabs, id))
  {
    CollapseKeepsUnique(next);
    if IsSplit(Collapse(next)) {
      SplitHasBoth(next);
      if g == Left { SplitAfterResiding(s.tabs, next, id, g); }
      ResidedKeepsFocus(s, next, id, g, s.shown.With(g, id));
    } else {
      assert IsOpen(next, id);
      CollapsedKeepsFocus(s, next, id);
    }
  }

  /**
   * The one action that may leave a group showing a tab of the other: dropping the tab a group shows onto
   * a tab of the other group, while the group it left stays. `moveTabToGroup` repairs this, `reorderTab` does not.
   */
  predicate StrandsShown(s: Store, fromId: Id, toId: Id) {
    && IsOpen(s.tabs, fromId) && IsOpen(s.tabs, toId)
    && SideOf(s.tabs, fromId) != SideOf(s.tabs, toId)
    && s.shown.On(SideOf(s.tabs, fromId)) == Some(fromId)
    && exists i :: 0 <= i < |s.tabs| && s.tabs[i].id != fromId && s.tabs[i].side == SideOf(s.tabs, fromId)
  }

  /** Across groups, the split survives exactly when the group left behind has another tab. */
  lemma StillSplit(tabs: seq<Tab>, next: seq<Tab>, fromId: Id, toId: Id)
    requires Unique(tabs) && IsOpen(tabs, fromId) && IsOpen(tabs, toId) && SideOf(tabs, fromId) != SideOf(tabs, toId)
    requires Resided(tabs, next, fromId, SideOf(tabs, toId))
    ensures IsSplit(Collapse(next)) <==>
      exists i :: 0 <= i < |tabs| && tabs[i].id != fromId && tabs[i].side == SideOf(tabs, fromId)
  {
    var g, left := SideOf(tabs, toId), SideOf(tabs, fromId);
    assert OpenOn(next, g, fromId);
    SideIsOpenOn(next, g);
    SideIsOpenOn(next, left);
    SplitHasBoth(next);
    if HasSide(next, left) {
      var x :| OpenOn(next, left, x);
      assert OpenOn(tabs, left, x);
    }
    if i :| 0 <= i < |tabs| && tabs[i].id != fromId && tabs[i].side == left {
      assert OpenOn(tabs, left, tabs[i].id);
      assert OpenOn(next, left, tabs[i].id);
    }
  }

  /** Within its group the drop changes nothing about sides. */
  lemma DropInGroupKeepsSides(s: Store, next: seq<Tab>, id: Id, g: Side)
    requires Unique(s.tabs) && Focus(s) && OwnSides(s) && Resided(s.tabs, next, id, g) && OpenOn(s.tabs, g, id)
    ensures OwnSides(Dropped(s, next, id, g))
  {
    OpenOnIsSideOf(s.tabs, Left, id);
    OpenOnIsSideOf(s.tabs, Right, id);
    if IsSplit(Collapse(next)) { SplitHasBoth(next); } else { CollapsedKeepsFocus(s, next, id); }
  }

  lemma DropAcrossKeepsSides(s: Store, next: seq<Tab>, id: Id, from: Side, g: Side)
    requires Unique(s.tabs) && Focus(s) && OwnSides(s) && Resided(s.tabs, next, id, g)
    requires from != g && OpenOn(s.tabs, from, id)
    ensures OwnSides(Dropped(s, next, id, g)) <==> !(IsSplit(Collapse(next)) && s.shown.On(from) == Some(id))
  {
    OpenOnIsSideOf(s.tabs, Left, id);
    OpenOnIsSideOf(s.tabs, Right, id);
    if IsSplit(Collapse(next)) { SplitHasBoth(next); } else { CollapsedKeepsFocus(s, next, id); }
  }

  lemma ReorderKeepsSidesUnlessStranded(s: Store, fromId: Id, toId: Id)
    requires Unique(s.tabs) && Focus(s) && OwnSides(s)
    ensures OwnSides(ReorderTab(s, fromId, toId)) <==> !StrandsShown(s, fromId, toId)
  {
    var from, to := FindTab(s.tabs, fromId), FindTab(s.tabs, toId);
    if from < |s.tabs| && to < |s.tabs| {
      var side, g := s.tabs[from].side, s.tabs[to].side;
      var next := Moved(s.tabs, from, to, g);
      MovedResides(s.tabs, from, to, g);
      assert OpenOn(s.tabs, side, fromId);
      if side == g {
        DropInGroupKeepsSides(s, next, fromId, g);
      } else {
        StillSplit(s.tabs, next, fromId, toId);
        DropAcrossKeepsSides(s, next, fromId, side, g);
      }
    }
  }

  /** Moving a tab to the other group leaves both groups showing members of their own, whatever they showed before. */
  lemma MoveKeepsFocus(s: Store, id: Id, to: Side)
    requires Unique(s.tabs) && Focus(s)
    ensures var (r, error) := MoveTabToGroup(s, id, to);
      && Unique(r.tabs) && Focus(r) && (OwnSides(s) ==> OwnSides(r))
      && (IsOpen(s.tabs, id) && SideOf(s.tabs, id) != to && error.None? ==>
            OwnSides(r) && r.active == Some(id) && OpenOn(r.tabs, if IsSplit(r.tabs) then to else Left, id))
      && (IsSplit(r.tabs) ==> OthersStayPut(s.tabs, r.tabs, id))
  {
    var (r, error) := MoveTabToGroup(s, id, to);
    if IsOpen(s.tabs, id) && SideOf(s.tabs, id) != to && error.None? {
      var next := MapTab(s.tabs, id, (t: Tab) => t.(side := to));
      MappedResides(s.tabs, id, to);
      CollapseKeepsUnique(next);
      if IsSplit(r.tabs) {
        SplitHasBoth(next);
        OpenOnIsSideOf(next, to, id);
        var from := SideOf(s.tabs, id);
        var kept := r.shown.On(from);
        assert kept.Some? && OpenOn(next, from, kept.value);
        OpenOnIsOpen(next, from, kept.value);
        ResidedKeepsFocus(s, next, id, to, r.shown);
      } else {
        assert IsOpen(next, id);
        CollapsedKeepsFocus(s, next, id);
      }
    }
  }

  /** A grid of at most two by two panes. */
  predicate Small(layout: Rows) {
    |layout| <= 2 && forall k :: 0 <= k < |layout| ==> |layout[k]| <= 2
  }

  /** When a move is refused, and for which reason; a refused move changes nothing, nor does one to where the tab is. */
  lemma MoveRefusedFor(s: Store, id: Id, to: Side)
    ensures var (r, error) := MoveTabToGroup(s, id, to);
      && (error == Some(NotFound) <==> !IsOpen(s.tabs, id))
      && (error == Some(NeedsTwoTabs) <==>
            IsOpen(s.tabs, id) && SideOf(s.tabs, id) == Left && to == Right && !IsSplit(s.tabs) && |s.tabs| < 2)
      && (error == Some(GridTooBig) <==>
            && IsOpen(s.tabs, id) && SideOf(s.tabs, id) == Left && to == Right && !IsSplit(s.tabs) && |s.tabs| >= 2
            && !Small(s.tabs[FindTab(s.tabs, id)].layout))
      && (error.Some? || SideOf(s.tabs, id) == to ==> r == s)
  {}

  /** The group a tab leaves goes on showing what it showed, or a neighbour of the tab if that was it. */
  lemma MovePassesOn(s: Store, id: Id, to: Side)
    requires IsOpen(s.tabs, id) && SideOf(s.tabs, id) != to
    ensures var (r, error) := MoveTabToGroup(s, id, to);
      var from := SideOf(s.tabs, id);
      error.None? && IsSplit(r.tabs) ==>
        && r.shown.On(from).Some?
        && (s.shown.On(from).Some? && OpenOn(r.tabs, from, s.shown.On(from).value) ==>
              r.shown.On(from) == s.shown.On(from))
        && (r.shown.On(from) != s.shown.On(from) ==>
              IsNeighbour(LeftOf(s.tabs, Some(id)), r.tabs, from, r.shown.On(from).value))
  {
    var (r, error) := MoveTabToGroup(s, id, to);
    if error.None? && IsSplit(r.tabs) {
      FindSame(s.tabs, r.tabs, id);
      SplitHasBoth(MapTab(s.tabs, id, (t: Tab) => t.(side := to)));
      assert r.tabs[FindTab(r.tabs, id)].side == to;
    }
  }

  /**
   * The first move into the right group makes the split, exactly when two tabs are open and the moved one
   * has a grid of at most 2x2; a refused move changes nothing.
   */
  lemma FirstMoveMakesTheSplit(s: Store, id: Id)
    requires Unique(s.tabs) && Focus(s) && !IsSplit(s.tabs) && IsOpen(s.tabs, id)
    ensures var (r, error) := MoveTabToGroup(s, id, Right);
      && (error.None? <==> |s.tabs| >= 2 && Small(s.tabs[FindTab(s.tabs, id)].layout))
      && (error.None? ==> IsSplit(r.tabs) && r.active == r.shown.right == Some(id) && OwnSides(r))
      && (error.Some? ==> r == s)
  {
    var (r, error) := MoveTabToGroup(s, id, Right);
    forall i | 0 <= i < |s.tabs| ensures s.tabs[i].side == Left {}
    if error.None? {
      MoveKeepsFocus(s, id, Right);
      FirstMoveSplits(s.tabs, id);
    }
  }

  lemma FirstMoveSplits(tabs: seq<Tab>, id: Id)
    requires Unique(tabs) && IsOpen(tabs, id) && |tabs| >= 2 && forall i :: 0 <= i < |tabs| ==> tabs[i].side == Left
    ensures IsSplit(Collapse(MapTab(tabs, id, (t: Tab) => t.(side := Right))))
  {
    var next := MapTab(tabs, id, (t: Tab) => t.(side := Right));
    var other := if FindTab(tabs, id) == 0 then 1 else 0;
    assert next[FindTab(tabs, id)].side == Right;
    assert next[other].side == Left;
  }

  lemma MovedPlaces(tabs: seq<Tab>, from: nat, to: nat, g: Side)
    requires from < |tabs| && to < |tabs|
    ensures var next := Moved(tabs, from, to, g);
      && |next| == |tabs| && next[to] == tabs[from].(side := g)
      && next[..to] + next[to + 1..] == tabs[..from] + tabs[from + 1..]
  {
    var rest, next := tabs[..from] + tabs[from + 1..], Moved(tabs, from, to, g);
    assert next[..to] == rest[..to] && next[to + 1..] == rest[to..];
    assert rest[..to] + rest[to..] == rest;
  }

  lemma MovedIsFound(tabs: seq<Tab>, from: nat, to: nat, g: Side, r: seq<Tab>)
    requires Unique(tabs) && from < |tabs| && to < |tabs| && r == Collapse(Moved(tabs, from, to, g))
    ensures FindTab(r, tabs[from].id) == to
  {
    var next := Moved(tabs, from, to, g);
    MovedResides(tabs, from, to, g);
    MovedPlaces(tabs, from, to, g);
    FoundAt(next, to);
    CollapseKeepsIds(next, tabs[from].id);
  }

  /** The strip without the tab at `i`, sides aside. */
  function OthersThan(tabs: seq<Tab>, i: nat): seq<Tab>
    requires i < |tabs|
  {
    AllLeft(tabs[..i] + tabs[i + 1..])
  }

  lemma OthersOfMoved(tabs: seq<Tab>, from: nat, to: nat, g: Side, r: seq<Tab>)
    requires from < |tabs| && to < |tabs| && r == Collapse(Moved(tabs, from, to, g))
    ensures |r| == |tabs| && OthersThan(r, to) == OthersThan(tabs, from)
  {
    MovedPlaces(tabs, from, to, g);
    SameButOne(Moved(tabs, from, to, g), r, to);
  }

  /** A dropped tab lands in focus at the index of the one it was dropped on. */
  lemma ReorderLands(s: Store, fromId: Id, toId: Id)
    requires Unique(s.tabs) && IsOpen(s.tabs, fromId) && IsOpen(s.tabs, toId)
    ensures var r := ReorderTab(s, fromId, toId);
      FindTab(r.tabs, fromId) == FindTab(s.tabs, toId) && r.active == Some(fromId)
  {
    var from, to, r := FindTab(s.tabs, fromId), FindTab(s.tabs, toId), ReorderTab(s, fromId, toId);
    ReorderIs(s, fromId, toId, from, to);
    MovedIsFound(s.tabs, from, to, s.tabs[to].side, r.tabs);
  }

  /** And the others keep their order. */
  lemma ReorderPlaces(s: Store, fromId: Id, toId: Id)
    requires Unique(s.tabs) && IsOpen(s.tabs, fromId) && IsOpen(s.tabs, toId)
    ensures var r := ReorderTab(s, fromId, toId);
      && |r.tabs| == |s.tabs|
      && OthersThan(r.tabs, FindTab(s.tabs, toId)) == OthersThan(s.tabs, FindTab(s.tabs, fromId))
  {
    var from, to, r := FindTab(s.tabs, fromId), FindTab(s.tabs, toId), ReorderTab(s, fromId, toId);
    ReorderIs(s, fromId, toId, from, to);
    OthersOfMoved(s.tabs, from, to, s.tabs[to].side, r.tabs);
  }

  lemma ReorderIs(s: Store, fromId: Id, toId: Id, from: nat, to: nat)
    requires from == FindTab(s.tabs, fromId) < |s.tabs| && to == FindTab(s.tabs, toId) < |s.tabs|
    ensures var r := ReorderTab(s, fromId, toId);
      r.tabs == Collapse(Moved(s.tabs, from, to, s.tabs[to].side)) && r.active == Some(fromId)
  {}

  lemma FoundAt(tabs: seq<Tab>, i: nat)
    requires Unique(tabs) && i < |tabs|
    ensures FindTab(tabs, tabs[i].id) == i
  {
    assert FindTab(tabs, tabs[i].id) <= i;
  }

  lemma SameButOne(a: seq<Tab>, b: seq<Tab>, i: nat)
    requires i < |a| && b == Collapse(a)
    ensures AllLeft(b[..i] + b[i + 1..]) == AllLeft(a[..i] + a[i + 1..])
  {}
}
