/**
 * The workspace as values (src/store/useTabStore.ts): the tab strip, its two split groups, the tab each
 * group shows, and one transition for every action of the store. `killed` are the panes whose connection
 * was closed, `detached` those handed to another window.
 */
module TabModel {
  import opened Basics
  import opened PaneGrid

  datatype Side = Left | Right {
    function Other(): Side { if this == Left then Right else Left }
  }

  datatype Tab = Tab(id: Id, side: Side, panes: seq<Id>, layout: Rows, activePane: Id)

  datatype Shown = Shown(left: Option<Id>, right: Option<Id>) {
    function On(side: Side): Option<Id> {
      if side == Left then left else right
    }

    /** The other group goes on showing what it showed. */
    function With(side: Side, id: Id): (r: Shown)
      ensures r.On(side) == Some(id) && r.On(side.Other()) == On(side.Other())
    {
      if side == Left then Shown(Some(id), right) else Shown(left, Some(id))
    }
  }

  datatype Store = Store(tabs: seq<Tab>, active: Option<Id>, shown: Shown, killed: set<Id>, detached: set<Id>)

  const EMPTY := Store([], None, Shown(None, None), {}, {})

  // ---- the strip ----

  /** `findIndex` by id; the length stands for -1. */
  function FindTab(tabs: seq<Tab>, id: Id): (i: nat)
    ensures i <= |tabs| && (i < |tabs| ==> tabs[i].id == id)
    ensures forall j :: 0 <= j < i ==> tabs[j].id != id
  {
    if tabs == [] || tabs[0].id == id then 0 else 1 + FindTab(tabs[1..], id)
  }

  predicate IsOpen(tabs: seq<Tab>, id: Id) { FindTab(tabs, id) < |tabs| }

  function SideOf(tabs: seq<Tab>, id: Id): Side
    requires IsOpen(tabs, id)
  {
    tabs[FindTab(tabs, id)].side
  }

  predicate HasSide(tabs: seq<Tab>, side: Side) { exists i :: 0 <= i < |tabs| && tabs[i].side == side }

  /** Some tab of this group has this id. */
  predicate OpenOn(tabs: seq<Tab>, side: Side, id: Id) {
    exists i :: 0 <= i < |tabs| && tabs[i].id == id && tabs[i].side == side
  }

  predicate IsSplit(tabs: seq<Tab>) { HasSide(tabs, Right) }

  function AllLeft(tabs: seq<Tab>): (r: seq<Tab>)
    ensures |r| == |tabs|
  {
    seq(|tabs|, i requires 0 <= i < |tabs| => tabs[i].(side := Left))
  }

  /** A split needs tabs on both sides. */
  function Collapse(tabs: seq<Tab>): (r: seq<Tab>)
    ensures |r| == |tabs|
  {
    if HasSide(tabs, Left) && HasSide(tabs, Right) then tabs else AllLeft(tabs)
  }

  lemma {:induction false} FindSame(a: seq<Tab>, b: seq<Tab>, id: Id)
    requires |a| == |b| && forall i :: 0 <= i < |a| ==> a[i].id == b[i].id
    ensures FindTab(a, id) == FindTab(b, id)
  {
    if FindTab(a, id) < |a| { assert a[FindTab(a, id)].id == b[FindTab(a, id)].id; }
    if FindTab(b, id) < |b| { assert a[FindTab(b, id)].id == b[FindTab(b, id)].id; }
  }

  /** After collapsing, a split strip has tabs on both sides. */
  lemma SplitHasBoth(tabs: seq<Tab>)
    ensures IsSplit(Collapse(tabs)) ==> Collapse(tabs) == tabs && HasSide(tabs, Left) && HasSide(tabs, Right)
  {}

  function Filter(tabs: seq<Tab>, keep: Tab -> bool): (r: seq<Tab>)
    ensures forall t :: t in r <==> t in tabs && keep(t)
  {
    if tabs == [] then [] else (if keep(tabs[0]) then [tabs[0]] else []) + Filter(tabs[1..], keep)
  }

  lemma {:induction false} FilterConcat(a: seq<Tab>, b: seq<Tab>, keep: Tab -> bool)
    ensures Filter(a + b, keep) == Filter(a, keep) + Filter(b, keep)
    decreases |a|
  {
    if a == [] {
      assert a + b == b;
    } else {
      FilterConcat(a[1..], b, keep);
      FirstOfConcat(a, b);
      PlusAssociates(if keep(a[0]) then [a[0]] else [], Filter(a[1..], keep), Filter(b, keep));
    }
  }

  lemma FilterDrops(a: seq<Tab>, t: Tab, b: seq<Tab>, keep: Tab -> bool)
    requires !keep(t)
    ensures Filter(a + [t] + b, keep) == Filter(a + b, keep)
  {
    FilterConcat(a + [t], b, keep);
    FilterConcat(a, [t], keep);
    FilterConcat(a, b, keep);
    FilterNone([t], keep);
    assert Filter(a, keep) + [] == Filter(a, keep);
  }

  lemma {:induction false} FilterAll(tabs: seq<Tab>, keep: Tab -> bool)
    requires forall t :: t in tabs ==> keep(t)
    ensures Filter(tabs, keep) == tabs
  {
    if tabs != [] { FilterAll(tabs[1..], keep); }
  }

  lemma {:induction false} FilterNone(tabs: seq<Tab>, keep: Tab -> bool)
    requires forall i :: 0 <= i < |tabs| ==> !keep(tabs[i])
    ensures Filter(tabs, keep) == []
  {
    if tabs != [] { FilterNone(tabs[1..], keep); }
  }

  function MapTab(tabs: seq<Tab>, id: Id, f: Tab -> Tab): (r: seq<Tab>)
    ensures |r| == |tabs|
  {
    seq(|tabs|, i requires 0 <= i < |tabs| => if tabs[i].id == id then f(tabs[i]) else tabs[i])
  }

  /** The panes of these tabs. */
  function Live(tabs: seq<Tab>): set<Id> {
    set t, p | t in tabs && p in t.panes :: p
  }

  /** No two tabs with one id. */
  ghost predicate Unique(tabs: seq<Tab>) {
    forall i, j :: 0 <= i < j < |tabs| ==> tabs[i].id != tabs[j].id
  }

  /** Neither ids nor sides change. */
  ghost predicate SameStrip(a: seq<Tab>, b: seq<Tab>) {
    |a| == |b| && forall i :: 0 <= i < |a| ==> a[i].id == b[i].id && a[i].side == b[i].side
  }

  // ---- which tab to show next ----

  /** `id` is the last of `prev` that is a member of the group. */
  predicate IsNearestLeft(prev: seq<Tab>, tabs: seq<Tab>, side: Side, id: Id) {
    exists j :: 0 <= j < |prev| && prev[j].id == id && OpenOn(tabs, side, id)
      && forall k :: j < k < |prev| ==> !OpenOn(tabs, side, prev[k].id)
  }

  function NearestLeft(prev: seq<Tab>, tabs: seq<Tab>, side: Side): (r: Option<Id>)
    ensures r.Some? ==> IsNearestLeft(prev, tabs, side, r.value) && OpenOn(tabs, side, r.value)
    ensures r.None? <==> forall k :: 0 <= k < |prev| ==> !OpenOn(tabs, side, prev[k].id)
  {
    if prev == [] then None
    else
      var last := |prev| - 1;
      if OpenOn(tabs, side, prev[last].id) then Some(prev[last].id)
      else
        LeftOfLast(prev, tabs, side);
        assert prev == prev[..last] + [prev[last]];
        NearestLeft(prev[..last], tabs, side)
  }

  lemma LeftOfLast(prev: seq<Tab>, tabs: seq<Tab>, side: Side)
    requires prev != [] && !OpenOn(tabs, side, prev[|prev| - 1].id)
    ensures forall id :: IsNearestLeft(prev[..|prev| - 1], tabs, side, id) ==> IsNearestLeft(prev, tabs, side, id)
  {
    var rest := prev[..|prev| - 1];
    assert forall k :: 0 <= k < |rest| ==> rest[k] == prev[k];
    forall id | IsNearestLeft(rest, tabs, side, id) ensures IsNearestLeft(prev, tabs, side, id) {
      var j :| 0 <= j < |rest| && rest[j].id == id && OpenOn(tabs, side, id)
        && forall k :: j < k < |rest| ==> !OpenOn(tabs, side, rest[k].id);
      assert prev[j].id == id;
    }
  }

  /** `id` is the group's first member. */
  predicate IsFirstOn(tabs: seq<Tab>, side: Side, id: Id) {
    exists i :: 0 <= i < |tabs| && tabs[i].id == id && tabs[i].side == side
      && forall j :: 0 <= j < i ==> tabs[j].side != side
  }

  function FirstOn(tabs: seq<Tab>, side: Side): (r: Id)
    requires HasSide(tabs, side)
    ensures IsFirstOn(tabs, side, r)
  {
    if tabs[0].side == side then tabs[0].id
    else
      assert HasSide(tabs[1..], side) by {
        var i :| 0 <= i < |tabs| && tabs[i].side == side;
        assert tabs[1..][i - 1].side == side;
      }
      var r := FirstOn(tabs[1..], side);
      assert IsFirstOn(tabs, side, r) by {
        var i :| 0 <= i < |tabs[1..]| && tabs[1..][i].id == r && tabs[1..][i].side == side
          && forall j :: 0 <= j < i ==> tabs[1..][j].side != side;
        assert tabs[i + 1].id == r && forall j :: 1 <= j < i + 1 ==> tabs[j] == tabs[1..][j - 1];
      }
      r
  }

  /** Who takes over in a group: the last of those on the left that belongs to it; if none does, its leading tab. */
  predicate IsNeighbour(left: seq<Tab>, tabs: seq<Tab>, side: Side, id: Id) {
    || IsNearestLeft(left, tabs, side, id)
    || ((forall k :: 0 <= k < |left| ==> !OpenOn(tabs, side, left[k].id)) && IsFirstOn(tabs, side, id))
  }

  /** What lies left of a tab; of an unknown one, nothing. */
  function LeftOf(tabs: seq<Tab>, id: Option<Id>): seq<Tab> {
    if id.Some? && IsOpen(tabs, id.value) then tabs[..FindTab(tabs, id.value)] else []
  }

  function Neighbour(prev: seq<Tab>, id: Option<Id>, tabs: seq<Tab>, side: Side): (r: Id)
    requires HasSide(tabs, side)
    ensures OpenOn(tabs, side, r) && IsNeighbour(LeftOf(prev, id), tabs, side, r)
  {
    var before := NearestLeft(LeftOf(prev, id), tabs, side);
    if before.Some? then before.value else FirstOn(tabs, side)
  }

  function Pick(prev: seq<Tab>, tabs: seq<Tab>, side: Side, wanted: Option<Id>): (r: Option<Id>)
    ensures r.Some? <==> HasSide(tabs, side)
    ensures r.Some? ==> OpenOn(tabs, side, r.value)
    ensures wanted.Some? && OpenOn(tabs, side, wanted.value) ==> r == wanted
    ensures r.Some? && r != wanted ==> IsNeighbour(LeftOf(prev, wanted), tabs, side, r.value)
  {
    if !HasSide(tabs, side) then None
    else if wanted.Some? && OpenOn(tabs, side, wanted.value) then wanted
    else Some(Neighbour(prev, wanted, tabs, side))
  }

  function OrElse(a: Option<Id>, b: Option<Id>): Option<Id> { if a.Some? then a else b }

  /** Collapse, then point both groups and the focus at tabs that are still there. */
  function AfterRemoval(s: Store, remaining: seq<Tab>): Store {
    var tabs := Collapse(remaining);
    var shown := Shown(Pick(s.tabs, tabs, Left, s.shown.left), Pick(s.tabs, tabs, Right, s.shown.right));
    var active :=
      if s.active.Some? && IsOpen(tabs, s.active.value) then s.active
      else
        var oldSide := FocusSide(s);
        OrElse(Pick(s.tabs, tabs, oldSide, s.active), OrElse(shown.left, shown.right));
    s.(tabs := tabs, active := active, shown := shown)
  }

  // ---- actions on tabs ----

  /** Where a new tab opens unless told: the group in focus. */
  function FocusSide(s: Store): Side {
    if s.active.Some? && IsOpen(s.tabs, s.active.value) then SideOf(s.tabs, s.active.value) else Left
  }

  function NewTab(s: Store, id: Id, pane: Id, side: Option<Side>, after: Option<Id>): Store {
    var g := if side.Some? then side.value else FocusSide(s);
    var tab := Tab(id, g, [pane], [[pane]], pane);
    var at := if after.Some? && IsOpen(s.tabs, after.value) then FindTab(s.tabs, after.value) + 1 else |s.tabs|;
    s.(tabs := s.tabs[..at] + [tab] + s.tabs[at..], active := Some(id), shown := s.shown.With(g, id))
  }

  function CloseTab(s: Store, id: Id): Store {
    var i := FindTab(s.tabs, id);
    var closing := if i < |s.tabs| then Live([s.tabs[i]]) else {};
    AfterRemoval(s, Filter(s.tabs, (t: Tab) => t.id != id)).(killed := s.killed + closing)
  }

  function CloseOtherTabs(s: Store, id: Id): Store {
    var closing := Live(Filter(s.tabs, (t: Tab) => t.id != id));
    AfterRemoval(s, Filter(s.tabs, (t: Tab) => t.id == id)).(killed := s.killed + closing)
  }

  /** Where the tabs to the right of this one begin; with an unknown id, at the front. */
  function IndexAfter(tabs: seq<Tab>, id: Id): (n: nat)
    ensures n <= |tabs|
  {
    if FindTab(tabs, id) < |tabs| then FindTab(tabs, id) + 1 else 0
  }

  function CloseTabsToRight(s: Store, id: Id): Store {
    var n := IndexAfter(s.tabs, id);
    AfterRemoval(s, s.tabs[..n]).(killed := s.killed + Live(s.tabs[n..]))
  }

  function SetActiveTab(s: Store, id: Id): Store {
    if !IsOpen(s.tabs, id) then s
    else s.(active := Some(id), shown := s.shown.With(SideOf(s.tabs, id), id))
  }

  function ActiveIndex(s: Store): int {
    if s.active.Some? && IsOpen(s.tabs, s.active.value) then FindTab(s.tabs, s.active.value) else -1
  }

  function NextTab(s: Store): Store {
    if s.tabs == [] then s else SetActiveTab(s, s.tabs[(ActiveIndex(s) + 1) % |s.tabs|].id)
  }

  function PrevTab(s: Store): Store {
    if s.tabs == [] then s else SetActiveTab(s, s.tabs[(ActiveIndex(s) - 1 + |s.tabs|) % |s.tabs|].id)
  }

  function GoToTab(s: Store, index: int): Store {
    if 0 <= index < |s.tabs| then SetActiveTab(s, s.tabs[index].id) else s
  }

  /** Take out the tab at `from`, put it in at `to` (an index of the old strip) on side `g`. */
  function Moved(tabs: seq<Tab>, from: nat, to: nat, g: Side): seq<Tab>
    requires from < |tabs| && to < |tabs|
  {
    var rest := tabs[..from] + tabs[from + 1..];
    rest[..to] + [tabs[from].(side := g)] + rest[to..]
  }

  function ReorderTab(s: Store, fromId: Id, toId: Id): Store {
    var from, to := FindTab(s.tabs, fromId), FindTab(s.tabs, toId);
    if from == |s.tabs| || to == |s.tabs| then s
    else
      var g := s.tabs[to].side;
      var next := Collapse(Moved(s.tabs, from, to, g));
      s.(tabs := next, active := Some(fromId),
         shown := if IsSplit(next) then s.shown.With(g, fromId) else Shown(Some(fromId), None))
  }

  datatype MoveError = NotFound | NeedsTwoTabs | GridTooBig

  function MoveTabToGroup(s: Store, id: Id, to: Side): (Store, Option<MoveError>) {
    if !IsOpen(s.tabs, id) then (s, Some(NotFound))
    else
      var tab := s.tabs[FindTab(s.tabs, id)];
      if tab.side == to then (s, None)
      else if to == Right && !IsSplit(s.tabs) && |s.tabs| < 2 then (s, Some(NeedsTwoTabs))
      else if to == Right && !IsSplit(s.tabs) && !Fits2x2(tab.layout) then (s, Some(GridTooBig))
      else
        var tabs := Collapse(MapTab(s.tabs, id, (t: Tab) => t.(side := to)));
        if !IsSplit(tabs) then (s.(tabs := tabs, active := Some(id), shown := Shown(Some(id), None)), None)
        else
          assert IsOpen(tabs, id) by { FindSame(s.tabs, tabs, id); }
          assert HasSide(tabs, tab.side) by { SplitHasBoth(MapTab(s.tabs, id, (t: Tab) => t.(side := to))); }
          var left := s.shown.On(tab.side);
          var stays := if left.Some? && OpenOn(tabs, tab.side, left.value) then left.value
                       else Neighbour(s.tabs, Some(id), tabs, tab.side);
          var shown := s.shown.With(tab.side, stays).With(SideOf(tabs, id), id);
          (s.(tabs := tabs, active := Some(id), shown := shown), None)
  }

  function UnsplitTabs(s: Store): Store {
    s.(tabs := AllLeft(s.tabs), shown := Shown(OrElse(s.active, s.shown.left), None))
  }

  function DetachTab(s: Store, id: Id): Store {
    if !IsOpen(s.tabs, id) then s
    else
      var leaving := Live([s.tabs[FindTab(s.tabs, id)]]);
      AfterRemoval(s, Filter(s.tabs, (t: Tab) => t.id != id)).(detached := s.detached + leaving)
  }

  function AdoptTab(s: Store, tab: Tab): Store {
    s.(tabs := s.tabs + [tab.(side := Left)], active := Some(tab.id), shown := s.shown.With(Left, tab.id))
  }

  // ---- actions on panes ----

  function MaxCols(tabs: seq<Tab>): nat { if IsSplit(tabs) then 2 else MAX_COLS }

  function MaxPanes(tabs: seq<Tab>): nat { if IsSplit(tabs) then 4 else MAX_PANES }

  function SplitTab(t: Tab, dir: Direction, newId: Id, maxPanes: nat, maxCols: nat): Tab {
    if |t.panes| >= maxPanes then t
    else
      var layout := InsertPane(t.layout, t.activePane, newId, dir, maxCols);
      if layout.None? then t else t.(panes := t.panes + [newId], activePane := newId, layout := layout.value)
  }

  function SplitPane(s: Store, id: Id, dir: Direction, newId: Id): Store {
    s.(tabs := MapTab(s.tabs, id, (t: Tab) => SplitTab(t, dir, newId, MaxPanes(s.tabs), MaxCols(s.tabs))))
  }

  function ShrinkTab(t: Tab, pane: Id): Tab {
    var panes := Without(t.panes, pane);
    t.(panes := panes, layout := RemovePane(t.layout, pane),
       activePane := if t.activePane == pane && panes != [] then panes[0] else t.activePane)
  }

  function ClosePane(s: Store, id: Id, pane: Id): Store {
    var s1 := s.(killed := s.killed + {pane});
    if IsOpen(s.tabs, id) && |s.tabs[FindTab(s.tabs, id)].panes| == 1 then CloseTab(s1, id)
    else s1.(tabs := MapTab(s.tabs, id, (t: Tab) => ShrinkTab(t, pane)))
  }

  function SetActivePane(s: Store, id: Id, pane: Id): Store {
    s.(tabs := MapTab(s.tabs, id, (t: Tab) => t.(activePane := pane)))
  }
}
