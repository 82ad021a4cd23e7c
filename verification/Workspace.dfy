/**
 * Runs of the workspace: every legal action keeps the focus, the grids and the account of the panes, so
 * every reachable workspace has them.
 */
module Workspace {
  import opened Basics
  import opened PaneGrid
  import opened TabModel
  import opened TabRuns
  import opened TabPanes

  datatype Op =
    | New(id: Id, pane: Id, side: Option<Side>, after: Option<Id>)
    | Close(id: Id)
    | CloseOthers(id: Id)
    | CloseRight(id: Id)
    | Activate(id: Id)
    | Next
    | Prev
    | GoTo(index: int)
    | Reorder(fromId: Id, toId: Id)
    | MoveTo(id: Id, to: Side)
    | Unsplit
    | Detach(id: Id)
    | Adopt(tab: Tab)
    | Split(id: Id, dir: Direction, pane: Id)
    | ClosePaneOf(id: Id, pane: Id)
    | FocusPane(id: Id, pane: Id)

  function Step(s: Store, op: Op): Store {
    match op
    case New(id, pane, side, after) => NewTab(s, id, pane, side, after)
    case Close(id) => CloseTab(s, id)
    case CloseOthers(id) => CloseOtherTabs(s, id)
    case CloseRight(id) => CloseTabsToRight(s, id)
    case Activate(id) => SetActiveTab(s, id)
    case Next => NextTab(s)
    case Prev => PrevTab(s)
    case GoTo(index) => GoToTab(s, index)
    case Reorder(fromId, toId) => ReorderTab(s, fromId, toId)
    case MoveTo(id, side) => MoveTabToGroup(s, id, side).0
    case Unsplit => UnsplitTabs(s)
    case Detach(id) => DetachTab(s, id)
    case Adopt(tab) => AdoptTab(s, tab)
    case Split(id, dir, pane) => SplitPane(s, id, dir, pane)
    case ClosePaneOf(id, pane) => ClosePane(s, id, pane)
    case FocusPane(id, pane) => SetActivePane(s, id, pane)
  }

  /** Every pane there ever was. */
  function Known(s: Store): set<Id> { Live(s.tabs) + s.killed + s.detached }

  predicate PaneOf(tabs: seq<Tab>, id: Id, pane: Id) {
    IsOpen(tabs, id) && pane in tabs[FindTab(tabs, id)].panes
  }

  /**
   * New ids are new; the right group is asked for only while it exists; a tab comes from another window
   * well formed; a pane is closed or focused in its own tab.
   */
  ghost predicate Legal(s: Store, op: Op) {
    match op
    case New(id, pane, side, _) => !IsOpen(s.tabs, id) && pane !in Known(s) && (side == Some(Right) ==> IsSplit(s.tabs))
    case Adopt(tab) => !IsOpen(s.tabs, tab.id) && TabOk(tab) && PaneSet(tab) !! Known(s)
    case Split(_, _, pane) => pane !in Known(s)
    case ClosePaneOf(id, pane) => PaneOf(s.tabs, id, pane)
    case FocusPane(id, pane) => PaneOf(s.tabs, id, pane)
    case _ => true
  }

  ghost predicate Inv(s: Store) {
    Unique(s.tabs) && Focus(s) && GridsOk(s.tabs) && Accounted(s)
  }

  /** The panes an action brings in. */
  function Added(s: Store, op: Op): set<Id> {
    match op
    case New(_, pane, _, _) => {pane}
    case Adopt(tab) => PaneSet(tab)
    case Split(_, _, pane) => if Step(s, op).tabs == s.tabs then {} else {pane}
    case _ => {}
  }

  /** No pane is forgotten, none comes back, and what is killed or handed over stays so. */
  ghost predicate Conserves(s: Store, r: Store, added: set<Id>) {
    Known(r) == Known(s) + added && s.killed <= r.killed && s.detached <= r.detached
  }

  /** The focus stays right, and groups that show members of their own go on doing so. */
  ghost predicate KeepsFocus(s: Store, r: Store) {
    Unique(r.tabs) && Focus(r) && (OwnSides(s) ==> OwnSides(r))
  }

  /** The grids are right and the account of the panes balances. */
  ghost predicate Balances(s: Store, r: Store, added: set<Id>) {
    GridsOk(r.tabs) && Accounted(r) && Conserves(s, r, added)
  }

  // ---- focus ----

  lemma RemovalsKeepFocus(s: Store, remaining: seq<Tab>)
    requires Unique(s.tabs) && Focus(s) && Unique(remaining) && forall t :: t in remaining ==> t in s.tabs
    ensures var r := AfterRemoval(s, remaining); Unique(r.tabs) && Focus(r) && OwnSides(r)
  {
    RemovalKeepsFocus(s, remaining);
    RemovalRepairsSides(s, remaining);
    CollapseKeepsUnique(remaining);
  }

  lemma CloseKeepsFocus(s: Store, id: Id)
    requires Unique(s.tabs) && Focus(s)
    ensures KeepsFocus(s, CloseTab(s, id)) && OwnSides(CloseTab(s, id))
    ensures KeepsFocus(s, DetachTab(s, id))
  {
    var others := (t: Tab) => t.id != id;
    FilterKeepsUnique(s.tabs, others);
    RemovalsKeepFocus(s, Filter(s.tabs, others));
  }

  lemma CloseOthersKeepsFocus(s: Store, id: Id)
    requires Unique(s.tabs) && Focus(s)
    ensures KeepsFocus(s, CloseOtherTabs(s, id))
  {
    var same := (t: Tab) => t.id == id;
    FilterKeepsUnique(s.tabs, same);
    RemovalsKeepFocus(s, Filter(s.tabs, same));
  }

  lemma CloseRightKeepsFocus(s: Store, id: Id)
    requires Unique(s.tabs) && Focus(s)
    ensures KeepsFocus(s, CloseTabsToRight(s, id))
  {
    var n := IndexAfter(s.tabs, id);
    RemovalsKeepFocus(s, s.tabs[..n]);
  }

  lemma PanesKeepFocus(s: Store, op: Op)
    requires Inv(s) && Legal(s, op) && ActsOnPane(op)
    ensures KeepsFocus(s, Step(s, op))
  {
    var r := Step(s, op);
    match op {
      case Split(id, dir, pane) =>
        SplitPaneOk(s, id, dir, pane);
        SameStripKeepsFocus(s, r.tabs);
      case ClosePaneOf(id, pane) =>
        var s1 := s.(killed := s.killed + {pane});
        if |s.tabs[FindTab(s.tabs, id)].panes| == 1 {
          CloseKeepsFocus(s1, id);
        } else {
          ShrinkOk(s, id, pane);
          SameStripKeepsFocus(s1, r.tabs);
        }
      case FocusPane(id, pane) =>
        FocusPaneOk(s, id, pane);
        SameStripKeepsFocus(s, r.tabs);
    }
  }

  predicate Removes(op: Op) { op.Close? || op.CloseOthers? || op.CloseRight? || op.Detach? }

  predicate Activates(op: Op) { op.Activate? || op.Next? || op.Prev? || op.GoTo? }

  predicate ActsOnPane(op: Op) { op.Split? || op.ClosePaneOf? || op.FocusPane? }

  lemma RemovingKeepsFocus(s: Store, op: Op)
    requires Unique(s.tabs) && Focus(s) && Removes(op)
    ensures KeepsFocus(s, Step(s, op))
  {
    if op.Close? || op.Detach? {
      CloseKeepsFocus(s, op.id);
    } else if op.CloseOthers? {
      CloseOthersKeepsFocus(s, op.id);
    } else {
      CloseRightKeepsFocus(s, op.id);
    }
  }

  lemma ActivateKeepsFocus(s: Store, id: Id)
    requires Unique(s.tabs) && Focus(s)
    ensures KeepsFocus(s, SetActiveTab(s, id))
  {
    SetActiveKeepsFocus(s, id);
  }

  lemma GoToKeepsFocus(s: Store, index: int)
    requires Unique(s.tabs) && Focus(s)
    ensures KeepsFocus(s, GoToTab(s, index))
  {
    if 0 <= index < |s.tabs| { ActivateKeepsFocus(s, s.tabs[index].id); }
  }

  lemma NextKeepsFocus(s: Store)
    requires Unique(s.tabs) && Focus(s)
    ensures KeepsFocus(s, NextTab(s))
  {
    if s.tabs != [] { ActivateKeepsFocus(s, s.tabs[(ActiveIndex(s) + 1) % |s.tabs|].id); }
  }

  lemma PrevKeepsFocus(s: Store)
    requires Unique(s.tabs) && Focus(s)
    ensures KeepsFocus(s, PrevTab(s))
  {
    if s.tabs != [] { ActivateKeepsFocus(s, s.tabs[(ActiveIndex(s) - 1 + |s.tabs|) % |s.tabs|].id); }
  }

  lemma ActivatingKeepsFocus(s: Store, op: Op)
    requires Unique(s.tabs) && Focus(s) && Activates(op)
    ensures KeepsFocus(s, Step(s, op))
  {
    if op.Activate? {
      ActivateKeepsFocus(s, op.id);
    } else if op.Next? {
      NextKeepsFocus(s);
    } else if op.Prev? {
      PrevKeepsFocus(s);
    } else {
      GoToKeepsFocus(s, op.index);
    }
  }

  lemma ArrangingKeepsFocus(s: Store, op: Op)
    requires Inv(s) && Legal(s, op) && !Removes(op) && !Activates(op) && !ActsOnPane(op) && !op.Reorder?
    ensures KeepsFocus(s, Step(s, op))
  {
    match op {
      case New(id, pane, side, after) => NewTabKeepsFocus(s, id, pane, side, after);
      case MoveTo(id, side) => MoveKeepsFocus(s, id, side);
      case Unsplit => UnsplitKeepsFocus(s);
      case Adopt(tab) => AdoptKeepsFocus(s, tab);
    }
  }

  lemma StepKeepsFocus(s: Store, op: Op)
    requires Inv(s) && Legal(s, op)
    ensures Unique(Step(s, op).tabs) && Focus(Step(s, op))
    ensures OwnSides(s) ==> (OwnSides(Step(s, op)) <==> !(op.Reorder? && StrandsShown(s, op.fromId, op.toId)))
  {
    if op.Reorder? {
      ReorderKeepsFocus(s, op.fromId, op.toId);
      if OwnSides(s) { ReorderKeepsSidesUnlessStranded(s, op.fromId, op.toId); }
    } else if Removes(op) {
      RemovingKeepsFocus(s, op);
    } else if Activates(op) {
      ActivatingKeepsFocus(s, op);
    } else if ActsOnPane(op) {
      PanesKeepFocus(s, op);
    } else {
      ArrangingKeepsFocus(s, op);
    }
  }

  // ---- panes ----

  /** Some tabs go and their panes are killed, or handed over: the account balances. */
  lemma RemovalConserves(s: Store, stay: seq<Tab>, go: seq<Tab>)
    requires Unique(s.tabs) && GridsOk(s.tabs) && Accounted(s)
    requires forall t :: t in s.tabs <==> t in stay || t in go
    requires forall t, u :: t in stay && u in go ==> t.id != u.id
    ensures var a := AfterRemoval(s, stay);
      var killing, handing := a.(killed := s.killed + Live(go)), a.(detached := s.detached + Live(go));
      Balances(s, killing, {}) && Balances(s, handing, {})
  {
    FewerTabsOk(s.tabs, stay);
    PanesDivide(s.tabs, stay, go);
  }

  lemma OneTabGoes(s: Store, id: Id)
    requires Unique(s.tabs) && GridsOk(s.tabs) && Accounted(s) && IsOpen(s.tabs, id)
    ensures var a := AfterRemoval(s, Filter(s.tabs, (t: Tab) => t.id != id));
      var gone := Live([s.tabs[FindTab(s.tabs, id)]]);
      var killing, handing := a.(killed := s.killed + gone), a.(detached := s.detached + gone);
      Balances(s, killing, {}) && Balances(s, handing, {})
  {
    var k := FindTab(s.tabs, id);
    forall t | t in s.tabs ensures t.id == id <==> t == s.tabs[k] {
      var i :| 0 <= i < |s.tabs| && s.tabs[i] == t;
    }
    RemovalConserves(s, Filter(s.tabs, (t: Tab) => t.id != id), [s.tabs[k]]);
  }

  lemma CloseConserves(s: Store, id: Id)
    requires Unique(s.tabs) && GridsOk(s.tabs) && Accounted(s)
    ensures Balances(s, CloseTab(s, id), {})
  {
    if IsOpen(s.tabs, id) {
      OneTabGoes(s, id);
    } else {
      RemovalConserves(s, Filter(s.tabs, (t: Tab) => t.id != id), []);
    }
  }

  lemma DetachConserves(s: Store, id: Id)
    requires Unique(s.tabs) && GridsOk(s.tabs) && Accounted(s)
    ensures Balances(s, DetachTab(s, id), {})
  {
    if IsOpen(s.tabs, id) { OneTabGoes(s, id); }
  }

  lemma CloseOthersConserves(s: Store, id: Id)
    requires Unique(s.tabs) && GridsOk(s.tabs) && Accounted(s)
    ensures Balances(s, CloseOtherTabs(s, id), {})
  {
    RemovalConserves(s, Filter(s.tabs, (t: Tab) => t.id == id), Filter(s.tabs, (t: Tab) => t.id != id));
  }

  lemma CloseRightConserves(s: Store, id: Id)
    requires Unique(s.tabs) && GridsOk(s.tabs) && Accounted(s)
    ensures Balances(s, CloseTabsToRight(s, id), {})
  {
    var n := IndexAfter(s.tabs, id);
    CutConserves(s, s.tabs[..n], s.tabs[n..]);
  }

  lemma CutConserves(s: Store, stay: seq<Tab>, go: seq<Tab>)
    requires Unique(s.tabs) && GridsOk(s.tabs) && Accounted(s) && s.tabs == stay + go
    ensures Balances(s, AfterRemoval(s, stay).(killed := s.killed + Live(go)), {})
  {
    forall t, u | t in stay && u in go ensures t.id != u.id {
      var i :| 0 <= i < |stay| && stay[i] == t;
      var j :| 0 <= j < |go| && go[j] == u;
      assert s.tabs[i] == t && s.tabs[|stay| + j] == u;
    }
    RemovalConserves(s, stay, go);
  }

  lemma PermutingConserves(s: Store, r: Store)
    requires GridsOk(s.tabs) && Accounted(s) && OnlyPermutes(s, r)
    ensures Balances(s, r, {})
  {
    PermutedKeepsGrids(s.tabs, r.tabs);
    PermutedKeepsLive(s.tabs, r.tabs);
  }

  /** A tab comes in; whatever is in focus or shown then. */
  lemma ArrivalConserves(s: Store, r: Store, at: nat, tab: Tab)
    requires GridsOk(s.tabs) && Accounted(s) && at <= |s.tabs| && TabOk(tab) && PaneSet(tab) !! Known(s)
    requires r.tabs == s.tabs[..at] + [tab] + s.tabs[at..] && r.killed == s.killed && r.detached == s.detached
    ensures Balances(s, r, PaneSet(tab))
  {
    ArrivalOk(s.tabs, at, tab);
  }

  lemma NewConserves(s: Store, id: Id, pane: Id, side: Option<Side>, after: Option<Id>)
    requires GridsOk(s.tabs) && Accounted(s) && pane !in Known(s)
    ensures Balances(s, NewTab(s, id, pane, side, after), {pane})
  {
    var at := if after.Some? && IsOpen(s.tabs, after.value) then FindTab(s.tabs, after.value) + 1 else |s.tabs|;
    var g := if side.Some? then side.value else FocusSide(s);
    FreshTabOk(id, g, pane);
    ArrivalConserves(s, NewTab(s, id, pane, side, after), at, Tab(id, g, [pane], [[pane]], pane));
  }

  lemma AdoptConserves(s: Store, tab: Tab)
    requires GridsOk(s.tabs) && Accounted(s) && TabOk(tab) && PaneSet(tab) !! Known(s)
    ensures Balances(s, AdoptTab(s, tab), PaneSet(tab))
  {
    var t := tab.(side := Left);
    assert TabOk(t) && PaneSet(t) == PaneSet(tab);
    assert s.tabs[..|s.tabs|] + [t] + s.tabs[|s.tabs|..] == s.tabs + [t];
    ArrivalConserves(s, AdoptTab(s, tab), |s.tabs|, t);
  }

  lemma SplitConserves(s: Store, id: Id, dir: Direction, pane: Id)
    requires Unique(s.tabs) && GridsOk(s.tabs) && Accounted(s) && pane !in Known(s)
    ensures var r := SplitPane(s, id, dir, pane); Balances(s, r, if r.tabs == s.tabs then {} else {pane})
  {
    SplitPaneOk(s, id, dir, pane);
  }

  lemma FocusPaneConserves(s: Store, id: Id, pane: Id)
    requires Unique(s.tabs) && GridsOk(s.tabs) && Accounted(s) && PaneOf(s.tabs, id, pane)
    ensures Balances(s, SetActivePane(s, id, pane), {})
  {
    FocusPaneOk(s, id, pane);
  }

  lemma PaneStepConserves(s: Store, op: Op)
    requires Inv(s) && Legal(s, op) && ActsOnPane(op)
    ensures Balances(s, Step(s, op), Added(s, op))
  {
    match op {
      case Split(id, dir, pane) => SplitConserves(s, id, dir, pane);
      case ClosePaneOf(id, pane) => ClosePaneConserves(s, id, pane);
      case FocusPane(id, pane) => FocusPaneConserves(s, id, pane);
    }
  }

  /** Closing a tab's only pane closes the tab; the pane is killed a second time, which changes nothing. */
  lemma LastPaneClosesTheTab(s: Store, id: Id, pane: Id)
    requires IsOpen(s.tabs, id) && s.tabs[FindTab(s.tabs, id)].panes == [pane]
    ensures ClosePane(s, id, pane) == CloseTab(s, id) && pane in CloseTab(s, id).killed
  {
    var t := s.tabs[FindTab(s.tabs, id)];
    assert t.panes[0] == pane;
    assert t in [t] && pane in t.panes;
    assert Live([t]) == {pane};
    assert s.killed + {pane} + {pane} == s.killed + {pane};
  }

  lemma ClosePaneConserves(s: Store, id: Id, pane: Id)
    requires Unique(s.tabs) && GridsOk(s.tabs) && Accounted(s) && PaneOf(s.tabs, id, pane)
    ensures Balances(s, ClosePane(s, id, pane), {}) && pane in ClosePane(s, id, pane).killed
  {
    var t := s.tabs[FindTab(s.tabs, id)];
    if |t.panes| == 1 {
      assert t.panes == [pane];
      LastPaneClosesTheTab(s, id, pane);
      CloseConserves(s, id);
    } else {
      assert t in s.tabs && pane in Live(s.tabs);
      ShrinkOk(s, id, pane);
    }
  }

  lemma RemovingConserves(s: Store, op: Op)
    requires Unique(s.tabs) && GridsOk(s.tabs) && Accounted(s) && Removes(op)
    ensures Balances(s, Step(s, op), {})
  {
    if op.Close? {
      CloseConserves(s, op.id);
    } else if op.Detach? {
      DetachConserves(s, op.id);
    } else if op.CloseOthers? {
      CloseOthersConserves(s, op.id);
    } else {
      CloseRightConserves(s, op.id);
    }
  }

  /** Activating, reordering, moving and unsplitting only permute. */
  lemma StepPermutes(s: Store, op: Op)
    requires Activates(op) || op.Reorder? || op.MoveTo? || op.Unsplit?
    ensures OnlyPermutes(s, Step(s, op))
  {
    if op.Reorder? {
      ReorderPermutes(s, op.fromId, op.toId);
    } else {
      StepKeepsOrder(s, op);
      OrderedIsPermuted(s, Step(s, op));
    }
  }

  lemma StepKeepsOrder(s: Store, op: Op)
    requires Activates(op) || op.MoveTo? || op.Unsplit?
    ensures KeepsOrder(s, Step(s, op))
  {
    if op.MoveTo? {
      MoveKeepsOrder(s, op.id, op.to);
    } else if op.Unsplit? {
      UnsplitKeepsOrder(s);
    } else {
      ActivatingKeepsTabs(s, op);
    }
  }

  lemma ActivatingKeepsTabs(s: Store, op: Op)
    requires Activates(op)
    ensures var r := Step(s, op); r.tabs == s.tabs && r.killed == s.killed && r.detached == s.detached
  {}

  lemma StepConserves(s: Store, op: Op)
    requires Inv(s) && Legal(s, op)
    ensures Balances(s, Step(s, op), Added(s, op))
  {
    if Removes(op) {
      RemovingConserves(s, op);
    } else if ActsOnPane(op) {
      PaneStepConserves(s, op);
    } else if op.New? {
      NewConserves(s, op.id, op.pane, op.side, op.after);
    } else if op.Adopt? {
      AdoptConserves(s, op.tab);
    } else {
      StepPermutes(s, op);
      PermutingConserves(s, Step(s, op));
    }
  }

  /** Only handing a tab over spares its panes: that action kills none, every other action hands none over. */
  lemma OnlyDetachSpares(s: Store, op: Op)
    ensures if op.Detach? then Step(s, op).killed == s.killed else Step(s, op).detached == s.detached
  {}

  /** Closing a tab takes that tab alone; the others keep their order, their panes and their grids. */
  lemma OthersSurvive(s: Store, id: Id)
    ensures AllLeft(CloseTab(s, id).tabs) == AllLeft(Filter(s.tabs, (t: Tab) => t.id != id))
    ensures !IsOpen(CloseTab(s, id).tabs, id)
    ensures IsSplit(CloseTab(s, id).tabs) ==> CloseTab(s, id).tabs == Filter(s.tabs, (t: Tab) => t.id != id)
    ensures forall t :: t in s.tabs && t.id != id ==>
      t in CloseTab(s, id).tabs || t.(side := Left) in CloseTab(s, id).tabs
  {
    var others := Filter(s.tabs, (t: Tab) => t.id != id);
    AllLeftOfCollapse(others);
    CollapseKeepsIds(others, id);
    forall i | 0 <= i < |others| ensures others[i].id != id { assert others[i] in others; }
    forall t | t in s.tabs && t.id != id ensures t in Collapse(others) || t.(side := Left) in Collapse(others) {
      assert t in others;
      var i :| 0 <= i < |others| && others[i] == t;
      assert Collapse(others)[i] in Collapse(others);
    }
  }

  /**
   * Where the focus goes when the tab that has it is closed. While its group has tabs left, or takes over those of
   * the other one, to a neighbour there. When the right group went with it, to the tab the left group shows: the one
   * it showed before if that was its own, else a neighbour of that. To none from the last tab of all.
   */
  lemma CloseFocusesNeighbour(s: Store, id: Id)
    requires Inv(s) && s.active == Some(id)
    ensures var r, side := CloseTab(s, id), SideOf(s.tabs, id);
      && r.active != Some(id)
      && (r.active.None? <==> r.tabs == [])
      && (HasSide(r.tabs, side) ==> IsNeighbour(LeftOf(s.tabs, Some(id)), r.tabs, side, r.active.value))
      && (r.tabs != [] && !HasSide(r.tabs, side) ==>
            && side == Right && r.active == r.shown.left
            && (OpenOn(s.tabs, Left, s.shown.left.value) ==> r.active == s.shown.left)
            && (!OpenOn(s.tabs, Left, s.shown.left.value) ==>
                  IsNeighbour(LeftOf(s.tabs, s.shown.left), r.tabs, Left, r.active.value)))
  {
    var r, side := CloseTab(s, id), SideOf(s.tabs, id);
    OthersSurvive(s, id);
    CloseKeepsFocus(s, id);
    if r.tabs != [] && !HasSide(r.tabs, side) { LeftGroupTakesOver(s, id); }
    if r.active.Some? { OpenOnIsOpen(r.tabs, if HasSide(r.tabs, side) then side else Left, r.active.value); }
  }

  /** The right group goes with its only tab. */
  lemma LeftGroupTakesOver(s: Store, id: Id)
    requires Inv(s) && s.active == Some(id) && CloseTab(s, id).tabs != []
    requires !HasSide(CloseTab(s, id).tabs, SideOf(s.tabs, id))
    ensures var r := CloseTab(s, id);
      && SideOf(s.tabs, id) == Right && r.active == r.shown.left && r.active.Some?
      && (OpenOn(s.tabs, Left, s.shown.left.value) <==> OpenOn(r.tabs, Left, s.shown.left.value))
  {
    CollapseKeepsIds(Filter(s.tabs, (t: Tab) => t.id != id), id);
    OnlyLeftStay(s.tabs, id, s.shown.left.value);
    assert !IsOpen(CloseTab(s, id).tabs, id) by { OthersSurvive(s, id); }
  }

  lemma OnlyLeftStay(tabs: seq<Tab>, id: Id, x: Id)
    requires Unique(tabs) && HasSide(tabs, Left) && IsOpen(tabs, id) && SideOf(tabs, id) == Right
    requires !HasSide(Collapse(Filter(tabs, (t: Tab) => t.id != id)), Right)
    ensures OpenOn(tabs, Left, x) <==> OpenOn(Collapse(Filter(tabs, (t: Tab) => t.id != id)), Left, x)
  {
    var others := Filter(tabs, (t: Tab) => t.id != id);
    var i :| 0 <= i < |tabs| && tabs[i].side == Left;
    LeftStays(tabs, id, i);
    assert !HasSide(others, Right);
    forall k | 0 <= k < |others| ensures others[k].side == Left {}
    assert Collapse(others) == others;
    if OpenOn(tabs, Left, x) {
      var k :| 0 <= k < |tabs| && tabs[k].id == x && tabs[k].side == Left;
      LeftStays(tabs, id, k);
    }
    if OpenOn(others, Left, x) {
      var k :| 0 <= k < |others| && others[k].id == x && others[k].side == Left;
      assert others[k] in tabs;
    }
  }

  lemma LeftStays(tabs: seq<Tab>, id: Id, i: nat)
    requires Unique(tabs) && i < |tabs| && tabs[i].side == Left && IsOpen(tabs, id) && SideOf(tabs, id) == Right
    ensures OpenOn(Filter(tabs, (t: Tab) => t.id != id), Left, tabs[i].id)
    ensures HasSide(Filter(tabs, (t: Tab) => t.id != id), Left)
  {
    var others := Filter(tabs, (t: Tab) => t.id != id);
    assert tabs[i].id != id by { FoundAt(tabs, i); }
    assert tabs[i] in tabs && tabs[i] in others;
    var k :| 0 <= k < |others| && others[k] == tabs[i];
  }

  lemma ClosingInserted(s: Store, r: Store, at: nat, t: Tab, id: Id)
    requires at <= |s.tabs| && !IsOpen(s.tabs, id) && t.id == id && Collapse(s.tabs) == s.tabs
    requires r.tabs == s.tabs[..at] + [t] + s.tabs[at..]
    ensures Filter(r.tabs, (u: Tab) => u.id != id) == s.tabs
    ensures CloseTab(r, id).tabs == s.tabs
  {
    var others := (u: Tab) => u.id != id;
    FilterDrops(s.tabs[..at], t, s.tabs[at..], others);
    assert s.tabs[..at] + s.tabs[at..] == s.tabs;
    forall u | u in s.tabs ensures others(u) {
      var i :| 0 <= i < |s.tabs| && s.tabs[i] == u;
    }
    FilterAll(s.tabs, others);
  }

  /** A new tab that is closed again leaves the strip as it was. */
  lemma NewThenClose(s: Store, id: Id, pane: Id, side: Option<Side>, after: Option<Id>)
    requires Inv(s) && !IsOpen(s.tabs, id)
    ensures CloseTab(NewTab(s, id, pane, side, after), id).tabs == s.tabs
  {
    var at := if after.Some? && IsOpen(s.tabs, after.value) then FindTab(s.tabs, after.value) + 1 else |s.tabs|;
    var g := if side.Some? then side.value else FocusSide(s);
    SidesAreCollapsed(s);
    ClosingInserted(s, NewTab(s, id, pane, side, after), at, Tab(id, g, [pane], [[pane]], pane), id);
  }

  lemma AppendedIsFound(tabs: seq<Tab>, t: Tab)
    requires !IsOpen(tabs, t.id)
    ensures FindTab(tabs + [t], t.id) == |tabs| && (tabs + [t])[|tabs|] == t
  {
    var r := tabs + [t];
    forall j | 0 <= j < |tabs| ensures r[j].id != t.id { assert r[j] == tabs[j]; }
    assert r[|tabs|] == t;
  }

  /** A tab that was adopted and is handed on again leaves the strip as it was. */
  lemma AdoptThenDetach(s: Store, tab: Tab)
    requires Inv(s) && !IsOpen(s.tabs, tab.id)
    ensures var r := DetachTab(AdoptTab(s, tab), tab.id); r.tabs == s.tabs && r.detached == s.detached + PaneSet(tab)
  {
    var t := tab.(side := Left);
    AppendedIsFound(s.tabs, t);
    assert s.tabs[..|s.tabs|] + [t] + s.tabs[|s.tabs|..] == s.tabs + [t];
    SidesAreCollapsed(s);
    ClosingInserted(s, AdoptTab(s, tab), |s.tabs|, t, tab.id);
    DetachIs(AdoptTab(s, tab), tab.id, |s.tabs|, s.tabs);
    LiveOne(t);
  }

  lemma DetachIs(s: Store, id: Id, k: nat, others: seq<Tab>)
    requires k < |s.tabs| && FindTab(s.tabs, id) == k && others == Filter(s.tabs, (t: Tab) => t.id != id)
    ensures var r := DetachTab(s, id);
      r.tabs == Collapse(others) && r.detached == s.detached + Live([s.tabs[k]])
  {}

  lemma LiveOne(t: Tab)
    ensures Live([t]) == PaneSet(t)
  {
    assert t in [t];
  }

  lemma InsertedIsFound(tabs: seq<Tab>, at: nat, t: Tab)
    requires Unique(tabs) && at <= |tabs| && !IsOpen(tabs, t.id)
    ensures var r := tabs[..at] + [t] + tabs[at..]; FindTab(r, t.id) == at && r[at] == t
  {
    InsertedUnique(tabs, at, t);
    FoundAt(tabs[..at] + [t] + tabs[at..], at);
  }

  /**
   * Where a new tab opens: after the given tab if it is open, else at the end; in the group asked for, else the one
   * in focus.
   */
  lemma NewTabPlace(s: Store, id: Id, pane: Id, side: Option<Side>, after: Option<Id>)
    requires Inv(s) && !IsOpen(s.tabs, id)
    ensures var r := NewTab(s, id, pane, side, after);
      && r.active == Some(id)
      && FindTab(r.tabs, id) ==
        (if after.Some? && IsOpen(s.tabs, after.value) then FindTab(s.tabs, after.value) + 1 else |s.tabs|)
      && SideOf(r.tabs, id) ==
        (if side.Some? then side.value else if s.active.Some? then SideOf(s.tabs, s.active.value) else Left)
      && r.shown.On(SideOf(r.tabs, id)) == Some(id)
      && r.shown.On(SideOf(r.tabs, id).Other()) == s.shown.On(SideOf(r.tabs, id).Other())
      && r.tabs[FindTab(r.tabs, id)].panes == [pane]
  {
    var at := if after.Some? && IsOpen(s.tabs, after.value) then FindTab(s.tabs, after.value) + 1 else |s.tabs|;
    var g := if side.Some? then side.value else FocusSide(s);
    InsertedIsFound(s.tabs, at, Tab(id, g, [pane], [[pane]], pane));
  }

  lemma {:induction false} FilterOne(tabs: seq<Tab>, k: nat, keep: Tab -> bool)
    requires k < |tabs| && keep(tabs[k]) && forall i :: 0 <= i < |tabs| && i != k ==> !keep(tabs[i])
    ensures Filter(tabs, keep) == [tabs[k]]
    decreases k
  {
    var rest := tabs[1..];
    assert forall i :: 0 <= i < |rest| ==> rest[i] == tabs[i + 1];
    if k == 0 {
      FilterNone(rest, keep);
    } else {
      FilterOne(rest, k - 1, keep);
    }
  }

  /** Closing all other tabs leaves just that one, or none if it is not open. */
  lemma ClosingOthersLeaves(s: Store, id: Id)
    requires Inv(s)
    ensures AllLeft(CloseOtherTabs(s, id).tabs) ==
      if IsOpen(s.tabs, id) then AllLeft([s.tabs[FindTab(s.tabs, id)]]) else []
  {
    var k := FindTab(s.tabs, id);
    if k < |s.tabs| {
      FilterOne(s.tabs, k, (t: Tab) => t.id == id);
      AllLeftOfCollapse([s.tabs[k]]);
    } else {
      FilterNone(s.tabs, (t: Tab) => t.id == id);
    }
  }

  /** Closing the tabs to the right leaves the strip up to that tab; to the right of an unknown one are all. */
  lemma ClosingRightLeaves(s: Store, id: Id)
    ensures AllLeft(CloseTabsToRight(s, id).tabs) ==
      if IsOpen(s.tabs, id) then AllLeft(s.tabs[..FindTab(s.tabs, id) + 1]) else []
  {
    AllLeftOfCollapse(s.tabs[..IndexAfter(s.tabs, id)]);
  }

  /** An index names the tab that stands there; one out of range names none. */
  lemma GoToIsByPlace(s: Store, index: int)
    requires Inv(s)
    ensures var r := Step(s, GoTo(index));
      if 0 <= index < |s.tabs| then r.active == Some(s.tabs[index].id) && r.tabs == s.tabs else r == s
  {
    if 0 <= index < |s.tabs| { SetActiveKeepsFocus(s, s.tabs[index].id); }
  }

  lemma AroundTheEnds(k: nat, n: nat)
    requires k < n
    ensures (k + 1) % n == if k + 1 < n then k + 1 else 0
    ensures (k - 1 + n) % n == if k > 0 then k - 1 else n - 1
  {
    if k > 0 { assert k - 1 + n == n + (k - 1); }
  }

  lemma StepsAside(s: Store, k: nat)
    requires Inv(s) && k < |s.tabs| && s.active == Some(s.tabs[k].id)
    ensures Step(s, Next) == SetActiveTab(s, s.tabs[(k + 1) % |s.tabs|].id)
    ensures Step(s, Prev) == SetActiveTab(s, s.tabs[(k - 1 + |s.tabs|) % |s.tabs|].id)
  {
    FoundAt(s.tabs, k);
  }

  /** Next goes one to the right and previous one to the left, round the ends. */
  lemma NextAndPrevAreNeighbours(s: Store, k: nat)
    requires Inv(s) && k < |s.tabs| && s.active == Some(s.tabs[k].id)
    ensures Step(s, Next).active == Some(s.tabs[if k + 1 < |s.tabs| then k + 1 else 0].id)
    ensures Step(s, Prev).active == Some(s.tabs[if k > 0 then k - 1 else |s.tabs| - 1].id)
  {
    AroundTheEnds(k, |s.tabs|);
    StepsAside(s, k);
    ActivatedIsActive(s, if k + 1 < |s.tabs| then k + 1 else 0);
    ActivatedIsActive(s, if k > 0 then k - 1 else |s.tabs| - 1);
  }

  lemma ActivatedIsActive(s: Store, i: nat)
    requires i < |s.tabs|
    ensures SetActiveTab(s, s.tabs[i].id).active == Some(s.tabs[i].id)
  {}

  /** An adopted tab stands last, in the left group, as it came, and is in focus there. */
  lemma AdoptedTabPlace(s: Store, tab: Tab)
    requires Inv(s) && !IsOpen(s.tabs, tab.id)
    ensures var r := Step(s, Adopt(tab));
      && r.tabs == s.tabs + [tab.(side := Left)] && FindTab(r.tabs, tab.id) == |s.tabs|
      && r.active == r.shown.left == Some(tab.id) && r.shown.right == s.shown.right
  {
    AppendedIsFound(s.tabs, tab.(side := Left));
  }

  /** Going to the next tab and back returns to the tab in focus, round the ends of the strip too. */
  lemma NextThenPrev(s: Store)
    requires Inv(s)
    ensures PrevTab(NextTab(s)).active == s.active && PrevTab(NextTab(s)).tabs == s.tabs
  {
    if s.tabs != [] {
      var n, i := |s.tabs|, ActiveIndex(s);
      var j := (i + 1) % n;
      RoundTheStrip(i, n);
      FoundAt(s.tabs, j);
      assert ActiveIndex(NextTab(s)) == j;
      assert PrevTab(NextTab(s)) == SetActiveTab(NextTab(s), s.tabs[i].id);
    }
  }

  lemma RoundTheStrip(i: nat, n: nat)
    requires i < n
    ensures ((i + 1) % n - 1 + n) % n == i
  {
    if i == n - 1 { assert (i + 1) % n == 0; } else { assert (i + 1) % n == i + 1; }
  }

  lemma SidesAreCollapsed(s: Store)
    requires Focus(s)
    ensures Collapse(s.tabs) == s.tabs
  {
    if !IsSplit(s.tabs) {
      forall i | 0 <= i < |s.tabs| ensures s.tabs[i].side == Left {}
    }
  }

  // ---- runs ----

  ghost predicate LegalRun(s: Store, ops: seq<Op>)
    decreases |ops|
  {
    ops == [] || (Legal(s, ops[0]) && LegalRun(Step(s, ops[0]), ops[1..]))
  }

  function Run(s: Store, ops: seq<Op>): Store
    decreases |ops|
  {
    if ops == [] then s else Run(Step(s, ops[0]), ops[1..])
  }

  lemma {:induction false} RunKeepsInv(s: Store, ops: seq<Op>)
    requires Inv(s) && LegalRun(s, ops)
    ensures Inv(Run(s, ops))
    decreases |ops|
  {
    if ops != [] {
      StepKeepsFocus(s, ops[0]);
      StepConserves(s, ops[0]);
      RunKeepsInv(Step(s, ops[0]), ops[1..]);
    }
  }

  /** Every workspace that can be reached from an empty window. */
  lemma EveryWorkspace(ops: seq<Op>)
    requires LegalRun(EMPTY, ops)
    ensures Inv(Run(EMPTY, ops))
  {
    RunKeepsInv(EMPTY, ops);
  }

  /** No drop along the way strands a shown tab. */
  ghost predicate NeverStrands(s: Store, ops: seq<Op>)
    decreases |ops|
  {
    ops == [] ||
    (!(ops[0].Reorder? && StrandsShown(s, ops[0].fromId, ops[0].toId)) && NeverStrands(Step(s, ops[0]), ops[1..]))
  }

  lemma {:induction false} EachGroupShowsItsOwn(s: Store, ops: seq<Op>)
    requires Inv(s) && OwnSides(s) && LegalRun(s, ops) && NeverStrands(s, ops)
    ensures OwnSides(Run(s, ops))
    decreases |ops|
  {
    if ops != [] {
      StepKeepsFocus(s, ops[0]);
      StepConserves(s, ops[0]);
      EachGroupShowsItsOwn(Step(s, ops[0]), ops[1..]);
    }
  }

  /** The panes brought in over a run. */
  function AllAdded(s: Store, ops: seq<Op>): set<Id>
    decreases |ops|
  {
    if ops == [] then {} else Added(s, ops[0]) + AllAdded(Step(s, ops[0]), ops[1..])
  }

  lemma {:induction false} RunConserves(s: Store, ops: seq<Op>)
    requires Inv(s) && LegalRun(s, ops)
    ensures Accounted(Run(s, ops)) && Conserves(s, Run(s, ops), AllAdded(s, ops))
    decreases |ops|
  {
    if ops != [] {
      StepKeepsFocus(s, ops[0]);
      StepConserves(s, ops[0]);
      RunConserves(Step(s, ops[0]), ops[1..]);
    }
  }

  /**
   * At any point of any run, the panes ever brought in are those in the strip, those killed and those
   * handed over, each in exactly one of these; and a pane killed or handed over stays so to the end.
   */
  lemma PanesAreConserved(ops: seq<Op>, later: seq<Op>)
    requires LegalRun(EMPTY, ops) && LegalRun(Run(EMPTY, ops), later)
    ensures var s, r := Run(EMPTY, ops), Run(Run(EMPTY, ops), later);
      && Accounted(s) && Known(s) == AllAdded(EMPTY, ops)
      && s.killed <= r.killed && s.detached <= r.detached && (s.killed + s.detached) !! Live(r.tabs)
  {
    RunConserves(EMPTY, ops);
    RunKeepsInv(EMPTY, ops);
    RunConserves(Run(EMPTY, ops), later);
    GoneForGood(Run(EMPTY, ops), Run(Run(EMPTY, ops), later));
  }

  lemma GoneForGood(s: Store, r: Store)
    requires Accounted(r) && s.killed <= r.killed && s.detached <= r.detached
    ensures (s.killed + s.detached) !! Live(r.tabs)
  {}

  // ---- the drop that strands a shown tab ----

  function Plain(id: Id, side: Side): Tab { Tab(id, side, [10 + id], [[10 + id]], 10 + id) }

  const ONE_TAB := Store([Plain(1, Left)], Some(1), Shown(Some(1), None), {}, {})
  const TWO_TABS := Store([Plain(1, Left), Plain(2, Left)], Some(2), Shown(Some(2), None), {}, {})
  const THREE_TABS := Store([Plain(1, Left), Plain(2, Left), Plain(3, Left)], Some(3), Shown(Some(3), None), {}, {})
  const TWO_AND_ONE :=
    Store([Plain(1, Left), Plain(2, Left), Plain(3, Right)], Some(3), Shown(Some(2), Some(3)), {}, {})

  lemma OpenThree()
    ensures Legal(EMPTY, New(1, 11, None, None)) && Step(EMPTY, New(1, 11, None, None)) == ONE_TAB
    ensures Legal(ONE_TAB, New(2, 12, None, None)) && Step(ONE_TAB, New(2, 12, None, None)) == TWO_TABS
    ensures Legal(TWO_TABS, New(3, 13, None, None)) && Step(TWO_TABS, New(3, 13, None, None)) == THREE_TABS
  {}

  lemma MoveThird()
    ensures Step(THREE_TABS, MoveTo(3, Right)) == TWO_AND_ONE
  {
    var next := MapTab(THREE_TABS.tabs, 3, (t: Tab) => t.(side := Right));
    assert next == TWO_AND_ONE.tabs;
    assert next[0].side == Left && next[2].side == Right;
    assert Collapse(next) == next;
    assert !OpenOn(next, Left, 3);
    assert next[1].id == 2;
    assert OpenOn(next, Left, 2);
    assert THREE_TABS.tabs[..2] == TWO_TABS.tabs;
  }

  lemma RunStep(s: Store, op: Op, rest: seq<Op>)
    requires Legal(s, op) && LegalRun(Step(s, op), rest)
    ensures LegalRun(s, [op] + rest) && Run(s, [op] + rest) == Run(Step(s, op), rest)
  {
    assert ([op] + rest)[1..] == rest;
  }

  lemma ReorderStrands()
    ensures !OwnSides(Step(TWO_AND_ONE, Reorder(2, 3)))
  {
    var tabs := TWO_AND_ONE.tabs;
    assert tabs[0].side == Left && tabs[1].side == Left && tabs[2].side == Right;
    assert tabs[0].id == 1 && tabs[1].id == 2 && tabs[2].id == 3;
    assert OpenOn(tabs, Left, 2) && OpenOn(tabs, Right, 3);
    ReorderKeepsSidesUnlessStranded(TWO_AND_ONE, 2, 3);
  }

  /**
   * Three tabs, the third moved to the right, the shown left one then dropped onto it: a legal run after
   * which the left group shows a tab that is on the right.
   */
  lemma ReorderStrandsAShownTab()
    ensures var ops :=
      [New(1, 11, None, None)]
        + ([New(2, 12, None, None)] + ([New(3, 13, None, None)] + ([MoveTo(3, Right)] + ([Reorder(2, 3)] + []))));
      LegalRun(EMPTY, ops) && !OwnSides(Run(EMPTY, ops))
  {
    OpenThree();
    MoveThird();
    ReorderStrands();
    RunStep(TWO_AND_ONE, Reorder(2, 3), []);
    RunStep(THREE_TABS, MoveTo(3, Right), [Reorder(2, 3)] + []);
    RunStep(TWO_TABS, New(3, 13, None, None), [MoveTo(3, Right)] + ([Reorder(2, 3)] + []));
    RunStep(ONE_TAB, New(2, 12, None, None), [New(3, 13, None, None)] + ([MoveTo(3, Right)] + ([Reorder(2, 3)] + [])));
    RunStep(EMPTY, New(1, 11, None, None),
      [New(2, 12, None, None)] + ([New(3, 13, None, None)] + ([MoveTo(3, Right)] + ([Reorder(2, 3)] + []))));
  }
}
