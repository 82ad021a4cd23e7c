/**
 * The tab store as it runs (src/store/useTabStore.ts): its fields, the set of detached panes, and the
 * actions that replace and mutate them. Every action performs the transition of TabModel that bears its name.
 */
module TabStoreImpl {
  import opened Basics
  import opened PaneGrid
  import opened TabModel

  /** The backend connections behind the panes. */
  class Backend {
    var killed: set<Id>

    constructor ()
      ensures killed == {}
    {
      killed := {};
    }

    method Kill(pane: Id)
      modifies this
      ensures killed == old(killed) + {pane}
    {
      killed := killed + {pane};
    }
  }

  class TabStore {
    var tabs: seq<Tab>
    var activeTabId: Option<Id>
    var groupActive: Shown
    var detachedPanes: set<Id>
    const backend: Backend

    constructor (backend: Backend)
      ensures tabs == [] && activeTabId == None && groupActive == Shown(None, None) && detachedPanes == {}
        && this.backend == backend
    {
      tabs, activeTabId, groupActive, detachedPanes := [], None, Shown(None, None), {};
      this.backend := backend;
    }

    ghost function State(): Store
      reads this, backend
    {
      Store(tabs, activeTabId, groupActive, backend.killed, detachedPanes)
    }

    // ---- helpers ----

    method KillPanes(panes: seq<Id>)
      modifies backend
      ensures backend.killed == old(backend.killed) + set p | p in panes
    {
      for i := 0 to |panes|
        invariant backend.killed == old(backend.killed) + set p | p in panes[..i]
      {
        backend.Kill(panes[i]);
        assert panes[..i + 1] == panes[..i] + [panes[i]];
      }
      assert panes[..|panes|] == panes;
    }

    method KillTabs(closing: seq<Tab>)
      modifies backend
      ensures backend.killed == old(backend.killed) + Live(closing)
    {
      for i := 0 to |closing|
        invariant backend.killed == old(backend.killed) + Live(closing[..i])
      {
        KillPanes(closing[i].panes);
        LiveSnoc(closing[..i], closing[i]);
        assert closing[..i + 1] == closing[..i] + [closing[i]];
      }
      assert closing[..|closing|] == closing;
    }

    method MarkDetached(panes: seq<Id>)
      modifies this`detachedPanes
      ensures detachedPanes == old(detachedPanes) + set p | p in panes
    {
      for k := 0 to |panes|
        invariant detachedPanes == old(detachedPanes) + set p | p in panes[..k]
      {
        assert panes[..k + 1] == panes[..k] + [panes[k]];
        detachedPanes := detachedPanes + {panes[k]};
      }
      assert panes[..|panes|] == panes;
    }

    method Remove(remaining: seq<Tab>)
      modifies this`tabs, this`activeTabId, this`groupActive
      ensures State() == AfterRemoval(old(State()), remaining)
    {
      var kept := Collapse(remaining);
      var shown := Shown(Pick(tabs, kept, Left, groupActive.left), Pick(tabs, kept, Right, groupActive.right));
      var active := if activeTabId.Some? && IsOpen(kept, activeTabId.value) then activeTabId else None;
      if active.None? {
        var side := Left;
        if activeTabId.Some? && IsOpen(tabs, activeTabId.value) { side := SideOf(tabs, activeTabId.value); }
        active := OrElse(Pick(tabs, kept, side, activeTabId), OrElse(shown.left, shown.right));
      }
      tabs, activeTabId, groupActive := kept, active, shown;
    }

    // ---- tabs ----

    method NewTab(id: Id, pane: Id, group: Option<Side>, after: Option<Id>)
      modifies this
      ensures State() == TabModel.NewTab(old(State()), id, pane, group, after)
    {
      var g := Left;
      if group.Some? {
        g := group.value;
      } else if activeTabId.Some? && IsOpen(tabs, activeTabId.value) {
        g := SideOf(tabs, activeTabId.value);
      }
      var tab := Tab(id, g, [pane], [[pane]], pane);
      AppendIsInsert(tabs, tab);
      if after.Some? && IsOpen(tabs, after.value) {
        var at := FindTab(tabs, after.value);
        tabs := tabs[..at + 1] + [tab] + tabs[at + 1..];
      } else {
        tabs := tabs + [tab];
      }
      activeTabId, groupActive := Some(id), groupActive.With(g, id);
    }

    method CloseTab(id: Id)
      modifies this, backend
      ensures State() == TabModel.CloseTab(old(State()), id)
    {
      ghost var before := State();
      var i := FindTab(tabs, id);
      if i < |tabs| { KillTabs([tabs[i]]); }
      var others := Filter(tabs, (t: Tab) => t.id != id);
      RemovalSpares(before, backend.killed, detachedPanes, others);
      Remove(others);
    }

    method CloseOtherTabs(id: Id)
      modifies this, backend
      ensures State() == TabModel.CloseOtherTabs(old(State()), id)
    {
      ghost var before := State();
      var remaining := Filter(tabs, (t: Tab) => t.id == id);
      KillTabs(Filter(tabs, (t: Tab) => t.id != id));
      RemovalSpares(before, backend.killed, detachedPanes, remaining);
      Remove(remaining);
    }

    method CloseTabsToRight(id: Id)
      modifies this, backend
      ensures State() == TabModel.CloseTabsToRight(old(State()), id)
    {
      ghost var before := State();
      var n := IndexAfter(tabs, id);
      var remaining, toClose := tabs[..n], tabs[n..];
      KillTabs(toClose);
      RemovalSpares(before, backend.killed, detachedPanes, remaining);
      Remove(remaining);
    }

    method SetActiveTab(id: Id)
      modifies this
      ensures State() == TabModel.SetActiveTab(old(State()), id)
    {
      if !IsOpen(tabs, id) { return; }
      activeTabId, groupActive := Some(id), groupActive.With(SideOf(tabs, id), id);
    }

    method NextTab()
      modifies this
      ensures State() == TabModel.NextTab(old(State()))
    {
      if tabs == [] { return; }
      var idx := -1;
      if activeTabId.Some? && IsOpen(tabs, activeTabId.value) { idx := FindTab(tabs, activeTabId.value); }
      SetActiveTab(tabs[(idx + 1) % |tabs|].id);
    }

    method PrevTab()
      modifies this
      ensures State() == TabModel.PrevTab(old(State()))
    {
      if tabs == [] { return; }
      var idx := -1;
      if activeTabId.Some? && IsOpen(tabs, activeTabId.value) { idx := FindTab(tabs, activeTabId.value); }
      SetActiveTab(tabs[(idx - 1 + |tabs|) % |tabs|].id);
    }

    method GoToTab(index: int)
      modifies this
      ensures State() == TabModel.GoToTab(old(State()), index)
    {
      if 0 <= index < |tabs| { SetActiveTab(tabs[index].id); }
    }

    method ReorderTab(fromId: Id, toId: Id)
      modifies this
      ensures State() == TabModel.ReorderTab(old(State()), fromId, toId)
    {
      var from, to := FindTab(tabs, fromId), FindTab(tabs, toId);
      if from == |tabs| || to == |tabs| { return; }
      var g, moved := tabs[to].side, tabs[from];
      var rest := tabs[..from] + tabs[from + 1..];
      var next := Collapse(rest[..to] + [moved.(side := g)] + rest[to..]);
      tabs, activeTabId := next, Some(fromId);
      groupActive := if IsSplit(next) then groupActive.With(g, fromId) else Shown(Some(fromId), None);
    }

    method MoveTabToGroup(id: Id, to: Side) returns (error: Option<MoveError>)
      modifies this
      ensures (State(), error) == TabModel.MoveTabToGroup(old(State()), id, to)
    {
      if !IsOpen(tabs, id) { return Some(NotFound); }
      var tab := tabs[FindTab(tabs, id)];
      if tab.side == to { return None; }
      if to == Right && !IsSplit(tabs) {
        if |tabs| < 2 { return Some(NeedsTwoTabs); }
        if !Fits2x2(tab.layout) { return Some(GridTooBig); }
      }
      var before := tabs;
      var mapped := MapTab(tabs, id, (t: Tab) => t.(side := to));
      tabs, activeTabId := Collapse(mapped), Some(id);
      if !IsSplit(tabs) {
        groupActive := Shown(Some(id), None);
        return None;
      }
      FindSame(before, tabs, id);
      SplitHasBoth(mapped);
      var shown := groupActive.On(tab.side);
      var stays := if shown.Some? && OpenOn(tabs, tab.side, shown.value) then shown.value
                   else Neighbour(before, Some(id), tabs, tab.side);
      groupActive := groupActive.With(tab.side, stays).With(SideOf(tabs, id), id);
      return None;
    }

    method UnsplitTabs()
      modifies this
      ensures State() == TabModel.UnsplitTabs(old(State()))
    {
      tabs, groupActive := AllLeft(tabs), Shown(OrElse(activeTabId, groupActive.left), None);
    }

    method DetachTab(id: Id)
      modifies this
      ensures State() == TabModel.DetachTab(old(State()), id)
    {
      var i := FindTab(tabs, id);
      if i == |tabs| { return; }
      ghost var before := State();
      MarkDetached(tabs[i].panes);
      LiveSnoc([], tabs[i]);
      var others := Filter(tabs, (t: Tab) => t.id != id);
      RemovalSpares(before, backend.killed, detachedPanes, others);
      Remove(others);
    }

    method AdoptTab(tab: Tab)
      modifies this
      ensures State() == TabModel.AdoptTab(old(State()), tab)
    {
      tabs := tabs + [tab.(side := Left)];
      activeTabId, groupActive := Some(tab.id), groupActive.With(Left, tab.id);
    }

    // ---- panes ----

    method SplitPane(id: Id, dir: Direction, newId: Id)
      modifies this
      ensures State() == TabModel.SplitPane(old(State()), id, dir, newId)
    {
      var maxPanes, maxCols := MaxPanes(tabs), MaxCols(tabs);
      tabs := MapTab(tabs, id, (t: Tab) => SplitTab(t, dir, newId, maxPanes, maxCols));
    }

    method ClosePane(id: Id, pane: Id)
      modifies this, backend
      ensures State() == TabModel.ClosePane(old(State()), id, pane)
    {
      backend.Kill(pane);
      var i := FindTab(tabs, id);
      if i < |tabs| && |tabs[i].panes| == 1 {
        CloseTab(id);
        return;
      }
      tabs := MapTab(tabs, id, (t: Tab) => ShrinkTab(t, pane));
    }

    method SetActivePane(id: Id, pane: Id)
      modifies this
      ensures State() == TabModel.SetActivePane(old(State()), id, pane)
    {
      tabs := MapTab(tabs, id, (t: Tab) => t.(activePane := pane));
    }
  }

  /** What was killed and handed over is no matter to the bookkeeping, nor changed by it. */
  lemma RemovalSpares(s: Store, killed: set<Id>, detached: set<Id>, remaining: seq<Tab>)
    ensures AfterRemoval(s.(killed := killed, detached := detached), remaining) ==
      AfterRemoval(s, remaining).(killed := killed, detached := detached)
  {}

  lemma AppendIsInsert(tabs: seq<Tab>, t: Tab)
    ensures tabs[..|tabs|] + [t] + tabs[|tabs|..] == tabs + [t]
  {}

  lemma LiveSnoc(tabs: seq<Tab>, t: Tab)
    ensures Live(tabs + [t]) == Live(tabs) + set p | p in t.panes
  {
    assert (tabs + [t])[|tabs|] == t;
    forall u | u in tabs + [t] ensures u in tabs || u == t {}
    forall u | u in tabs ensures u in tabs + [t] {}
  }
}
