/** What each command on tabs, contexts and viewports does, told from the state before it
    (crates/codex-platform/src/browser.rs, the tab, context and viewport methods of
    `BrowserRuntime`). */
module TabEffects {

  import opened Numbers
  import opened Sequences
  import opened TabRuns
  import opened TabTurns
  import opened Tabs
  import opened Wrappers

  /** No tab is opened, closed, moved or marked, and no viewport changes. */
  ghost predicate SameButActive(s: State, t: State) {
    && Plains(t.tabs) == Plains(s.tabs)
    && t.overrides == s.overrides && t.surface == s.surface
    && t.nextAgentId == s.nextAgentId && t.nextTarget == s.nextTarget
  }

  ghost predicate IsActiveTab(s: State, context: ContextId, id: TabId) {
    && s.activeContext == context && s.activeIndex < |s.tabs|
    && s.tabs[s.activeIndex].context == context && s.tabs[s.activeIndex].id == id
  }

  // ----- selecting and activating -----

  /** Selecting a tab makes that tab the active one, in its context, and remembers it there unless it
      was active already; nothing else changes. A tab the context does not have is refused. */
  lemma SelectTabIsExact(s: State, context: ContextId, id: TabId)
    requires Inv(s)
    ensures var outcome := SelectTab(s, context, id);
            var t := outcome.state;
            if Names(s.tabs, context, id) then
              && outcome.error.None? && IsActiveTab(t, context, id) && SameButActive(s, t)
              && t.activeTabIds - {context} == s.activeTabIds - {context}
              && (!IsActiveTab(s, context, id) ==> context in t.activeTabIds && t.activeTabIds[context] == id)
              && (IsActiveTab(s, context, id) ==> t == s)
            else outcome == Outcome(s, Some(NoSuchTab))
  {
    if Names(s.tabs, context, id) {
      NamesPosition(s.tabs, context, id);
      var index := PositionOf(s.tabs, context, id);
      ActivateAtIsPlain(s, context, index);
      if IsActiveTab(s, context, id) {
        SameTab(s, index, s.activeIndex);
      }
    }
  }

  lemma SameTab(s: State, i: nat, j: nat)
    requires Inv(s) && i < |s.tabs| && j < |s.tabs| && s.tabs[i].id == s.tabs[j].id
    ensures i == j
  {
  }

  lemma EntryIsNamed(s: State, context: ContextId)
    requires Inv(s) && HasTab(s.tabs, context)
    ensures context in s.activeTabIds
    ensures var index := PositionOf(s.tabs, context, s.activeTabIds[context]);
            index < |s.tabs| && s.tabs[index].context == context && s.tabs[index].id == s.activeTabIds[context]
  {
    assert Remembered(s.tabs, s.activeTabIds, context);
    NamesPosition(s.tabs, context, s.activeTabIds[context]);
  }

  /** Activating a context that has a tab makes the tab it remembers the active one; nothing happens
      if the context is active. */
  lemma ActivateContextIsExact(s: State, context: ContextId)
    requires Inv(s) && HasTab(s.tabs, context)
    ensures var outcome := ActivateContext(s, context);
            && outcome.error.None? && SameButActive(s, outcome.state)
            && (s.activeContext == context ==> outcome.state == s)
            && (s.activeContext != context ==>
                && context in s.activeTabIds && outcome.state.activeTabIds == s.activeTabIds
                && IsActiveTab(outcome.state, context, s.activeTabIds[context]))
  {
    EntryIsNamed(s, context);
    HasTabIff(s.tabs, context);
    var index := PositionOf(s.tabs, context, s.activeTabIds[context]);
    if s.activeContext != context {
      ActivateAtIsPlain(s, context, index);
      assert s.activeTabIds[context := s.tabs[index].id] == s.activeTabIds;
    }
  }

  /** A new tab is unlike the others, belongs to the context and to whom opened it, and is unmarked. */
  predicate IsNewIn(s: State, t: Tab, context: ContextId, origin: Origin) {
    && t.context == context && t.origin == origin && t.mark.None?
    && forall i :: 0 <= i < |s.tabs| ==> s.tabs[i].id != t.id && s.tabs[i].agentId != t.agentId
  }

  lemma NewTabIsNew(s: State, context: ContextId, origin: Origin)
    requires Inv(s)
    ensures IsNewIn(s, NewTab(s, context, origin), context, origin)
    ensures IsNewIn(s, Blank(s, context), context, ByUser)
  {
    forall i | 0 <= i < |s.tabs| ensures s.tabs[i].id < s.nextTarget && s.tabs[i].agentId < s.nextAgentId {
      assert TabHolds(s.tabs[i], s.overrides, s.surface, s.nextAgentId, s.nextTarget);
    }
  }

  /** Opening a tab adds one new tab, of the origin asked for, at the end, which is then active and
      remembered; with sixteen tabs open nothing happens. So does activating a context without a tab,
      for the user. */
  lemma OpeningIsExact(s: State, context: ContextId, origin: Origin)
    requires Inv(s) && context != ""
    ensures var outcome := OpenTab(s, context, origin);
            var t := outcome.state;
            if |s.tabs| >= 16 then outcome == Outcome(s, Some(TooManyTabs))
            else
              && outcome.error.None? && |t.tabs| == |s.tabs| + 1 && Plains(s.tabs) <= Plains(t.tabs)
              && IsNewIn(s, t.tabs[|s.tabs|], context, origin)
              && IsActiveTab(t, context, t.tabs[|s.tabs|].id) && t.activeIndex == |s.tabs|
              && context in t.activeTabIds && t.activeTabIds[context] == t.tabs[|s.tabs|].id
              && t.activeTabIds - {context} == s.activeTabIds - {context}
              && t.overrides == s.overrides && t.surface == s.surface
    ensures !HasTab(s.tabs, context) ==> ActivateContext(s, context) == OpenTab(s, context, ByUser)
  {
    if |s.tabs| < 16 {
      OpenTabIsExact(s, context, origin);
      NewTabIsNew(s, context, origin);
    }
    HasTabIff(s.tabs, context);
  }

  // ----- closing the active tab or context -----

  lemma FirstIsPosition(s: State, context: ContextId)
    requires Ready(s, context) && context !in s.activeTabIds && HasTab(s.tabs, context)
    ensures IsActiveTab(ActivateContext(s.(activeContext := ""), context).state, context,
            s.tabs[Position(s.tabs, context)].id)
  {
    assert TabHolds(s.tabs[Position(s.tabs, context)], s.overrides, s.surface, s.nextAgentId, s.nextTarget);
  }

  /** When the active tab is closed the first tab left of its context becomes active. */
  lemma ClosingTheActiveTab(s: State)
    requires Inv(s) && s.tabs != [] && HasTab(Without(s.tabs, s.activeIndex), s.activeContext)
    ensures var rest := Without(s.tabs, s.activeIndex);
            var t := CloseTab(s, s.activeContext, s.tabs[s.activeIndex].id);
            IsActiveTab(t, s.activeContext, rest[Position(rest, s.activeContext)].id)
  {
    var context := s.activeContext;
    var index := PositionOf(s.tabs, context, s.tabs[s.activeIndex].id);
    SameTab(s, index, s.activeIndex);
    RemovedReady(s, index);
    FirstIsPosition(Removed(s, index), context);
  }

  // With no context active, activating one makes the tab active that its entry names.
  lemma EntryIsShown(s: State, context: ContextId)
    requires Remembered(s.tabs, s.activeTabIds, context) && HasTab(s.tabs, context) && context != ""
    ensures context in s.activeTabIds
    ensures IsActiveTab(ActivateContext(s.(activeContext := ""), context).state, context, s.activeTabIds[context])
  {
    NamesPosition(s.tabs, context, s.activeTabIds[context]);
  }

  // The tab that takes the place of the active one, or the last one left.
  lemma NextTab(s: State)
    requires Inv(s) && s.tabs != []
    ensures var left := ContextRemoved(s, s.activeContext);
            var place := s.activeIndex - CountBefore(s.tabs, s.activeContext, s.activeIndex);
            && left.tabs == Filter(OutsideOf(s.activeContext), s.tabs)
            && (left.tabs != [] ==> left.activeIndex == if place < |left.tabs| then place else |left.tabs| - 1)
  {
  }

  /** When the active context is closed and others have tabs, the tab that takes the place of the
      active one, or the last one left, decides which context becomes active, with its own tab. */
  lemma ClosingTheActiveContext(s: State)
    requires Inv(s) && s.tabs != [] && Filter(OutsideOf(s.activeContext), s.tabs) != []
    ensures var kept := Filter(OutsideOf(s.activeContext), s.tabs);
            var place := s.activeIndex - CountBefore(s.tabs, s.activeContext, s.activeIndex);
            var next := kept[if place < |kept| then place else |kept| - 1].context;
            && next in s.activeTabIds
            && IsActiveTab(CloseContext(s, s.activeContext), next, s.activeTabIds[next])
  {
    var left := ContextRemoved(s, s.activeContext);
    ContextRemovedBase(s, s.activeContext);
    NextTab(s);
    var next := left.tabs[left.activeIndex].context;
    HasTabIff(left.tabs, next);
    assert TabHolds(left.tabs[left.activeIndex], left.overrides, left.surface, left.nextAgentId, left.nextTarget);
    assert Remembered(left.tabs, left.activeTabIds, next);
    EntryIsShown(left, next);
    assert left.activeTabIds == s.activeTabIds - {s.activeContext};
  }

  // ----- viewports and marks -----

  /** A viewport of its own reaches the tabs of that context, and no others. */
  lemma SetViewportIsExact(s: State, context: ContextId, size: Size)
    requires Inv(s)
    ensures var outcome := SetViewport(s, context, size);
            var t := outcome.state;
            if !HasTab(s.tabs, context) then outcome == Outcome(s, Some(NoSuchContext))
            else
              && outcome.error.None? && Plains(t.tabs) == Plains(s.tabs)
              && t.overrides == s.overrides[context := size] && t.surface == s.surface
              && t.activeTabIds == s.activeTabIds
              && t.activeIndex == s.activeIndex && t.activeContext == s.activeContext
              && (s.activeContext == context ==> t.viewport == size)
              && forall i :: 0 <= i < |s.tabs| ==>
                   t.tabs[i].emulated == if s.tabs[i].context == context then size else s.tabs[i].emulated
  {
    var t := s.(overrides := s.overrides[context := size]);
    forall i | 0 <= i < |s.tabs|
      ensures ApplyViewport(t, context).tabs[i] ==
              Applied(s.tabs[i], context, size, s.activeContext == context && i == s.activeIndex)
    {
      AppliedTab(t, context, i);
    }
  }

  /** A surface's size is taken as it is between 320 by 240 and 1920 by 1080, and else the nearest. */
  lemma SurfaceIsClamped(s: State, width: nat, height: nat)
    ensures var size := Resize(s, width, height).surface;
            && (320 <= width <= 1920 ==> size.width == width) && (240 <= height <= 1080 ==> size.height == height)
            && (width < 320 ==> size.width == 320) && (height < 240 ==> size.height == 240)
            && (width > 1920 ==> size.width == 1920) && (height > 1080 ==> size.height == 1080)
  {
  }

  /** A mark goes to the tab of that number in the context, and to no other. */
  lemma MarkTabIsExact(s: State, context: ContextId, agentId: nat, mark: Mark)
    requires Inv(s) && HasTab(s.tabs, context)
    ensures var outcome := MarkTab(s, context, agentId, mark);
            && (outcome.error.None? <==> exists i :: 0 <= i < |s.tabs| && HasNumber(s.tabs[i], context, agentId))
            && (outcome.error.Some? ==> outcome.state == s)
            && |outcome.state.tabs| == |s.tabs| && outcome.state.(tabs := s.tabs) == s
            && forall i :: 0 <= i < |s.tabs| ==>
                 outcome.state.tabs[i] ==
                   if HasNumber(s.tabs[i], context, agentId) then s.tabs[i].(mark := Some(mark)) else s.tabs[i]
  {
    FindsNumber(s.tabs, context, agentId);
  }

  predicate HasNumber(t: Tab, context: ContextId, agentId: nat) { t.context == context && t.agentId == agentId }

  lemma {:induction false} FindsNumber(tabs: seq<Tab>, context: ContextId, agentId: nat)
    ensures forall i :: 0 <= i < AgentPosition(tabs, context, agentId) ==> !HasNumber(tabs[i], context, agentId)
  {
    if tabs != [] && !HasNumber(tabs[0], context, agentId) {
      FindsNumber(tabs[1..], context, agentId);
    }
  }

  // ----- the end of a turn, and finalizeTabs -----

  predicate WasMarkedIn(t: Tab, turn: string) { match t.mark case None => false case Some(m) => m.turn == turn }

  /** Of the tabs before the end of a turn exactly the agent's in the context without a mark of that
      turn are gone; the marks of the turn are gone in that context, and no others. */
  lemma TurnEndedTabs(s: State, context: ContextId, turn: string, tab: Tab)
    requires Inv(s) && HasTab(s.tabs, context) && tab in Plains(s.tabs)
    ensures var after := Plains(TurnEnded(s, context, turn).state.tabs);
            var cleared := if tab.context == context && WasMarkedIn(tab, turn) then tab.(mark := None) else tab;
            cleared in after <==> tab.context != context || tab.origin == ByUser || WasMarkedIn(tab, turn)
  {
    TurnEndedIsExact(s, context, turn);
    var kept := Filter(Not(Unmarked(context, turn)), Plains(s.tabs));
    var cleared := Unmark(tab, context, turn);
    var after := ClearMarks(WithBlank(s, context, kept), context, turn);
    if cleared in after {
      var from := LeftTab(s, context, kept, turn, cleared);
      if tab.context == context && tab.origin == ByAgent {
        FilterMember(Not(Unmarked(context, turn)), Plains(s.tabs), from);
        SamePlain(s, from, tab);
      }
    }
    if tab.context != context || tab.origin == ByUser || WasMarkedIn(tab, turn) {
      OtherTabsAreLeft(s, context, turn, tab);
    }
  }

  lemma SamePlain(s: State, a: Tab, b: Tab)
    requires Inv(s) && a in Plains(s.tabs) && b in Plains(s.tabs) && a.id == b.id
    ensures a == b
  {
    var i :| 0 <= i < |s.tabs| && Plains(s.tabs)[i] == a;
    var j :| 0 <= j < |s.tabs| && Plains(s.tabs)[j] == b;
    SameTab(s, i, j);
  }

  lemma InWithBlank(s: State, context: ContextId, kept: seq<Tab>, tab: Tab)
    ensures tab in WithBlank(s, context, kept) <==> tab in kept || (!HasTab(kept, context) && tab == Blank(s, context))
  {
  }

  lemma BlankIsNone(s: State, context: ContextId, tab: Tab)
    requires Inv(s) && tab in Plains(s.tabs)
    ensures tab != Blank(s, context)
  {
    NewTabIsNew(s, context, ByUser);
    var i :| 0 <= i < |s.tabs| && Plains(s.tabs)[i] == tab;
    assert s.tabs[i].id == tab.id;
  }

  /** Any tab after the end of a turn was there before it, or is the blank one of the user. */
  lemma TurnEndedAddsNothing(s: State, context: ContextId, turn: string, tab: Tab)
    requires Inv(s) && HasTab(s.tabs, context) && tab in Plains(TurnEnded(s, context, turn).state.tabs)
    ensures || (exists from :: from in Plains(s.tabs) && from.(mark := None) == tab.(mark := None))
            || IsNewIn(s, tab, context, ByUser)
  {
    TurnEndedIsExact(s, context, turn);
    var kept := Filter(Not(Unmarked(context, turn)), Plains(s.tabs));
    var from := LeftTab(s, context, kept, turn, tab);
    InWithBlank(s, context, kept, from);
    FilterMember(Not(Unmarked(context, turn)), Plains(s.tabs), from);
    if from in kept {
      assert from in Plains(s.tabs) && from.(mark := None) == tab.(mark := None);
    } else {
      NewTabIsNew(s, context, ByUser);
    }
  }

  /** Of the tabs before finalizeTabs exactly the agent's in the context that are not listed are gone;
      only a blank one of the user can be new. */
  lemma FinalizeTabsTabs(s: State, context: ContextId, keep: set<nat>, tab: Tab)
    requires Inv(s) && HasTab(s.tabs, context)
    ensures var after := Plains(FinalizeTabs(s, context, keep).state.tabs);
            && (tab in Plains(s.tabs) ==>
                (tab in after <==> tab.context != context || tab.origin == ByUser || tab.agentId in keep))
            && (tab in after ==> tab in Plains(s.tabs) || IsNewIn(s, tab, context, ByUser))
  {
    FinalizeTabsIsExact(s, context, keep);
    NewTabIsNew(s, context, ByUser);
    var kept := Filter(Not(NotKept(context, keep)), Plains(s.tabs));
    FilterMember(Not(NotKept(context, keep)), Plains(s.tabs), tab);
    InWithBlank(s, context, kept, tab);
    if tab in Plains(s.tabs) {
      BlankIsNone(s, context, tab);
    }
  }
}
