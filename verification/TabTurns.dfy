/** Which tabs closing, the end of an agent's turn and finalizeTabs leave
    (crates/codex-platform/src/browser.rs, `close_tab`, `agent_turn_ended`,
    `agent_finalize_tabs`). */
module TabTurns {

  import opened Sequences
  import opened TabRuns
  import opened Tabs
  import opened Wrappers

  // ----- one tab -----

  /** The empty tab a context gets when its last one is closed. */
  function Blank(s: State, context: ContextId): Tab { Plain(NewTab(s, context, ByUser)) }

  /** The tabs that are left, and a blank one if none of them belongs to the context. */
  function WithBlank(s: State, context: ContextId, kept: seq<Tab>): seq<Tab> {
    if HasTab(kept, context) then kept else kept + [Blank(s, context)]
  }

  lemma PlainsHaveTab(tabs: seq<Tab>, context: ContextId)
    ensures HasTab(Plains(tabs), context) <==> HasTab(tabs, context)
  {
    HasTabIff(tabs, context);
    HasTabIff(Plains(tabs), context);
  }

  lemma PlainsWithout(tabs: seq<Tab>, index: nat)
    requires index < |tabs|
    ensures Plains(Without(tabs, index)) == Without(Plains(tabs), index)
  {
  }

  lemma PlainsAppend(tabs: seq<Tab>, t: Tab)
    ensures Plains(tabs + [t]) == Plains(tabs) + [Plain(t)]
  {
  }

  /** Closing a tab takes that tab away and no other, and never leaves its context without one. */
  lemma CloseTabIsExact(s: State, context: ContextId, id: TabId)
    requires Inv(s) && PositionOf(s.tabs, context, id) < |s.tabs|
    ensures var t := CloseTab(s, context, id);
            var kept := Without(Plains(s.tabs), PositionOf(s.tabs, context, id));
            && Plains(t.tabs) == WithBlank(s, context, kept)
            && (HasTab(kept, context) ==> t.nextTarget == s.nextTarget && t.nextAgentId == s.nextAgentId)
  {
    var index := PositionOf(s.tabs, context, id);
    var left := Removed(s, index);
    RemovedIsExact(s, index);
    RemovedReady(s, index);
    if index == s.activeIndex {
      ActivationIsPlain(left.(activeContext := ""), context);
    }
  }

  lemma RemovedIsExact(s: State, index: nat)
    requires index < |s.tabs|
    ensures var context := s.tabs[index].context;
            var left := Removed(s, index);
            var kept := Without(Plains(s.tabs), index);
            && Plains(left.tabs) == WithBlank(s, context, kept)
            && (HasTab(kept, context) ==> left.nextTarget == s.nextTarget && left.nextAgentId == s.nextAgentId)
  {
    var context := s.tabs[index].context;
    var rest := Without(s.tabs, index);
    PlainsWithout(s.tabs, index);
    PlainsHaveTab(rest, context);
    if !HasTab(rest, context) {
      PlainsAppend(rest, Removed(s, index).tabs[|rest|]);
    }
  }

  // ----- several tabs -----

  function NotIn(ids: seq<TabId>): Tab -> bool { (tab: Tab) => tab.id !in ids }

  function Not(p: Tab -> bool): Tab -> bool { (tab: Tab) => !p(tab) }

  lemma {:induction false} FilterAgree(p: Tab -> bool, q: Tab -> bool, tabs: seq<Tab>)
    requires forall i :: 0 <= i < |tabs| ==> p(tabs[i]) == q(tabs[i])
    ensures Filter(p, tabs) == Filter(q, tabs)
  {
    if tabs != [] {
      FilterAgree(p, q, tabs[1..]);
    }
  }

  lemma {:induction false} FilterAll(p: Tab -> bool, tabs: seq<Tab>)
    requires forall i :: 0 <= i < |tabs| ==> p(tabs[i])
    ensures Filter(p, tabs) == tabs
  {
    if tabs != [] {
      FilterAll(p, tabs[1..]);
    }
  }

  lemma FilterAround(keep: Tab -> bool, before: seq<Tab>, t: Tab, after: seq<Tab>)
    ensures Filter(keep, before + ([t] + after)) ==
            Filter(keep, before) + ((if keep(t) then [t] else []) + Filter(keep, after))
  {
    FilterConcat(keep, before, [t] + after);
    assert ([t] + after)[1..] == after;
  }

  ghost predicate NoneIs(tabs: seq<Tab>, id: TabId) {
    forall i :: 0 <= i < |tabs| ==> tabs[i].id != id
  }

  lemma SkipFirst(ids: seq<TabId>, tabs: seq<Tab>)
    requires ids != [] && NoneIs(tabs, ids[0])
    ensures Filter(NotIn(ids), tabs) == Filter(NotIn(ids[1..]), tabs)
  {
    assert ids == [ids[0]] + ids[1..];
    FilterAgree(NotIn(ids), NotIn(ids[1..]), tabs);
  }

  lemma DropMiddle(before: seq<Tab>, t: Tab, after: seq<Tab>, ids: seq<TabId>)
    requires ids != [] && t.id == ids[0]
    requires NoneIs(before, ids[0]) && NoneIs(after, ids[0])
    ensures Filter(NotIn(ids[1..]), before + after) == Filter(NotIn(ids), before + ([t] + after))
  {
    FilterAround(NotIn(ids), before, t, after);
    FilterConcat(NotIn(ids[1..]), before, after);
    SkipFirst(ids, before);
    SkipFirst(ids, after);
    assert [] + Filter(NotIn(ids), after) == Filter(NotIn(ids), after);
  }

  // Taking one tab away first changes nothing about which are left in the end.
  lemma DropOne(tabs: seq<Tab>, index: nat, ids: seq<TabId>)
    requires Ordered(tabs) && index < |tabs| && ids != [] && tabs[index].id == ids[0]
    ensures Filter(NotIn(ids[1..]), Without(tabs, index)) == Filter(NotIn(ids), tabs)
  {
    var before, after := tabs[..index], tabs[index + 1..];
    OtherIds(tabs, index);
    SplitAround(tabs, index);
    DropMiddle(before, tabs[index], after, ids);
  }

  lemma OtherIds(tabs: seq<Tab>, index: nat)
    requires Ordered(tabs) && index < |tabs|
    ensures NoneIs(tabs[..index], tabs[index].id) && NoneIs(tabs[index + 1..], tabs[index].id)
  {
  }

  lemma SplitAround(tabs: seq<Tab>, index: nat)
    requires index < |tabs|
    ensures tabs == tabs[..index] + ([tabs[index]] + tabs[index + 1..])
  {
  }

  /** The ids are distinct and all name tabs of the context. */
  ghost predicate AreTabsOf(ids: seq<TabId>, tabs: seq<Tab>, context: ContextId) {
    && (forall i, j :: 0 <= i < j < |ids| ==> ids[i] != ids[j])
    && forall i :: 0 <= i < |ids| ==> Names(tabs, context, ids[i])
  }

  lemma NamesPosition(tabs: seq<Tab>, context: ContextId, id: TabId)
    requires Names(tabs, context, id)
    ensures PositionOf(tabs, context, id) < |tabs|
  {
  }

  lemma NamesWithout(tabs: seq<Tab>, index: nat, context: ContextId, id: TabId)
    requires index < |tabs| && Names(tabs, context, id) && id != tabs[index].id
    ensures Names(Without(tabs, index), context, id)
  {
    var i :| 0 <= i < |tabs| && tabs[i].context == context && tabs[i].id == id;
    WithoutAt(tabs, index, if i < index then i else i - 1);
  }

  lemma NamesPlain(tabs: seq<Tab>, other: seq<Tab>, context: ContextId, id: TabId)
    requires Names(tabs, context, id) && Plains(tabs) == Plains(other)
    ensures Names(other, context, id)
  {
    var i :| 0 <= i < |tabs| && tabs[i].context == context && tabs[i].id == id;
    assert Plain(other[i]) == Plains(other)[i] == Plains(tabs)[i] == Plain(tabs[i]);
  }

  lemma RestAreTabsOf(s: State, context: ContextId, ids: seq<TabId>)
    requires Inv(s) && ids != [] && AreTabsOf(ids, s.tabs, context)
    ensures var index := PositionOf(s.tabs, context, ids[0]);
            && index < |s.tabs|
            && AreTabsOf(ids[1..], Without(s.tabs, index), context)
            && (!HasTab(Without(s.tabs, index), context) ==> ids[1..] == [])
  {
    NamesPosition(s.tabs, context, ids[0]);
    var index := PositionOf(s.tabs, context, ids[0]);
    forall i | 0 <= i < |ids[1..]| ensures Names(Without(s.tabs, index), context, ids[1..][i]) {
      assert Names(s.tabs, context, ids[i + 1]);
      NamesWithout(s.tabs, index, context, ids[i + 1]);
    }
    if ids[1..] != [] {
      NamedHasTab(Without(s.tabs, index), context, ids[1..][0]);
    }
  }

  lemma PlainsOrdered(tabs: seq<Tab>)
    requires Ordered(tabs)
    ensures Ordered(Plains(tabs))
  {
  }

  /** Closing tabs of a context one after the other leaves all others, in order, and a blank tab
      exactly if none of the context's tabs is left. */
  lemma {:induction false} CloseAllIsExact(s: State, context: ContextId, ids: seq<TabId>)
    requires Inv(s) && HasTab(s.tabs, context) && AreTabsOf(ids, s.tabs, context)
    ensures Plains(CloseAll(s, context, ids).tabs) == WithBlank(s, context, Filter(NotIn(ids), Plains(s.tabs)))
    decreases |ids|
  {
    if ids == [] {
      FilterAll(NotIn(ids), Plains(s.tabs));
      PlainsHaveTab(s.tabs, context);
    } else {
      RestAreTabsOf(s, context, ids);
      CloseTabIsExact(s, context, ids[0]);
      CloseTabHolds(s, context, ids[0]);
      var index := PositionOf(s.tabs, context, ids[0]);
      var rest := Without(s.tabs, index);
      var t := CloseTab(s, context, ids[0]);
      PlainsOrdered(s.tabs);
      PlainsWithout(s.tabs, index);
      PlainsHaveTab(rest, context);
      DropOne(Plains(s.tabs), index, ids);
      if HasTab(rest, context) {
        PlainsHaveTab(t.tabs, context);
        forall i | 0 <= i < |ids[1..]| ensures Names(t.tabs, context, ids[1..][i]) {
          NamesPlain(rest, t.tabs, context, ids[1..][i]);
        }
        CloseAllIsExact(t, context, ids[1..]);
      } else {
        FilterAll(NotIn(ids[1..]), Plains(rest));
      }
    }
  }

  // ----- the end of a turn -----

  lemma DoomedAreTabsOf(s: State, context: ContextId, doomed: Tab -> bool)
    requires Inv(s) && forall t :: doomed(t) ==> t.context == context
    ensures AreTabsOf(Ids(Filter(doomed, s.tabs)), s.tabs, context)
  {
    var closing := Filter(doomed, s.tabs);
    var ids := Ids(closing);
    FilterOrdered(s.tabs, doomed);
    forall i | 0 <= i < |ids| ensures Names(s.tabs, context, ids[i]) {
      var j := KeptFrom(s.tabs, doomed, i);
      assert s.tabs[j].context == context && s.tabs[j].id == ids[i];
    }
  }

  lemma DoomedById(s: State, doomed: Tab -> bool, i: nat)
    requires Inv(s) && i < |s.tabs| && IsPlain(doomed)
    ensures Plains(s.tabs)[i].id in Ids(Filter(doomed, s.tabs)) <==> doomed(Plains(s.tabs)[i])
  {
    var closing := Filter(doomed, s.tabs);
    var t := s.tabs[i];
    assert doomed(t) == doomed(Plain(t));
    FilterMember(doomed, s.tabs, t);
    if doomed(t) {
      var k :| 0 <= k < |closing| && closing[k] == t;
      assert Ids(closing)[k] == t.id;
    }
    if t.id in Ids(closing) {
      var k :| 0 <= k < |closing| && Ids(closing)[k] == t.id;
      var j := KeptFrom(s.tabs, doomed, k);
      assert j == i;
    }
  }

  /** Closing the tabs of a context that a rule dooms leaves exactly the others. */
  lemma CloseDoomedIsExact(s: State, context: ContextId, doomed: Tab -> bool)
    requires Inv(s) && HasTab(s.tabs, context) && IsPlain(doomed) && forall t :: doomed(t) ==> t.context == context
    ensures var closed := CloseAll(s, context, Ids(Filter(doomed, s.tabs)));
            && Inv(closed) && HasTab(closed.tabs, context)
            && Plains(closed.tabs) == WithBlank(s, context, Filter(Not(doomed), Plains(s.tabs)))
  {
    var ids := Ids(Filter(doomed, s.tabs));
    DoomedAreTabsOf(s, context, doomed);
    CloseAllHolds(s, context, ids);
    CloseAllIsExact(s, context, ids);
    forall i | 0 <= i < |s.tabs| ensures NotIn(ids)(Plains(s.tabs)[i]) == Not(doomed)(Plains(s.tabs)[i]) {
      DoomedById(s, doomed, i);
    }
    FilterAgree(NotIn(ids), Not(doomed), Plains(s.tabs));
    var kept := Filter(Not(doomed), Plains(s.tabs));
    HasTabAppend(kept, Blank(s, context), context);
    PlainsHaveTab(CloseAll(s, context, ids).tabs, context);
  }

  lemma ClearMarksOfPlains(tabs: seq<Tab>, context: ContextId, turn: string)
    ensures Plains(ClearMarks(tabs, context, turn)) == ClearMarks(Plains(tabs), context, turn)
  {
  }

  /** After `turnEnded` the tabs are those before it but for the agent's tabs of the context that
      were not marked in that turn, in the same order; a blank one of the user is added exactly if
      the context would have none; the marks of the turn are gone and no others. */
  lemma TurnEndedIsExact(s: State, context: ContextId, turn: string)
    requires Inv(s) && HasTab(s.tabs, context)
    ensures var t := TurnEnded(s, context, turn).state;
            && Inv(t)
            && Plains(t.tabs) ==
               ClearMarks(WithBlank(s, context, Filter(Not(Unmarked(context, turn)), Plains(s.tabs))), context, turn)
  {
    CloseDoomedIsExact(s, context, Unmarked(context, turn));
    TurnEndedHolds(s, context, turn);
    ClearMarksOfPlains(CloseAll(s, context, Ids(Filter(Unmarked(context, turn), s.tabs))).tabs, context, turn);
  }

  /** After `finalizeTabs` the tabs are those before it but for the agent's tabs of the context
      that are not listed, and a blank one if the context would have none. */
  lemma FinalizeTabsIsExact(s: State, context: ContextId, keep: set<nat>)
    requires Inv(s) && HasTab(s.tabs, context)
    ensures var t := FinalizeTabs(s, context, keep).state;
            && Inv(t) && context !in t.overrides
            && Plains(t.tabs) == WithBlank(s, context, Filter(Not(NotKept(context, keep)), Plains(s.tabs)))
  {
    CloseDoomedIsExact(s, context, NotKept(context, keep));
    var closed := CloseAll(s, context, Ids(Filter(NotKept(context, keep), s.tabs)));
    ResetOverrideHolds(closed, context);
    ResetIsPlain(closed, context);
  }

  lemma FinalizeTabsHolds(s: State, context: ContextId, keep: set<nat>)
    requires Inv(s)
    ensures Inv(FinalizeTabs(s, context, keep).state)
  {
    if HasTab(s.tabs, context) {
      FinalizeTabsIsExact(s, context, keep);
    }
  }

  lemma ResetIsPlain(s: State, context: ContextId)
    ensures Plains(ResetOverride(s, context).tabs) == Plains(s.tabs)
    ensures ResetOverride(s, context).overrides == s.overrides - {context}
  {
  }

  lemma LeftHasTab(s: State, context: ContextId, kept: seq<Tab>)
    ensures HasTab(WithBlank(s, context, kept), context)
  {
    HasTabAppend(kept, Blank(s, context), context);
  }

  lemma LeftTab(s: State, context: ContextId, kept: seq<Tab>, turn: string, tab: Tab) returns (from: Tab)
    requires tab in ClearMarks(WithBlank(s, context, kept), context, turn)
    ensures tab == Unmark(from, context, turn) && from in WithBlank(s, context, kept)
    ensures tab.origin == ByAgent ==> from in kept
  {
    var left := WithBlank(s, context, kept);
    var i :| 0 <= i < |left| && ClearMarks(left, context, turn)[i] == tab;
    from := left[i];
    assert i < |kept| ==> from == kept[i];
  }

  /** The agent's tabs left in the context at the end of a turn are those it marked in that turn,
      and no mark of the turn is left. */
  lemma OnlyMarkedTabsAreLeft(s: State, context: ContextId, turn: string, tab: Tab)
    requires Inv(s) && HasTab(s.tabs, context)
    requires tab in Plains(TurnEnded(s, context, turn).state.tabs) && tab.context == context
    ensures !IsMarked(tab, turn)
    ensures tab.origin == ByAgent ==> WasMarked(s, tab.id, turn)
  {
    TurnEndedIsExact(s, context, turn);
    var kept := Filter(Not(Unmarked(context, turn)), Plains(s.tabs));
    var from := LeftTab(s, context, kept, turn, tab);
    if tab.origin == ByAgent {
      FilterMember(Not(Unmarked(context, turn)), Plains(s.tabs), from);
    }
  }

  lemma ContextKeepsATab(s: State, context: ContextId, turn: string)
    requires Inv(s) && HasTab(s.tabs, context)
    ensures HasTab(TurnEnded(s, context, turn).state.tabs, context)
  {
    TurnEndedIsExact(s, context, turn);
    var kept := Filter(Not(Unmarked(context, turn)), Plains(s.tabs));
    var left := WithBlank(s, context, kept);
    LeftHasTab(s, context, kept);
    assert ClearMarks(left, context, turn)[Position(left, context)].context == context;
    PlainsHaveTab(TurnEnded(s, context, turn).state.tabs, context);
  }

  ghost predicate WasMarked(s: State, id: TabId, turn: string) {
    exists tab :: tab in Plains(s.tabs) && tab.id == id && tab.origin == ByAgent && IsMarked(tab, turn)
  }

  /** No tab is lost that the agent marked in this turn, that the user opened, or that belongs to
      another context. */
  lemma OtherTabsAreLeft(s: State, context: ContextId, turn: string, tab: Tab)
    requires Inv(s) && HasTab(s.tabs, context) && tab in Plains(s.tabs)
    requires tab.context != context || tab.origin == ByUser || IsMarked(tab, turn)
    ensures Unmark(tab, context, turn) in Plains(TurnEnded(s, context, turn).state.tabs)
  {
    TurnEndedIsExact(s, context, turn);
    var kept := Filter(Not(Unmarked(context, turn)), Plains(s.tabs));
    var left := WithBlank(s, context, kept);
    FilterMember(Not(Unmarked(context, turn)), Plains(s.tabs), tab);
    var i :| 0 <= i < |kept| && kept[i] == tab;
    assert left[i] == tab;
    assert ClearMarks(left, context, turn)[i] == Unmark(tab, context, turn);
  }

  // ----- commands that neither open nor close a tab -----

  lemma ActivateAtIsPlain(s: State, context: ContextId, index: nat)
    requires index < |s.tabs|
    ensures Plains(ActivateAt(s, context, index).tabs) == Plains(s.tabs)
  {
  }

  /** A new tab comes last, belongs to the context and becomes the active one; the others stay. */
  lemma OpenTabIsExact(s: State, context: ContextId, origin: Origin)
    requires Inv(s) && |s.tabs| < MAX_TABS
    ensures var t := OpenTab(s, context, origin).state;
            && Plains(t.tabs) == Plains(s.tabs) + [Plain(NewTab(s, context, origin))]
            && t.activeIndex == |s.tabs| && t.activeContext == context
  {
    PlainsAppend(s.tabs, NewTab(s, context, origin));
    ActivateAtIsPlain(Attach(s, context, origin), context, |s.tabs|);
  }

  lemma RecastIsPlain(s: State, size: Size)
    ensures Plains(Recast(s, size).tabs) == Plains(s.tabs)
    ensures forall i :: 0 <= i < |s.tabs| ==> Recast(s, size).tabs[i].emulated == s.tabs[i].emulated
  {
  }

  lemma UnsetIsPlain(tabs: seq<Tab>, overrides: map<ContextId, Size>, size: Size)
    ensures Plains(EmulateUnset(tabs, overrides, size)) == Plains(tabs)
  {
  }

  /** A new size of the surface changes no tab but its viewport, and no viewport of a context that
      has its own. */
  lemma ResizeIsExact(s: State, width: nat, height: nat)
    ensures var t := Resize(s, width, height);
            && Plains(t.tabs) == Plains(s.tabs) && t.activeIndex == s.activeIndex && t.overrides == s.overrides
            && forall i :: 0 <= i < |s.tabs| ==>
                 t.tabs[i].emulated == if s.tabs[i].context in s.overrides then s.tabs[i].emulated else t.surface
  {
    var size := Resize(s, width, height).surface;
    UnsetIsPlain(s.tabs, s.overrides, size);
    RecastIsPlain(s.(surface := size, tabs := EmulateUnset(s.tabs, s.overrides, size)), size);
  }

  function Applied(t: Tab, context: ContextId, size: Size, active: bool): Tab {
    var emulated := if t.context == context then t.(emulated := size) else t;
    if active then emulated.(cast := Some(size)) else emulated
  }

  lemma AppliedTab(s: State, context: ContextId, i: nat)
    requires i < |s.tabs|
    ensures ApplyViewport(s, context).tabs[i] ==
            Applied(s.tabs[i], context, Effective(s.overrides, s.surface, context),
                    s.activeContext == context && i == s.activeIndex)
  {
  }

  // The viewport in force changes nothing.
  lemma AppliedAgain(s: State, context: ContextId, i: nat)
    requires Inv(s) && i < |s.tabs|
    ensures Applied(s.tabs[i], context, Effective(s.overrides, s.surface, context),
                    s.activeContext == context && i == s.activeIndex) == s.tabs[i]
  {
    assert TabHolds(s.tabs[i], s.overrides, s.surface, s.nextAgentId, s.nextTarget);
  }

  lemma SetThenReset(s: State, overrides: map<ContextId, Size>, context: ContextId, i: nat)
    requires Inv(s) && i < |s.tabs|
    ensures var applied := ApplyViewport(s.(overrides := overrides), context);
            ApplyViewport(applied.(overrides := s.overrides), context).tabs[i] == s.tabs[i]
  {
    var applied := ApplyViewport(s.(overrides := overrides), context);
    AppliedTab(s.(overrides := overrides), context, i);
    AppliedTab(applied.(overrides := s.overrides), context, i);
    AppliedAgain(s, context, i);
  }

  lemma SetThenResetTabs(s: State, overrides: map<ContextId, Size>, context: ContextId)
    requires Inv(s)
    ensures var applied := ApplyViewport(s.(overrides := overrides), context);
            ApplyViewport(applied.(overrides := s.overrides), context).tabs == s.tabs
  {
    var applied := ApplyViewport(s.(overrides := overrides), context);
    var tabs := ApplyViewport(applied.(overrides := s.overrides), context).tabs;
    forall i | 0 <= i < |s.tabs| ensures tabs[i] == s.tabs[i] {
      SetThenReset(s, overrides, context, i);
    }
  }

  /** Resetting a context's viewport undoes setting it. */
  lemma ResetUndoesSet(s: State, context: ContextId, size: Size)
    requires Inv(s) && HasTab(s.tabs, context) && context !in s.overrides
    ensures ResetOverride(SetViewport(s, context, size).state, context) == s
  {
    var overrides := s.overrides[context := size];
    assert overrides - {context} == s.overrides;
    SetThenResetTabs(s, overrides, context);
    HasTabIff(s.tabs, context);
  }

  // ----- leaving a context and coming back -----

  lemma LeavingByOpening(s: State, other: ContextId)
    requires Inv(s) && !HasTab(s.tabs, other) && other != "" && other != s.activeContext && |s.tabs| < MAX_TABS
    ensures var away := ActivateContext(s, other).state;
            && Inv(away) && away.activeContext == other && Plains(s.tabs) <= Plains(away.tabs)
            && away.activeTabIds - {other} == s.activeTabIds - {other}
  {
    ActivateContextHolds(s, other);
    OpenTabIsExact(s, other, ByUser);
  }

  lemma LeavingKeepsEntries(s: State, other: ContextId)
    requires Inv(s) && other != "" && other != s.activeContext && ActivateContext(s, other).error.None?
    ensures var away := ActivateContext(s, other).state;
            && Inv(away) && away.activeContext == other && Plains(s.tabs) <= Plains(away.tabs)
            && away.activeTabIds - {other} == s.activeTabIds - {other}
  {
    if HasTab(s.tabs, other) {
      ActivateContextHolds(s, other);
      ActivationIsPlain(s, other);
    } else {
      LeavingByOpening(s, other);
    }
  }

  lemma ArrivingFindsTheEntry(s: State, context: ContextId)
    requires Inv(s) && context in s.activeTabIds && context != s.activeContext
    ensures var t := ActivateContext(s, context).state;
            t.activeContext == context && t.activeIndex < |t.tabs|
              && t.tabs[t.activeIndex].id == s.activeTabIds[context]
  {
    assert Remembered(s.tabs, s.activeTabIds, context);
    NamesPosition(s.tabs, context, s.activeTabIds[context]);
  }

  lemma EntriesAgree(a: map<ContextId, TabId>, b: map<ContextId, TabId>, other: ContextId, context: ContextId)
    requires a - {other} == b - {other} && context != other && context in a
    ensures context in b && a[context] == b[context]
  {
    assert context in a - {other} && (a - {other})[context] == a[context];
    assert context in b - {other} && (b - {other})[context] == b[context];
  }

  lemma ActiveContextIsRemembered(s: State)
    requires Inv(s) && s.tabs != []
    ensures s.activeContext in s.activeTabIds && s.activeContext != ""
  {
    assert Remembered(s.tabs, s.activeTabIds, s.activeContext);
    assert TabHolds(s.tabs[s.activeIndex], s.overrides, s.surface, s.nextAgentId, s.nextTarget);
    HasTabIff(s.tabs, s.activeContext);
  }

  // Tabs are told apart by their ids.
  lemma SameIdSameIndex(tabs: seq<Tab>, more: seq<Tab>, i: nat, j: nat)
    requires Ordered(more) && Plains(tabs) <= Plains(more) && i < |tabs| && j < |more|
    ensures more[j].id == tabs[i].id <==> j == i
  {
    assert Plains(more)[i] == Plains(tabs)[i];
  }

  /** Leaving a context for another and coming back finds the tab its entry names: the one that
      was active, if and only if the entry named it. */
  lemma ComingBackFindsTheEntry(s: State, other: ContextId)
    requires Inv(s) && s.tabs != [] && other != "" && other != s.activeContext && ActivateContext(s, other).error.None?
    ensures var away := ActivateContext(s, other).state;
            var back := ActivateContext(away, s.activeContext).state;
            && s.activeContext in s.activeTabIds && s.activeIndex < |s.tabs| && Plains(s.tabs) <= Plains(back.tabs)
            && back.activeContext == s.activeContext && back.activeIndex < |back.tabs|
            && back.tabs[back.activeIndex].id == s.activeTabIds[s.activeContext]
            && (back.activeIndex == s.activeIndex <==> s.activeTabIds[s.activeContext] == s.tabs[s.activeIndex].id)
  {
    var context := s.activeContext;
    ActiveContextIsRemembered(s);
    LeavingKeepsEntries(s, other);
    var away := ActivateContext(s, other).state;
    EntriesAgree(s.activeTabIds, away.activeTabIds, other, context);
    ArrivingFindsTheEntry(away, context);
    assert Remembered(away.tabs, away.activeTabIds, context);
    ActivationIsPlain(away, context);
    ActivateContextHolds(away, context);
    var back := ActivateContext(away, context).state;
    SameIdSameIndex(s.tabs, back.tabs, s.activeIndex, back.activeIndex);
  }

  /** Among the tabs of its context, the one at `active` is the first once that at `index` is gone. */
  predicate IsFirstWithout(tabs: seq<Tab>, active: nat, index: nat)
    requires active < |tabs|
  {
    forall i :: 0 <= i < active && tabs[i].context == tabs[active].context ==> i == index
  }

  lemma FirstIsFound(tabs: seq<Tab>, active: nat, index: nat)
    requires active < |tabs| && index < |tabs| && index != active && IsFirstWithout(tabs, active, index)
    ensures Position(Without(tabs, index), tabs[active].context) == if index < active then active - 1 else active
  {
    var rest, left := Without(tabs, index), if index < active then active - 1 else active;
    WithoutAt(tabs, index, left);
    forall i | 0 <= i < left ensures rest[i].context != tabs[active].context {
      WithoutAt(tabs, index, i);
    }
  }

  lemma FoundIsFirst(tabs: seq<Tab>, active: nat, index: nat, i: nat)
    requires active < |tabs| && index < |tabs| && index != active
    requires Position(Without(tabs, index), tabs[active].context) == if index < active then active - 1 else active
    requires i < active && i != index
    ensures tabs[i].context != tabs[active].context
  {
    WithoutAt(tabs, index, if i < index then i else i - 1);
  }

  lemma FirstAfterRemoval(tabs: seq<Tab>, active: nat, index: nat)
    requires active < |tabs| && index < |tabs| && index != active
    ensures IsFirstWithout(tabs, active, index) <==>
            Position(Without(tabs, index), tabs[active].context) == if index < active then active - 1 else active
  {
    if IsFirstWithout(tabs, active, index) {
      FirstIsFound(tabs, active, index);
    } else {
      var i :| 0 <= i < active && tabs[i].context == tabs[active].context && i != index;
      if Position(Without(tabs, index), tabs[active].context) == if index < active then active - 1 else active {
        FoundIsFirst(tabs, active, index, i);
        assert false;
      }
    }
  }

  // What closing another tab of the active context leaves.
  lemma ClosingAnother(s: State, id: TabId)
    requires Inv(s) && s.tabs != []
    requires PositionOf(s.tabs, s.activeContext, id) < |s.tabs|
             && PositionOf(s.tabs, s.activeContext, id) != s.activeIndex
    ensures var index := PositionOf(s.tabs, s.activeContext, id);
            var t := CloseTab(s, s.activeContext, id);
            var first := Position(t.tabs, s.activeContext);
            && t.tabs == Without(s.tabs, index) && t.activeContext == s.activeContext
            && t.activeIndex == (if index < s.activeIndex then s.activeIndex - 1 else s.activeIndex)
            && first < |t.tabs| && t.activeContext in t.activeTabIds
            && t.activeTabIds[t.activeContext] == t.tabs[first].id
  {
    var index := PositionOf(s.tabs, s.activeContext, id);
    ActiveWithout(s, index);
    HasTabIff(Without(s.tabs, index), s.activeContext);
  }

  /** Closing another tab of the active context points its entry to the first one left: the entry
      names the active tab afterwards exactly if no other tab of the context comes before it,
      but for the one that is closed. */
  lemma ClosingMovesTheEntry(s: State, id: TabId)
    requires Inv(s) && s.tabs != []
    requires PositionOf(s.tabs, s.activeContext, id) < |s.tabs|
             && PositionOf(s.tabs, s.activeContext, id) != s.activeIndex
    ensures var t := CloseTab(s, s.activeContext, id);
            && t.activeContext == s.activeContext && t.activeContext in t.activeTabIds
            && t.activeIndex < |t.tabs| && t.tabs[t.activeIndex] == s.tabs[s.activeIndex]
            && (t.activeTabIds[t.activeContext] == s.tabs[s.activeIndex].id <==>
                IsFirstWithout(s.tabs, s.activeIndex, PositionOf(s.tabs, s.activeContext, id)))
  {
    var index := PositionOf(s.tabs, s.activeContext, id);
    ClosingAnother(s, id);
    ActiveWithout(s, index);
    FirstAfterRemoval(s.tabs, s.activeIndex, index);
    OrderedWithout(s.tabs, index);
    var t := CloseTab(s, s.activeContext, id);
    SameIdSameIndex(t.tabs, t.tabs, t.activeIndex, Position(t.tabs, t.activeContext));
  }

  /** Closing an inactive tab of the active context, visiting another context and coming back
      finds the tab that was active exactly if no other tab of its context came before it, but for
      the one that was closed. */
  lemma CloseLeaveComeBack(s: State, id: TabId, other: ContextId)
    requires Inv(s) && s.tabs != [] && other != "" && other != s.activeContext
    requires PositionOf(s.tabs, s.activeContext, id) < |s.tabs|
             && PositionOf(s.tabs, s.activeContext, id) != s.activeIndex
    ensures var away := ActivateContext(CloseTab(s, s.activeContext, id), other);
            var back := ActivateContext(away.state, s.activeContext).state;
            && away.error.None? && away.state.activeContext == other
            && back.activeContext == s.activeContext && back.activeIndex < |back.tabs|
            && (back.tabs[back.activeIndex].id == s.tabs[s.activeIndex].id <==>
                IsFirstWithout(s.tabs, s.activeIndex, PositionOf(s.tabs, s.activeContext, id)))
  {
    ClosingMovesTheEntry(s, id);
    CloseTabHolds(s, s.activeContext, id);
    FewerAfterClosing(s, id);
    var t := CloseTab(s, s.activeContext, id);
    LeavingKeepsEntries(t, other);
    ComingBackFindsTheEntry(t, other);
  }

  lemma FewerAfterClosing(s: State, id: TabId)
    requires Inv(s) && s.tabs != []
    requires PositionOf(s.tabs, s.activeContext, id) < |s.tabs|
             && PositionOf(s.tabs, s.activeContext, id) != s.activeIndex
    ensures |CloseTab(s, s.activeContext, id).tabs| == |s.tabs| - 1
  {
    ActiveWithout(s, PositionOf(s.tabs, s.activeContext, id));
  }
}
