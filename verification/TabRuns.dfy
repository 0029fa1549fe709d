/** What every command on tabs, contexts and viewports keeps
    (crates/codex-platform/src/browser.rs, the tab, context and viewport methods of
    `BrowserRuntime`). */
module TabRuns {

  import opened Sequences
  import opened Tabs
  import opened Wrappers

  // ----- the invariant -----

  /** Older tabs come first, so neither number is used twice. */
  ghost predicate Ordered(tabs: seq<Tab>) {
    forall i, j :: 0 <= i < j < |tabs| ==> tabs[i].id < tabs[j].id && tabs[i].agentId < tabs[j].agentId
  }

  /** What holds of a tab whichever is active; its viewport is that of its context. */
  predicate TabHolds(t: Tab, overrides: map<ContextId, Size>, surface: Size, nextAgentId: nat, nextTarget: TabId) {
    && t.context != ""
    && t.id < nextTarget && t.agentId < nextAgentId
    && t.emulated == Effective(overrides, surface, t.context)
  }

  ghost predicate TabsHold(tabs: seq<Tab>, overrides: map<ContextId, Size>, surface: Size, nextAgentId: nat,
                           nextTarget: TabId) {
    forall i :: 0 <= i < |tabs| ==> TabHolds(tabs[i], overrides, surface, nextAgentId, nextTarget)
  }

  ghost predicate Names(tabs: seq<Tab>, context: ContextId, id: TabId) {
    exists i :: 0 <= i < |tabs| && tabs[i].context == context && tabs[i].id == id
  }

  /** The context `c` has an entry iff it has a tab, and the entry names one of its tabs. */
  ghost predicate Remembered(tabs: seq<Tab>, activeTabIds: map<ContextId, TabId>, c: ContextId) {
    && (c in activeTabIds <==> HasTab(tabs, c))
    && (c in activeTabIds ==> Names(tabs, c, activeTabIds[c]))
  }

  ghost predicate Base(s: State) {
    && |s.tabs| <= MAX_TABS
    && Ordered(s.tabs)
    && TabsHold(s.tabs, s.overrides, s.surface, s.nextAgentId, s.nextTarget)
    && forall c :: c in s.overrides ==> HasTab(s.tabs, c)
  }

  /** No tab but the one at `index` is cast. */
  ghost predicate CastOnlyAt(tabs: seq<Tab>, index: nat) {
    forall i :: 0 <= i < |tabs| && i != index ==> tabs[i].cast.None?
  }

  predicate ActiveHolds(s: State) {
    s.tabs == [] ||
    (&& s.activeIndex < |s.tabs|
     && s.tabs[s.activeIndex].context == s.activeContext
     && s.viewport == Effective(s.overrides, s.surface, s.activeContext)
     && s.tabs[s.activeIndex].cast == Some(s.viewport))
  }

  ghost predicate Inv(s: State) {
    && Base(s)
    && (forall c :: Remembered(s.tabs, s.activeTabIds, c))
    && CastOnlyAt(s.tabs, s.activeIndex)
    && ActiveHolds(s)
  }

  /** The invariant but for what activating a tab of `context` sets right. */
  ghost predicate Ready(s: State, context: ContextId) {
    && Base(s)
    && (forall c :: c != context ==> Remembered(s.tabs, s.activeTabIds, c))
    && CastOnlyAt(s.tabs, s.activeIndex)
  }

  // ----- looking up -----

  lemma HasTabIff(tabs: seq<Tab>, context: ContextId)
    ensures HasTab(tabs, context) <==> exists i :: 0 <= i < |tabs| && tabs[i].context == context
  {
  }

  lemma NamedHasTab(tabs: seq<Tab>, context: ContextId, id: TabId)
    requires Names(tabs, context, id)
    ensures HasTab(tabs, context)
  {
  }

  /** Tabs that differ only in what the browser was told of them. */
  ghost predicate SameTabs(a: seq<Tab>, b: seq<Tab>) {
    |a| == |b| && forall i :: 0 <= i < |a| ==>
      a[i].context == b[i].context && a[i].id == b[i].id && a[i].agentId == b[i].agentId
  }

  lemma SameTabsRemembered(a: seq<Tab>, b: seq<Tab>, activeTabIds: map<ContextId, TabId>, c: ContextId)
    requires SameTabs(a, b) && Remembered(a, activeTabIds, c)
    ensures Remembered(b, activeTabIds, c)
  {
    HasTabIff(a, c);
    HasTabIff(b, c);
    if c in activeTabIds {
      var i :| 0 <= i < |a| && a[i].context == c && a[i].id == activeTabIds[c];
      assert b[i].context == c && b[i].id == activeTabIds[c];
    }
  }

  lemma SameTabsHas(a: seq<Tab>, b: seq<Tab>, c: ContextId)
    requires SameTabs(a, b)
    ensures HasTab(a, c) <==> HasTab(b, c)
  {
  }

  // ----- activation -----

  lemma CastMoves(tabs: seq<Tab>, from: nat, to: nat, size: Size)
    requires CastOnlyAt(tabs, from) && to < |tabs|
    ensures var moved := StartCast(StopCast(tabs, from), to, size);
            && SameTabs(tabs, moved) && CastOnlyAt(moved, to) && moved[to].cast == Some(size)
            && forall i :: 0 <= i < |tabs| ==> moved[i].emulated == tabs[i].emulated
  {
  }

  lemma BaseOfSame(s: State, t: State)
    requires Base(s) && SameTabs(s.tabs, t.tabs)
    requires forall i :: 0 <= i < |s.tabs| ==>
             t.tabs[i].emulated == Effective(t.overrides, t.surface, t.tabs[i].context)
    requires t.nextAgentId == s.nextAgentId && t.nextTarget == s.nextTarget
    requires forall c :: c in t.overrides ==> HasTab(s.tabs, c)
    ensures Base(t)
  {
    forall c | c in t.overrides ensures HasTab(t.tabs, c) {
      SameTabsHas(s.tabs, t.tabs, c);
    }
    forall i | 0 <= i < |t.tabs| ensures TabHolds(t.tabs[i], t.overrides, t.surface, t.nextAgentId, t.nextTarget) {
      assert TabHolds(s.tabs[i], s.overrides, s.surface, s.nextAgentId, s.nextTarget);
    }
  }

  lemma ActivateAtHolds(s: State, context: ContextId, index: nat)
    requires Ready(s, context) && index < |s.tabs| && s.tabs[index].context == context
    ensures Inv(ActivateAt(s, context, index))
  {
    var t := ActivateAt(s, context, index);
    CastMoves(s.tabs, s.activeIndex, index, t.viewport);
    forall i | 0 <= i < |s.tabs| ensures t.tabs[i].emulated == Effective(t.overrides, t.surface, t.tabs[i].context) {
      assert TabHolds(s.tabs[i], s.overrides, s.surface, s.nextAgentId, s.nextTarget);
    }
    BaseOfSame(s, t);
    forall c ensures Remembered(t.tabs, t.activeTabIds, c) {
      if c == context {
        assert t.tabs[index].context == context && t.tabs[index].id == t.activeTabIds[c];
        HasTabIff(t.tabs, c);
      } else {
        assert Remembered(s.tabs, s.activeTabIds, c);
        assert Remembered(s.tabs, t.activeTabIds, c);
        SameTabsRemembered(s.tabs, t.tabs, t.activeTabIds, c);
      }
    }
  }

  // ----- new tabs -----

  lemma HasTabAppend(tabs: seq<Tab>, t: Tab, c: ContextId)
    ensures HasTab(tabs + [t], c) <==> HasTab(tabs, c) || t.context == c
  {
    HasTabIff(tabs, c);
    HasTabIff(tabs + [t], c);
    var more := tabs + [t];
    assert more[|tabs|] == t;
    if HasTab(tabs, c) {
      assert more[Position(tabs, c)].context == c;
    }
  }

  lemma RememberedAppend(tabs: seq<Tab>, t: Tab, activeTabIds: map<ContextId, TabId>, c: ContextId)
    requires Remembered(tabs, activeTabIds, c) && t.context != c
    ensures Remembered(tabs + [t], activeTabIds, c)
  {
    HasTabAppend(tabs, t, c);
    if c in activeTabIds {
      var i :| 0 <= i < |tabs| && tabs[i].context == c && tabs[i].id == activeTabIds[c];
      assert (tabs + [t])[i] == tabs[i];
    }
  }

  lemma AttachReady(s: State, context: ContextId, origin: Origin)
    requires Ready(s, context) && |s.tabs| < MAX_TABS && context != ""
    ensures Ready(Attach(s, context, origin), context)
  {
    var t := Attach(s, context, origin);
    var tab := NewTab(s, context, origin);
    forall i | 0 <= i < |t.tabs| ensures TabHolds(t.tabs[i], t.overrides, t.surface, t.nextAgentId, t.nextTarget) {
      if i < |s.tabs| {
        assert TabHolds(s.tabs[i], s.overrides, s.surface, s.nextAgentId, s.nextTarget);
      }
    }
    forall i, j | 0 <= i < j < |t.tabs| ensures t.tabs[i].id < t.tabs[j].id && t.tabs[i].agentId < t.tabs[j].agentId {
      assert TabHolds(s.tabs[i], s.overrides, s.surface, s.nextAgentId, s.nextTarget);
    }
    forall c | c in t.overrides ensures HasTab(t.tabs, c) {
      HasTabAppend(s.tabs, tab, c);
    }
    forall c | c != context ensures Remembered(t.tabs, t.activeTabIds, c) {
      RememberedAppend(s.tabs, tab, s.activeTabIds, c);
    }
  }

  lemma OpenTabHolds(s: State, context: ContextId, origin: Origin)
    requires Inv(s) && context != ""
    ensures Inv(OpenTab(s, context, origin).state)
  {
    if |s.tabs| < MAX_TABS {
      AttachReady(s, context, origin);
      var t := Attach(s, context, origin);
      ActivateAtHolds(t, context, |s.tabs|);
    }
  }

  lemma SelectTabHolds(s: State, context: ContextId, id: TabId)
    requires Inv(s)
    ensures Inv(SelectTab(s, context, id).state)
  {
    var index := PositionOf(s.tabs, context, id);
    if index < |s.tabs| {
      ActivateAtHolds(s, context, index);
    }
  }

  lemma ActivateContextHolds(s: State, context: ContextId)
    requires Inv(s) && context != ""
    ensures Inv(ActivateContext(s, context).state)
  {
    OpenTabHolds(s, context, ByUser);
    if Preferred(s, context) < |s.tabs| {
      ActivateAtHolds(s, context, Preferred(s, context));
    }
  }

  // ----- closing a tab -----

  lemma WithoutAt(tabs: seq<Tab>, index: nat, i: nat)
    requires index < |tabs| && i < |tabs| - 1
    ensures Without(tabs, index)[i] == tabs[if i < index then i else i + 1]
  {
  }

  lemma HasTabWithout(tabs: seq<Tab>, index: nat, c: ContextId)
    requires index < |tabs| && tabs[index].context != c
    ensures HasTab(Without(tabs, index), c) <==> HasTab(tabs, c)
  {
    var rest := Without(tabs, index);
    HasTabIff(tabs, c);
    HasTabIff(rest, c);
    if HasTab(tabs, c) {
      var i := Position(tabs, c);
      WithoutAt(tabs, index, if i < index then i else i - 1);
    }
    if HasTab(rest, c) {
      WithoutAt(tabs, index, Position(rest, c));
    }
  }

  lemma RememberedWithout(tabs: seq<Tab>, index: nat, activeTabIds: map<ContextId, TabId>, c: ContextId)
    requires index < |tabs| && tabs[index].context != c && Remembered(tabs, activeTabIds, c)
    ensures Remembered(Without(tabs, index), activeTabIds, c)
  {
    HasTabWithout(tabs, index, c);
    if c in activeTabIds {
      var i :| 0 <= i < |tabs| && tabs[i].context == c && tabs[i].id == activeTabIds[c];
      WithoutAt(tabs, index, if i < index then i else i - 1);
    }
  }

  lemma OrderedWithout(tabs: seq<Tab>, index: nat)
    requires Ordered(tabs) && index < |tabs|
    ensures Ordered(Without(tabs, index))
  {
    var rest := Without(tabs, index);
    forall i, j | 0 <= i < j < |rest| ensures rest[i].id < rest[j].id && rest[i].agentId < rest[j].agentId {
      WithoutAt(tabs, index, i);
      WithoutAt(tabs, index, j);
    }
  }

  lemma TabsHoldWithout(s: State, index: nat, overrides: map<ContextId, Size>)
    requires Base(s) && index < |s.tabs|
    requires overrides == s.overrides ||
             (!HasTab(Without(s.tabs, index), s.tabs[index].context)
               && overrides == s.overrides - {s.tabs[index].context})
    ensures TabsHold(Without(s.tabs, index), overrides, s.surface, s.nextAgentId, s.nextTarget)
  {
    var tabs := Without(s.tabs, index);
    HasTabIff(tabs, s.tabs[index].context);
    forall i | 0 <= i < |tabs| ensures TabHolds(tabs[i], overrides, s.surface, s.nextAgentId, s.nextTarget) {
      WithoutAt(s.tabs, index, i);
      assert TabHolds(s.tabs[if i < index then i else i + 1], s.overrides, s.surface, s.nextAgentId, s.nextTarget);
    }
  }

  lemma BaseWithout(s: State, index: nat, overrides: map<ContextId, Size>)
    requires Base(s) && index < |s.tabs|
    requires overrides == if HasTab(Without(s.tabs, index), s.tabs[index].context) then s.overrides
                          else s.overrides - {s.tabs[index].context}
    ensures Base(s.(tabs := Without(s.tabs, index), overrides := overrides))
  {
    OrderedWithout(s.tabs, index);
    TabsHoldWithout(s, index, overrides);
    forall c | c in overrides ensures HasTab(Without(s.tabs, index), c) {
      if c != s.tabs[index].context {
        HasTabWithout(s.tabs, index, c);
      }
    }
  }

  lemma CastWithout(tabs: seq<Tab>, index: nat, active: nat)
    requires index < |tabs| && CastOnlyAt(tabs, active)
    ensures CastOnlyAt(Without(tabs, index), if index < active then active - 1 else active)
    ensures index == active ==> forall i :: 0 <= i < |tabs| - 1 ==> Without(tabs, index)[i].cast.None?
  {
    forall i | 0 <= i < |tabs| - 1 ensures Without(tabs, index)[i] == tabs[if i < index then i else i + 1] {
      WithoutAt(tabs, index, i);
    }
  }

  lemma TakenAwayReady(s: State, index: nat, overrides: map<ContextId, Size>)
    requires Inv(s) && index < |s.tabs|
    requires overrides == if HasTab(Without(s.tabs, index), s.tabs[index].context) then s.overrides
                          else s.overrides - {s.tabs[index].context}
    ensures Ready(s.(tabs := Without(s.tabs, index), overrides := overrides,
                     activeIndex := if index < s.activeIndex then s.activeIndex - 1 else s.activeIndex),
                  s.tabs[index].context)
  {
    BaseWithout(s, index, overrides);
    CastWithout(s.tabs, index, s.activeIndex);
    forall c | c != s.tabs[index].context ensures Remembered(Without(s.tabs, index), s.activeTabIds, c) {
      RememberedWithout(s.tabs, index, s.activeTabIds, c);
    }
  }

  lemma ForgettingIsReady(s: State, context: ContextId)
    requires Ready(s, context)
    ensures Ready(s.(activeTabIds := s.activeTabIds - {context}), context)
  {
    forall c | c != context ensures Remembered(s.tabs, s.activeTabIds - {context}, c) {
      assert Remembered(s.tabs, s.activeTabIds, c);
    }
  }

  /** Once a tab is removed its context has a tab, and only its entry is left to be set. */
  lemma RemovedReady(s: State, index: nat)
    requires Inv(s) && index < |s.tabs|
    ensures var left := Removed(s, index);
            && Ready(left, s.tabs[index].context) && HasTab(left.tabs, s.tabs[index].context)
  {
    var context := s.tabs[index].context;
    var tabs := Without(s.tabs, index);
    var overrides := if HasTab(tabs, context) then s.overrides else s.overrides - {context};
    var left := s.(tabs := tabs, overrides := overrides,
                   activeIndex := if index < s.activeIndex then s.activeIndex - 1 else s.activeIndex);
    TakenAwayReady(s, index, overrides);
    if HasTab(tabs, context) {
      ForgettingIsReady(left, context);
    } else {
      assert TabHolds(s.tabs[index], s.overrides, s.surface, s.nextAgentId, s.nextTarget);
      AttachReady(left, context, ByUser);
      HasTabAppend(tabs, NewTab(left, context, ByUser), context);
    }
  }

  // Where the active tab is found after another one is taken away.
  lemma ActiveWithout(s: State, index: nat)
    requires Inv(s) && index < |s.tabs| && index != s.activeIndex
    ensures var tabs := Without(s.tabs, index);
            var active := if index < s.activeIndex then s.activeIndex - 1 else s.activeIndex;
            active < |tabs| && tabs[active] == s.tabs[s.activeIndex] && HasTab(tabs, s.activeContext)
  {
    WithoutAt(s.tabs, index, if index < s.activeIndex then s.activeIndex - 1 else s.activeIndex);
    HasTabIff(Without(s.tabs, index), s.activeContext);
  }

  // The active tab stays where it was, if it is not the one that is removed.
  lemma RemovedKeepsActive(s: State, index: nat)
    requires Inv(s) && index < |s.tabs| && index != s.activeIndex
    ensures var left := Removed(s, index);
            && left.activeIndex < |left.tabs| && left.tabs[left.activeIndex] == s.tabs[s.activeIndex]
            && left.activeContext == s.activeContext && left.viewport == s.viewport
            && left.viewport == Effective(left.overrides, left.surface, left.activeContext)
  {
    ActiveWithout(s, index);
  }

  lemma CloseTabHolds(s: State, context: ContextId, id: TabId)
    requires Inv(s)
    ensures Inv(CloseTab(s, context, id))
  {
    var index := PositionOf(s.tabs, context, id);
    if index < |s.tabs| {
      var left := Removed(s, index);
      RemovedReady(s, index);
      if index == s.activeIndex {
        ReactivateHolds(left, context);
      } else {
        RemovedKeepsActive(s, index);
        EntryHolds(left, context);
      }
    }
  }

  lemma ReactivateHolds(s: State, context: ContextId)
    requires Ready(s, context) && HasTab(s.tabs, context) && context != ""
    ensures Inv(ActivateContext(s.(activeContext := ""), context).state)
  {
    var cleared := s.(activeContext := "");
    ActivateAtHolds(cleared, context, Preferred(cleared, context));
  }

  lemma EntryHolds(s: State, context: ContextId)
    requires Ready(s, context) && HasTab(s.tabs, context) && ActiveHolds(s)
    ensures Inv(s.(activeTabIds := s.activeTabIds[context := s.tabs[Position(s.tabs, context)].id]))
  {
    var ids := s.activeTabIds[context := s.tabs[Position(s.tabs, context)].id];
    forall c ensures Remembered(s.tabs, ids, c) {
      if c == context {
        assert Names(s.tabs, c, ids[c]);
      } else {
        assert Remembered(s.tabs, s.activeTabIds, c);
      }
    }
  }

  /** Closing a tab that is not active leaves the same tab active. */
  lemma ClosingAnotherTabKeepsActive(s: State, context: ContextId, id: TabId)
    requires Inv(s) && s.tabs != [] && PositionOf(s.tabs, context, id) != s.activeIndex
    ensures var t := CloseTab(s, context, id);
            && t.activeIndex < |t.tabs| && t.tabs[t.activeIndex] == s.tabs[s.activeIndex]
            && t.activeContext == s.activeContext && t.viewport == s.viewport
  {
    var index := PositionOf(s.tabs, context, id);
    if index < |s.tabs| {
      RemovedKeepsActive(s, index);
    }
  }

  // ----- closing a context -----

  // Where a tab outside of the context goes.
  lemma {:induction false} CountIsDropped(tabs: seq<Tab>, context: ContextId, n: nat)
    requires n <= |tabs|
    ensures |Filter(OutsideOf(context), tabs[..n])| == n - CountBefore(tabs, context, n)
  {
    if n > 0 {
      CountIsDropped(tabs, context, n - 1);
      assert tabs[..n] == tabs[..n - 1] + [tabs[n - 1]];
      FilterConcat(OutsideOf(context), tabs[..n - 1], [tabs[n - 1]]);
    }
  }

  lemma StaysAt(tabs: seq<Tab>, context: ContextId, n: nat)
    requires n < |tabs| && tabs[n].context != context
    ensures var kept := Filter(OutsideOf(context), tabs);
            var index := n - CountBefore(tabs, context, n);
            index < |kept| && kept[index] == tabs[n]
  {
    CountIsDropped(tabs, context, n);
    assert tabs == tabs[..n] + tabs[n..];
    FilterConcat(OutsideOf(context), tabs[..n], tabs[n..]);
  }

  lemma KeptFrom(tabs: seq<Tab>, keep: Tab -> bool, i: nat) returns (j: nat)
    requires i < |Filter(keep, tabs)|
    ensures j < |tabs| && tabs[j] == Filter(keep, tabs)[i] && keep(tabs[j])
  {
    var t := Filter(keep, tabs)[i];
    FilterMember(keep, tabs, t);
    j :| 0 <= j < |tabs| && tabs[j] == t;
  }

  lemma {:induction false} FilterOrdered(tabs: seq<Tab>, keep: Tab -> bool)
    requires Ordered(tabs)
    ensures Ordered(Filter(keep, tabs))
  {
    if tabs != [] {
      FilterOrdered(tabs[1..], keep);
      var rest := Filter(keep, tabs[1..]);
      forall i | 0 <= i < |rest| ensures tabs[0].id < rest[i].id && tabs[0].agentId < rest[i].agentId {
        var j := KeptFrom(tabs[1..], keep, i);
        assert rest[i] == tabs[j + 1];
      }
    }
  }

  lemma {:induction false} FilterShorter<T>(keep: T -> bool, s: seq<T>)
    ensures |Filter(keep, s)| <= |s|
  {
    if s != [] {
      FilterShorter(keep, s[1..]);
    }
  }

  lemma OutsideHasTab(tabs: seq<Tab>, context: ContextId, c: ContextId)
    ensures HasTab(Filter(OutsideOf(context), tabs), c) <==> c != context && HasTab(tabs, c)
  {
    var kept := Filter(OutsideOf(context), tabs);
    HasTabIff(tabs, c);
    HasTabIff(kept, c);
    if c != context && HasTab(tabs, c) {
      FilterMember(OutsideOf(context), tabs, tabs[Position(tabs, c)]);
    }
    if HasTab(kept, c) {
      var j := KeptFrom(tabs, OutsideOf(context), Position(kept, c));
    }
  }

  lemma OutsideRemembered(tabs: seq<Tab>, context: ContextId, activeTabIds: map<ContextId, TabId>, c: ContextId)
    requires Remembered(tabs, activeTabIds, c)
    ensures Remembered(Filter(OutsideOf(context), tabs), activeTabIds - {context}, c)
  {
    OutsideHasTab(tabs, context, c);
    if c != context && c in activeTabIds {
      var i :| 0 <= i < |tabs| && tabs[i].context == c && tabs[i].id == activeTabIds[c];
      FilterMember(OutsideOf(context), tabs, tabs[i]);
      assert Names(Filter(OutsideOf(context), tabs), c, activeTabIds[c]);
    }
  }

  lemma OutsideBase(s: State, context: ContextId)
    requires Base(s)
    ensures Base(s.(tabs := Filter(OutsideOf(context), s.tabs), overrides := s.overrides - {context}))
  {
    var tabs := Filter(OutsideOf(context), s.tabs);
    FilterShorter(OutsideOf(context), s.tabs);
    FilterOrdered(s.tabs, OutsideOf(context));
    forall i | 0 <= i < |tabs|
      ensures TabHolds(tabs[i], s.overrides - {context}, s.surface, s.nextAgentId, s.nextTarget)
    {
      var j := KeptFrom(s.tabs, OutsideOf(context), i);
      assert TabHolds(s.tabs[j], s.overrides, s.surface, s.nextAgentId, s.nextTarget);
    }
    forall c | c in s.overrides - {context} ensures HasTab(tabs, c) {
      OutsideHasTab(s.tabs, context, c);
    }
  }

  // Without the active tab no tab is cast.
  lemma OutsideUncast(s: State, context: ContextId, index: nat)
    requires Inv(s) && IsActive(s, context)
    ensures CastOnlyAt(Filter(OutsideOf(context), s.tabs), index)
  {
    var kept := Filter(OutsideOf(context), s.tabs);
    forall i | 0 <= i < |kept| ensures kept[i].cast.None? {
      var j := KeptFrom(s.tabs, OutsideOf(context), i);
      assert j != s.activeIndex;
    }
  }

  lemma OutsideKeepsCast(s: State, context: ContextId)
    requires Inv(s) && s.tabs != [] && s.activeContext != context
    ensures var left := ContextRemoved(s, context);
            && left.activeIndex < |left.tabs| && left.tabs[left.activeIndex] == s.tabs[s.activeIndex]
            && CastOnlyAt(left.tabs, left.activeIndex)
  {
    StaysAt(s.tabs, context, s.activeIndex);
    FilterOrdered(s.tabs, OutsideOf(context));
    var left := ContextRemoved(s, context);
    forall i | 0 <= i < |left.tabs| && i != left.activeIndex ensures left.tabs[i].cast.None? {
      var j := KeptFrom(s.tabs, OutsideOf(context), i);
      assert left.tabs[i].id != left.tabs[left.activeIndex].id;
      assert j != s.activeIndex;
    }
  }

  lemma ContextRemovedBase(s: State, context: ContextId)
    requires Inv(s)
    ensures var left := ContextRemoved(s, context);
            Base(left) && forall c :: Remembered(left.tabs, left.activeTabIds, c)
  {
    var left := ContextRemoved(s, context);
    OutsideBase(s, context);
    forall c ensures Remembered(left.tabs, left.activeTabIds, c) {
      OutsideRemembered(s.tabs, context, s.activeTabIds, c);
    }
  }

  lemma NextContextHolds(left: State)
    requires Base(left) && (forall c :: Remembered(left.tabs, left.activeTabIds, c))
             && CastOnlyAt(left.tabs, left.activeIndex)
    requires left.activeIndex < |left.tabs|
    ensures Inv(ActivateContext(left.(activeContext := ""), left.tabs[left.activeIndex].context).state)
  {
    var next := left.tabs[left.activeIndex].context;
    assert TabHolds(left.tabs[left.activeIndex], left.overrides, left.surface, left.nextAgentId, left.nextTarget);
    HasTabIff(left.tabs, next);
    ReactivateHolds(left, next);
  }

  lemma CloseActiveContextHolds(s: State, context: ContextId)
    requires Inv(s) && IsActive(s, context)
    ensures Inv(CloseContext(s, context))
  {
    var left := ContextRemoved(s, context);
    ContextRemovedBase(s, context);
    OutsideUncast(s, context, left.activeIndex);
    if left.activeIndex < |left.tabs| {
      NextContextHolds(left);
    }
  }

  lemma CloseContextHolds(s: State, context: ContextId)
    requires Inv(s)
    ensures Inv(CloseContext(s, context))
  {
    if IsActive(s, context) {
      CloseActiveContextHolds(s, context);
    } else {
      ContextRemovedBase(s, context);
      if s.tabs != [] {
        OutsideKeepsCast(s, context);
      }
    }
  }

  /** Closing a context closes its tabs and no other, and leaves the active tab active unless it
      is one of them. */
  lemma CloseContextIsExact(s: State, context: ContextId)
    requires Inv(s)
    ensures var t := CloseContext(s, context);
            && (forall tab :: tab in Plains(t.tabs) <==> tab in Plains(s.tabs) && tab.context != context)
            && (s.tabs != [] && s.activeContext != context ==>
                t.activeIndex < |t.tabs| && t.tabs[t.activeIndex] == s.tabs[s.activeIndex]
                && t.activeContext == s.activeContext && t.viewport == s.viewport)
  {
    var left := ContextRemoved(s, context);
    if s.tabs != [] && s.activeContext != context {
      OutsideKeepsCast(s, context);
    }
    var t := CloseContext(s, context);
    assert Plains(t.tabs) == Plains(left.tabs) by {
      if IsActive(s, context) && left.activeIndex < |left.tabs| {
        var cleared := left.(activeContext := "");
        HasTabIff(left.tabs, left.tabs[left.activeIndex].context);
        ActivationIsPlain(cleared, left.tabs[left.activeIndex].context);
      }
    }
    PlainsOfFilter(OutsideOf(context), s.tabs);
    forall tab ensures tab in Plains(t.tabs) <==> tab in Plains(s.tabs) && tab.context != context {
      FilterMember(OutsideOf(context), Plains(s.tabs), tab);
    }
  }

  // ----- viewports and marks -----

  lemma SameTabsHolds(s: State, t: State)
    requires Inv(s) && Base(t) && SameTabs(s.tabs, t.tabs) && t.activeTabIds == s.activeTabIds
    requires CastOnlyAt(t.tabs, t.activeIndex) && ActiveHolds(t)
    ensures Inv(t)
  {
    forall c ensures Remembered(t.tabs, t.activeTabIds, c) {
      SameTabsRemembered(s.tabs, t.tabs, s.activeTabIds, c);
    }
  }

  ghost predicate SameCasts(a: seq<Tab>, b: seq<Tab>)
    requires |a| == |b|
  {
    forall i :: 0 <= i < |a| ==> a[i].cast == b[i].cast
  }

  /** Tabs `t.tabs` are those of `s` with their contexts' viewports applied; recasting the active
      one keeps everything, and is not needed while its size stays. */
  lemma RecastHolds(s: State, t: State, size: Size)
    requires Inv(s) && Base(t) && SameTabs(s.tabs, t.tabs) && SameCasts(s.tabs, t.tabs)
    requires t.activeTabIds == s.activeTabIds && t.activeContext == s.activeContext && t.activeIndex == s.activeIndex
    requires t.viewport == s.viewport && size == Effective(t.overrides, t.surface, t.activeContext)
    ensures Inv(Recast(t, size))
    ensures s.tabs == [] || s.viewport == size ==> Inv(t)
  {
    var r := Recast(t, size);
    forall i | 0 <= i < |t.tabs| ensures r.tabs[i].emulated == Effective(r.overrides, r.surface, r.tabs[i].context) {
      assert TabHolds(t.tabs[i], t.overrides, t.surface, t.nextAgentId, t.nextTarget);
    }
    BaseOfSame(t, r);
    SameTabsHolds(s, r);
    if s.tabs == [] || s.viewport == size {
      SameTabsHolds(s, t);
    }
  }

  lemma EmulateMatches(s: State, overrides: map<ContextId, Size>, context: ContextId)
    requires Base(s) && overrides - {context} == s.overrides - {context}
    ensures var tabs := Emulate(s.tabs, context, Effective(overrides, s.surface, context));
            forall i :: 0 <= i < |tabs| ==> tabs[i].emulated == Effective(overrides, s.surface, tabs[i].context)
  {
    forall i | 0 <= i < |s.tabs| && s.tabs[i].context != context
      ensures s.tabs[i].emulated == Effective(overrides, s.surface, s.tabs[i].context)
    {
      assert TabHolds(s.tabs[i], s.overrides, s.surface, s.nextAgentId, s.nextTarget);
      OverridesAgree(s.overrides, overrides, context, s.tabs[i].context);
    }
  }

  lemma EmulateKeepsTabs(tabs: seq<Tab>, context: ContextId, size: Size)
    ensures SameTabs(tabs, Emulate(tabs, context, size)) && SameCasts(tabs, Emulate(tabs, context, size))
  {
  }

  lemma EmulateBase(s: State, overrides: map<ContextId, Size>, context: ContextId)
    requires Inv(s) && HasTab(s.tabs, context)
    requires overrides - {context} == s.overrides - {context}
    ensures var tabs := Emulate(s.tabs, context, Effective(overrides, s.surface, context));
            var t := s.(overrides := overrides, tabs := tabs);
            Base(t) && SameTabs(s.tabs, t.tabs) && SameCasts(s.tabs, t.tabs)
  {
    var t := s.(overrides := overrides, tabs := Emulate(s.tabs, context, Effective(overrides, s.surface, context)));
    EmulateKeepsTabs(s.tabs, context, Effective(overrides, s.surface, context));
    EmulateMatches(s, overrides, context);
    forall c | c in overrides ensures HasTab(s.tabs, c) {
      OverridesAgree(s.overrides, overrides, context, c);
    }
    BaseOfSame(s, t);
  }

  lemma ApplyViewportHolds(s: State, overrides: map<ContextId, Size>, context: ContextId)
    requires Inv(s) && HasTab(s.tabs, context)
    requires overrides - {context} == s.overrides - {context}
    ensures Inv(ApplyViewport(s.(overrides := overrides), context))
  {
    EmulateBase(s, overrides, context);
    OverridesAgree(s.overrides, overrides, context, s.activeContext);
    var t := s.(overrides := overrides, tabs := Emulate(s.tabs, context, Effective(overrides, s.surface, context)));
    RecastHolds(s, t, Effective(overrides, s.surface, s.activeContext));
  }

  lemma OverridesAgree(a: map<ContextId, Size>, b: map<ContextId, Size>, context: ContextId, c: ContextId)
    requires a - {context} == b - {context}
    ensures c != context ==> (c in a <==> c in b) && (c in a ==> a[c] == b[c])
  {
    if c != context {
      assert c in a <==> c in a - {context};
      assert c in b <==> c in b - {context};
      assert c in a ==> (a - {context})[c] == a[c] && (b - {context})[c] == b[c];
    }
  }

  lemma SetViewportHolds(s: State, context: ContextId, size: Size)
    requires Inv(s)
    ensures Inv(SetViewport(s, context, size).state)
  {
    if HasTab(s.tabs, context) {
      assert s.overrides[context := size] - {context} == s.overrides - {context};
      ApplyViewportHolds(s, s.overrides[context := size], context);
    }
  }

  lemma ResetOverrideHolds(s: State, context: ContextId)
    requires Inv(s) && HasTab(s.tabs, context)
    ensures Inv(ResetOverride(s, context))
  {
    ApplyViewportHolds(s, s.overrides - {context}, context);
  }

  lemma ResetViewportHolds(s: State, context: ContextId)
    requires Inv(s)
    ensures Inv(ResetViewport(s, context).state)
  {
    if HasTab(s.tabs, context) {
      ResetOverrideHolds(s, context);
    }
  }

  lemma EmulateUnsetBase(s: State, size: Size)
    requires Inv(s)
    ensures var t := s.(surface := size, tabs := EmulateUnset(s.tabs, s.overrides, size));
            Base(t) && SameTabs(s.tabs, t.tabs) && SameCasts(s.tabs, t.tabs)
  {
    var t := s.(surface := size, tabs := EmulateUnset(s.tabs, s.overrides, size));
    forall i | 0 <= i < |s.tabs| ensures t.tabs[i].emulated == Effective(t.overrides, size, t.tabs[i].context) {
      assert TabHolds(s.tabs[i], s.overrides, s.surface, s.nextAgentId, s.nextTarget);
    }
    BaseOfSame(s, t);
  }

  lemma ResizeHolds(s: State, width: nat, height: nat)
    requires Inv(s)
    ensures Inv(Resize(s, width, height))
    ensures var size := Resize(s, width, height).surface;
            MIN_WIDTH <= size.width <= MAX_WIDTH && MIN_HEIGHT <= size.height <= MAX_HEIGHT
  {
    var size := Size(Clamp(MIN_WIDTH, width, MAX_WIDTH), Clamp(MIN_HEIGHT, height, MAX_HEIGHT));
    var t := s.(surface := size, tabs := EmulateUnset(s.tabs, s.overrides, size));
    EmulateUnsetBase(s, size);
    RecastHolds(s, t, Effective(s.overrides, size, s.activeContext));
    HasTabIff(s.tabs, s.activeContext);
    assert Resize(s, width, height) ==
      if HasTab(s.tabs, s.activeContext) && s.activeContext !in s.overrides then Recast(t, size) else t;
  }

  // A step that changes no more than marks.
  lemma RemarkHolds(s: State, tabs: seq<Tab>)
    requires Inv(s) && SameTabs(s.tabs, tabs) && SameCasts(s.tabs, tabs)
    requires forall i :: 0 <= i < |tabs| ==> tabs[i].emulated == s.tabs[i].emulated
    ensures Inv(s.(tabs := tabs))
  {
    var t := s.(tabs := tabs);
    forall i | 0 <= i < |tabs| ensures tabs[i].emulated == Effective(t.overrides, t.surface, tabs[i].context) {
      assert TabHolds(s.tabs[i], s.overrides, s.surface, s.nextAgentId, s.nextTarget);
    }
    BaseOfSame(s, t);
    SameTabsHolds(s, t);
  }

  lemma MarkTabHolds(s: State, context: ContextId, agentId: nat, mark: Mark)
    requires Inv(s)
    ensures Inv(MarkTab(s, context, agentId, mark).state)
  {
    var index := AgentPosition(s.tabs, context, agentId);
    if index < |s.tabs| {
      RemarkHolds(s, s.tabs[index := s.tabs[index].(mark := Some(mark))]);
    }
  }

  lemma {:induction false} CloseAllHolds(s: State, context: ContextId, ids: seq<TabId>)
    requires Inv(s)
    ensures Inv(CloseAll(s, context, ids))
    decreases |ids|
  {
    if ids != [] {
      CloseTabHolds(s, context, ids[0]);
      CloseAllHolds(CloseTab(s, context, ids[0]), context, ids[1..]);
    }
  }

  lemma ClearMarksHolds(s: State, context: ContextId, turn: string)
    requires Inv(s)
    ensures Inv(s.(tabs := ClearMarks(s.tabs, context, turn)))
  {
    RemarkHolds(s, ClearMarks(s.tabs, context, turn));
  }

  lemma TurnEndedHolds(s: State, context: ContextId, turn: string)
    requires Inv(s)
    ensures Inv(TurnEnded(s, context, turn).state)
  {
    var ids := Ids(Filter(Unmarked(context, turn), s.tabs));
    CloseAllHolds(s, context, ids);
    ClearMarksHolds(CloseAll(s, context, ids), context, turn);
  }

  // ----- which tabs an operation leaves -----

  /** A tab without what the browser was told of it. */
  function Plain(t: Tab): Tab { t.(emulated := Size(0, 0), cast := None) }

  function Plains(tabs: seq<Tab>): (plain: seq<Tab>)
    ensures |plain| == |tabs|
    ensures forall i :: 0 <= i < |tabs| ==> plain[i] == Plain(tabs[i])
  {
    seq(|tabs|, i requires 0 <= i < |tabs| => Plain(tabs[i]))
  }

  ghost predicate IsPlain(keep: Tab -> bool) { forall t: Tab :: keep(t) == keep(Plain(t)) }

  lemma {:induction false} PlainsOfFilter(keep: Tab -> bool, tabs: seq<Tab>)
    requires IsPlain(keep)
    ensures Plains(Filter(keep, tabs)) == Filter(keep, Plains(tabs))
  {
    if tabs != [] {
      PlainsOfFilter(keep, tabs[1..]);
      assert Plains(tabs)[1..] == Plains(tabs[1..]);
      assert keep(tabs[0]) == keep(Plain(tabs[0]));
      var first := if keep(tabs[0]) then [tabs[0]] else [];
      assert Plains(first + Filter(keep, tabs[1..])) == Plains(first) + Plains(Filter(keep, tabs[1..]));
    }
  }

  lemma ActivationIsPlain(s: State, context: ContextId)
    requires HasTab(s.tabs, context)
    ensures Plains(ActivateContext(s, context).state.tabs) == Plains(s.tabs)
    ensures ActivateContext(s, context).state.nextTarget == s.nextTarget
            && ActivateContext(s, context).state.nextAgentId == s.nextAgentId
  {
  }
}
