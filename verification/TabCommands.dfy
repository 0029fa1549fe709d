/** The Browser's tab commands, carried out field by field
    (crates/codex-platform/src/browser.rs, the tab, context and viewport methods of
    `BrowserRuntime`), and their runs. */
module TabCommands {

  import opened Sequences
  import opened Numbers
  import opened TabRuns
  import opened TabTurns
  import opened Tabs
  import opened Wrappers

  /** After the set-up one tab of the user is open and active. */
  function AfterSetUp(context: ContextId, width: nat, height: nat): State {
    var size := Size(Clamp(MIN_WIDTH, width, MAX_WIDTH), Clamp(MIN_HEIGHT, height, MAX_HEIGHT));
    State([Tab(1, context, ByUser, None, 0, size, Some(size))], map[context := 0], map[], context, 0, 2, 1, size, size)
  }

  // ----- loops over the tabs -----

  lemma CountGrows(tabs: seq<Tab>, context: ContextId, m: nat, n: nat)
    requires m <= n <= |tabs|
    ensures CountBefore(tabs, context, m) <= CountBefore(tabs, context, n) <= CountBefore(tabs, context, m) + (n - m)
  {
    if m < n {
      CountGrows(tabs, context, m, n - 1);
    }
  }

  lemma KeepFirst(tabs: seq<Tab>, keep: Tab -> bool, k: nat)
    requires k < |tabs|
    ensures Filter(keep, tabs[k..]) == (if keep(tabs[k]) then [tabs[k]] else []) + Filter(keep, tabs[k + 1..])
  {
    assert tabs[k..] == [tabs[k]] + tabs[k + 1..];
  }

  // The tabs before the k-th, and the tabs after it that are kept.
  function PartlyRemoved(tabs: seq<Tab>, context: ContextId, k: nat): seq<Tab>
    requires k <= |tabs|
  {
    tabs[..k] + Filter(OutsideOf(context), tabs[k..])
  }

  lemma RemoveNext(tabs: seq<Tab>, context: ContextId, k: nat)
    requires k < |tabs|
    ensures var partly := PartlyRemoved(tabs, context, k + 1);
            && k < |partly|
            && PartlyRemoved(tabs, context, k) == if tabs[k].context == context then Without(partly, k) else partly
  {
    var kept := Filter(OutsideOf(context), tabs[k + 1..]);
    KeepFirst(tabs, OutsideOf(context), k);
    Advance(tabs, k);
    Regroup(tabs[..k], [tabs[k]], kept);
    assert [] + kept == kept;
    var partly := tabs[..k + 1] + kept;
    assert partly[..k] == tabs[..k] && partly[k + 1..] == kept;
  }

  // What is left of the active index once the tabs from the k-th on were looked at.
  function MovedIndex(tabs: seq<Tab>, context: ContextId, active: nat, k: nat): int
    requires k <= |tabs|
  {
    var last := Min(active, |tabs|);
    active - (CountBefore(tabs, context, last) - CountBefore(tabs, context, Min(last, k)))
  }

  lemma MoveIndex(tabs: seq<Tab>, context: ContextId, active: nat, k: nat)
    requires k < |tabs|
    ensures var index := MovedIndex(tabs, context, active, k + 1);
            && index >= 0
            && MovedIndex(tabs, context, active, k) ==
               if tabs[k].context == context && k < index then index - 1 else index
  {
    var last := Min(active, |tabs|);
    CountGrows(tabs, context, Min(last, k + 1), last);
  }

  /** Removes a context's tabs, the last first, and moves the active index along. */
  method RemoveTabsOf(tabs: seq<Tab>, context: ContextId, active: nat) returns (kept: seq<Tab>, index: int)
    ensures kept == Filter(OutsideOf(context), tabs)
    ensures index == active - CountBefore(tabs, context, Min(active, |tabs|))
  {
    kept, index := tabs, active;
    assert PartlyRemoved(tabs, context, |tabs|) == tabs;
    for k := |tabs| downto 0
      invariant kept == PartlyRemoved(tabs, context, k)
      invariant index == MovedIndex(tabs, context, active, k)
    {
      RemoveNext(tabs, context, k);
      MoveIndex(tabs, context, active, k);
      if tabs[k].context == context {
        kept := Without(kept, k);
        if k < index {
          index := index - 1;
        }
      }
    }
    assert tabs[0..] == tabs && PartlyRemoved(tabs, context, 0) == Filter(OutsideOf(context), tabs);
  }

  method EmulateTabs(tabs: seq<Tab>, context: ContextId, size: Size) returns (emulated: seq<Tab>)
    ensures emulated == Emulate(tabs, context, size)
  {
    emulated := tabs;
    for i := 0 to |tabs|
      invariant |emulated| == |tabs|
      invariant forall j :: 0 <= j < |tabs| ==>
                emulated[j] == if j < i then Emulate(tabs, context, size)[j] else tabs[j]
    {
      if tabs[i].context == context {
        emulated := emulated[i := tabs[i].(emulated := size)];
      }
    }
  }

  method ClearMarksOf(tabs: seq<Tab>, context: ContextId, turn: string) returns (cleared: seq<Tab>)
    ensures cleared == ClearMarks(tabs, context, turn)
  {
    cleared := tabs;
    for i := 0 to |tabs|
      invariant |cleared| == |tabs|
      invariant forall j :: 0 <= j < |tabs| ==> cleared[j] == if j < i then Unmark(tabs[j], context, turn) else tabs[j]
    {
      if tabs[i].context == context && IsMarked(tabs[i], turn) {
        cleared := cleared[i := tabs[i].(mark := None)];
      }
    }
  }

  // ----- resizing, context by context -----

  function EmulateThese(tabs: seq<Tab>, contexts: set<ContextId>, size: Size): (emulated: seq<Tab>)
    ensures |emulated| == |tabs|
  {
    seq(|tabs|, i requires 0 <= i < |tabs| =>
      if tabs[i].context in contexts then tabs[i].(emulated := size) else tabs[i])
  }

  /** The new size has reached these contexts. */
  function ResizedFor(s: State, contexts: set<ContextId>, size: Size): State {
    var t := s.(surface := size, tabs := EmulateThese(s.tabs, contexts, size));
    if s.activeContext in contexts then Recast(t, size) else t
  }

  function Reached(s: State, contexts: set<ContextId>, size: Size, i: nat): Tab
    requires i < |s.tabs|
  {
    var t := if s.tabs[i].context in contexts then s.tabs[i].(emulated := size) else s.tabs[i];
    if s.activeContext in contexts && i == s.activeIndex then t.(cast := Some(size)) else t
  }

  lemma ResizedTab(s: State, contexts: set<ContextId>, size: Size, i: nat)
    requires i < |s.tabs|
    ensures ResizedFor(s, contexts, size).tabs[i] == Reached(s, contexts, size, i)
  {
  }

  lemma ReachTab(s: State, contexts: set<ContextId>, size: Size, context: ContextId, i: nat)
    requires context !in s.overrides && i < |s.tabs|
    ensures ApplyViewport(ResizedFor(s, contexts, size), context).tabs[i] ==
            ResizedFor(s, contexts + {context}, size).tabs[i]
  {
    ResizedTab(s, contexts, size, i);
    ResizedTab(s, contexts + {context}, size, i);
    AppliedTab(ResizedFor(s, contexts, size), context, i);
  }

  lemma ReachOneMore(s: State, contexts: set<ContextId>, size: Size, context: ContextId)
    requires context !in s.overrides
    ensures ApplyViewport(ResizedFor(s, contexts, size), context) == ResizedFor(s, contexts + {context}, size)
  {
    var a := ApplyViewport(ResizedFor(s, contexts, size), context);
    var b := ResizedFor(s, contexts + {context}, size);
    assert a.tabs == b.tabs by {
      forall i | 0 <= i < |s.tabs| ensures a.tabs[i] == b.tabs[i] {
        ReachTab(s, contexts, size, context, i);
      }
    }
  }

  /** Of all contexts those are reached that are not left to do and have no size of their own. */
  ghost predicate AreReached(reached: set<ContextId>, all: set<ContextId>, left: set<ContextId>,
                             overrides: map<ContextId, Size>) {
    left <= all && forall c :: c in reached <==> c in all && c !in left && c !in overrides
  }

  method ContextsOf(tabs: seq<Tab>) returns (contexts: set<ContextId>)
    ensures forall c :: c in contexts <==> HasTab(tabs, c)
  {
    contexts := set tab | tab in tabs :: tab.context;
    forall c ensures c in contexts <==> HasTab(tabs, c) {
      HasTabIff(tabs, c);
    }
  }

  lemma ReachAll(s: State, contexts: set<ContextId>, width: nat, height: nat)
    requires forall c :: c in contexts <==> HasTab(s.tabs, c) && c !in s.overrides
    ensures ResizedFor(s, contexts, Resize(s, width, height).surface) == Resize(s, width, height)
  {
    var size := Resize(s, width, height).surface;
    forall i | 0 <= i < |s.tabs|
      ensures EmulateThese(s.tabs, contexts, size)[i] == EmulateUnset(s.tabs, s.overrides, size)[i]
    {
      HasTabIff(s.tabs, s.tabs[i].context);
    }
    assert EmulateThese(s.tabs, contexts, size) == EmulateUnset(s.tabs, s.overrides, size);
  }

  // ----- the runtime -----

  class TabRuntime {
    var tabs: seq<Tab>
    var activeTabIds: map<ContextId, TabId>
    var overrides: map<ContextId, Size>
    var activeContext: ContextId
    var activeIndex: nat
    var nextAgentId: nat
    var nextTarget: TabId
    var surface: Size
    var viewport: Size

    ghost function Now(): State
      reads this
    {
      State(tabs, activeTabIds, overrides, activeContext, activeIndex, nextAgentId, nextTarget, surface, viewport)
    }

    constructor (context: ContextId, width: nat, height: nat)
      requires context != ""
      ensures Now() == AfterSetUp(context, width, height) && Inv(Now())
    {
      var size := Size(Clamp(MIN_WIDTH, width, MAX_WIDTH), Clamp(MIN_HEIGHT, height, MAX_HEIGHT));
      surface, viewport := size, size;
      tabs, activeTabIds, overrides := [], map[], map[];
      activeContext, activeIndex := context, 0;
      nextAgentId, nextTarget := 1, 0;
      new;
      AttachTarget(context, ByUser);
      activeTabIds := activeTabIds[context := tabs[0].id];
      StartScreencast(0);
      AfterSetUpHolds(context, width, height);
    }

    method AttachTarget(context: ContextId, origin: Origin)
      modifies this
      ensures Now() == Attach(old(Now()), context, origin)
    {
      var size := Effective(overrides, surface, context);
      tabs := tabs + [Tab(nextAgentId, context, origin, None, nextTarget, size, None)];
      nextAgentId := nextAgentId + 1;
      nextTarget := nextTarget + 1;
    }

    method StopScreencast(index: nat)
      modifies this`tabs
      ensures tabs == StopCast(old(tabs), index)
    {
      if index < |tabs| {
        tabs := tabs[index := tabs[index].(cast := None)];
      }
    }

    method StartScreencast(index: nat)
      requires index < |tabs|
      modifies this`tabs
      ensures tabs == StartCast(old(tabs), index, viewport)
    {
      tabs := tabs[index := tabs[index].(cast := Some(viewport))];
    }

    method SwitchTo(context: ContextId, index: nat)
      requires index < |tabs|
      modifies this
      ensures Now() == ActivateAt(old(Now()), context, index)
    {
      StopScreencast(activeIndex);
      activeIndex := index;
      activeContext := context;
      viewport := Effective(overrides, surface, context);
      activeTabIds := activeTabIds[context := tabs[index].id];
      StartScreencast(index);
    }

    method OpenTab(context: ContextId, origin: Origin) returns (error: Option<Error>)
      modifies this
      ensures Outcome(Now(), error) == Tabs.OpenTab(old(Now()), context, origin)
    {
      if |tabs| >= MAX_TABS {
        return Some(TooManyTabs);
      }
      AttachTarget(context, origin);
      SwitchTo(context, |tabs| - 1);
      error := None;
    }

    method SelectTab(context: ContextId, id: TabId) returns (error: Option<Error>)
      modifies this
      ensures Outcome(Now(), error) == Tabs.SelectTab(old(Now()), context, id)
    {
      var index := PositionOf(tabs, context, id);
      if index == |tabs| {
        return Some(NoSuchTab);
      }
      if index != activeIndex {
        SwitchTo(context, index);
      }
      error := None;
    }

    method ActivateContext(context: ContextId) returns (error: Option<Error>)
      modifies this
      ensures Outcome(Now(), error) == Tabs.ActivateContext(old(Now()), context)
    {
      if activeContext == context && activeIndex < |tabs| && tabs[activeIndex].context == context {
        return None;
      }
      var index := |tabs|;
      if context in activeTabIds {
        index := PositionOf(tabs, context, activeTabIds[context]);
      }
      if index == |tabs| {
        index := Position(tabs, context);
      }
      if index == |tabs| {
        error := OpenTab(context, ByUser);
        return;
      }
      SwitchTo(context, index);
      error := None;
    }

    /** The tab goes, and its context is given a blank one if it was the last. */
    method RemoveTab(context: ContextId, index: nat)
      requires index < |tabs| && tabs[index].context == context
      modifies this
      ensures Now() == Removed(old(Now()), index)
    {
      tabs := Without(tabs, index);
      if !HasTab(tabs, context) {
        overrides := overrides - {context};
      }
      if index < activeIndex {
        activeIndex := activeIndex - 1;
      }
      if HasTab(tabs, context) {
        activeTabIds := activeTabIds - {context};
      } else {
        AttachTarget(context, ByUser);
      }
    }

    method CloseTab(context: ContextId, id: TabId)
      modifies this
      ensures Now() == Tabs.CloseTab(old(Now()), context, id)
    {
      var index := PositionOf(tabs, context, id);
      if index == |tabs| {
        return;
      }
      var wasActive := index == activeIndex;
      RemoveTab(context, index);
      if wasActive {
        activeContext := "";
        var error := ActivateContext(context);
      } else if HasTab(tabs, context) {
        activeTabIds := activeTabIds[context := tabs[Position(tabs, context)].id];
      }
    }

    /** The context's tabs go, and everything kept for it. */
    method DropContext(context: ContextId)
      modifies this
      ensures Now() == ContextRemoved(old(Now()), context)
    {
      var index: int;
      tabs, index := RemoveTabsOf(tabs, context, activeIndex);
      activeTabIds := activeTabIds - {context};
      overrides := overrides - {context};
      activeIndex := Min(index, LastIndex(tabs));
    }

    method CloseContext(context: ContextId)
      modifies this
      ensures Now() == Tabs.CloseContext(old(Now()), context)
    {
      var wasActive := activeContext == context && activeIndex < |tabs| && tabs[activeIndex].context == context;
      DropContext(context);
      if wasActive {
        activeContext := "";
        if activeIndex < |tabs| {
          var error := ActivateContext(tabs[activeIndex].context);
        }
      }
    }

    method ApplyContextViewport(context: ContextId)
      modifies this
      ensures Now() == ApplyViewport(old(Now()), context)
    {
      var size := Effective(overrides, surface, context);
      tabs := EmulateTabs(tabs, context, size);
      if activeContext == context {
        viewport := size;
        StopScreencast(activeIndex);
        if activeIndex < |tabs| {
          StartScreencast(activeIndex);
        }
      }
    }

    method ReachContext(context: ContextId, ghost before: State, ghost reached: set<ContextId>)
      requires context !in before.overrides && Now() == ResizedFor(before, reached, surface)
      modifies this
      ensures surface == old(surface) && Now() == ResizedFor(before, reached + {context}, surface)
    {
      ReachOneMore(before, reached, surface, context);
      ApplyContextViewport(context);
    }

    /** The contexts may be reached in any order. */
    method Resize(width: nat, height: nat)
      modifies this
      ensures Now() == Tabs.Resize(old(Now()), width, height)
    {
      ghost var before := Now();
      var size := Size(Clamp(MIN_WIDTH, width, MAX_WIDTH), Clamp(MIN_HEIGHT, height, MAX_HEIGHT));
      surface := size;
      var contexts := ContextsOf(tabs);
      ghost var all := contexts;
      ghost var reached: set<ContextId> := {};
      assert EmulateThese(before.tabs, {}, size) == before.tabs;
      while contexts != {}
        invariant surface == size && overrides == before.overrides
        invariant AreReached(reached, all, contexts, before.overrides)
        invariant Now() == ResizedFor(before, reached, size)
        decreases |contexts|
      {
        var context :| context in contexts;
        contexts := contexts - {context};
        if context !in overrides {
          ReachContext(context, before, reached);
          reached := reached + {context};
        }
      }
      ReachAll(before, reached, width, height);
    }

    method SetAgentViewport(context: ContextId, size: Size) returns (error: Option<Error>)
      modifies this
      ensures Outcome(Now(), error) == SetViewport(old(Now()), context, size)
    {
      if !HasTab(tabs, context) {
        return Some(NoSuchContext);
      }
      overrides := overrides[context := size];
      ApplyContextViewport(context);
      error := None;
    }

    method ResetAgentViewport(context: ContextId) returns (error: Option<Error>)
      modifies this
      ensures Outcome(Now(), error) == ResetViewport(old(Now()), context)
    {
      if !HasTab(tabs, context) {
        return Some(NoSuchContext);
      }
      overrides := overrides - {context};
      ApplyContextViewport(context);
      error := None;
    }

    method AgentMarkTab(context: ContextId, agentId: nat, mark: Mark) returns (error: Option<Error>)
      modifies this
      ensures Outcome(Now(), error) == MarkTab(old(Now()), context, agentId, mark)
    {
      if !HasTab(tabs, context) {
        return Some(NoSuchContext);
      }
      var index := AgentPosition(tabs, context, agentId);
      if index == |tabs| {
        return Some(NoSuchTab);
      }
      tabs := tabs[index := tabs[index].(mark := Some(mark))];
      error := None;
    }

    method CloseTabs(context: ContextId, ids: seq<TabId>)
      modifies this
      ensures Now() == CloseAll(old(Now()), context, ids)
    {
      ghost var before := Now();
      for k := 0 to |ids|
        invariant CloseAll(Now(), context, ids[k..]) == CloseAll(before, context, ids)
      {
        assert ids[k..][0] == ids[k] && ids[k..][1..] == ids[k + 1..];
        CloseTab(context, ids[k]);
      }
    }

    method AgentTurnEnded(context: ContextId, turn: string) returns (error: Option<Error>)
      modifies this
      ensures Outcome(Now(), error) == TurnEnded(old(Now()), context, turn)
    {
      if !HasTab(tabs, context) {
        return Some(NoSuchContext);
      }
      CloseTabs(context, Ids(Filter(Unmarked(context, turn), tabs)));
      tabs := ClearMarksOf(tabs, context, turn);
      error := None;
    }

    method AgentFinalizeTabs(context: ContextId, keep: set<nat>) returns (error: Option<Error>)
      modifies this
      ensures Outcome(Now(), error) == FinalizeTabs(old(Now()), context, keep)
    {
      if !HasTab(tabs, context) {
        return Some(NoSuchContext);
      }
      CloseTabs(context, Ids(Filter(NotKept(context, keep), tabs)));
      overrides := overrides - {context};
      ApplyContextViewport(context);
      error := None;
    }
  }

  lemma AfterSetUpHolds(context: ContextId, width: nat, height: nat)
    requires context != ""
    ensures Inv(AfterSetUp(context, width, height))
  {
    var s := AfterSetUp(context, width, height);
    assert s.tabs[0].context == context;
    forall c ensures Remembered(s.tabs, s.activeTabIds, c) {
      HasTabIff(s.tabs, c);
    }
  }

  // ----- runs -----

  datatype Op =
    | OpenOp(context: ContextId, origin: Origin)
    | SelectOp(context: ContextId, id: TabId)
    | CloseOp(context: ContextId, id: TabId)
    | CloseContextOp(context: ContextId)
    | ActivateOp(context: ContextId)
    | ResizeOp(width: nat, height: nat)
    | SetViewportOp(context: ContextId, size: Size)
    | ResetViewportOp(context: ContextId)
    | MarkOp(context: ContextId, agentId: nat, mark: Mark)
    | TurnEndedOp(context: ContextId, turn: string)
    | FinalizeOp(context: ContextId, keep: set<nat>)

  /** Identifiers of contexts are not empty. */
  predicate IsLegal(op: Op) { op.OpenOp? || op.ActivateOp? ==> op.context != "" }

  function Apply(s: State, op: Op): State {
    match op
    case OpenOp(context, origin) => OpenTab(s, context, origin).state
    case SelectOp(context, id) => SelectTab(s, context, id).state
    case CloseOp(context, id) => CloseTab(s, context, id)
    case CloseContextOp(context) => CloseContext(s, context)
    case ActivateOp(context) => ActivateContext(s, context).state
    case ResizeOp(width, height) => Resize(s, width, height)
    case SetViewportOp(context, size) => SetViewport(s, context, size).state
    case ResetViewportOp(context) => ResetViewport(s, context).state
    case MarkOp(context, agentId, mark) => MarkTab(s, context, agentId, mark).state
    case TurnEndedOp(context, turn) => TurnEnded(s, context, turn).state
    case FinalizeOp(context, keep) => FinalizeTabs(s, context, keep).state
  }

  predicate MovesTabs(op: Op) { op.OpenOp? || op.SelectOp? || op.CloseOp? || op.CloseContextOp? || op.ActivateOp? }

  lemma MoveHolds(s: State, op: Op)
    requires Inv(s) && IsLegal(op) && MovesTabs(op)
    ensures Inv(Apply(s, op))
  {
    match op
    case OpenOp(context, origin) => OpenTabHolds(s, context, origin);
    case SelectOp(context, id) => SelectTabHolds(s, context, id);
    case CloseOp(context, id) => CloseTabHolds(s, context, id);
    case CloseContextOp(context) => CloseContextHolds(s, context);
    case ActivateOp(context) => ActivateContextHolds(s, context);
    case _ =>
  }

  lemma ChangeHolds(s: State, op: Op)
    requires Inv(s) && !MovesTabs(op)
    ensures Inv(Apply(s, op))
  {
    match op
    case ResizeOp(width, height) => ResizeHolds(s, width, height);
    case SetViewportOp(context, size) => SetViewportHolds(s, context, size);
    case ResetViewportOp(context) => ResetViewportHolds(s, context);
    case MarkOp(context, agentId, mark) => MarkTabHolds(s, context, agentId, mark);
    case TurnEndedOp(context, turn) => TurnEndedHolds(s, context, turn);
    case FinalizeOp(context, keep) => FinalizeTabsHolds(s, context, keep);
    case _ =>
  }

  lemma ApplyHolds(s: State, op: Op)
    requires Inv(s) && IsLegal(op)
    ensures Inv(Apply(s, op))
  {
    if MovesTabs(op) {
      MoveHolds(s, op);
    } else {
      ChangeHolds(s, op);
    }
  }

  function After(s: State, ops: seq<Op>): State
    decreases |ops|
  {
    if ops == [] then s else After(Apply(s, ops[0]), ops[1..])
  }

  lemma {:induction false} AfterHolds(s: State, ops: seq<Op>)
    requires Inv(s) && forall i :: 0 <= i < |ops| ==> IsLegal(ops[i])
    ensures Inv(After(s, ops))
    decreases |ops|
  {
    if ops != [] {
      ApplyHolds(s, ops[0]);
      AfterHolds(Apply(s, ops[0]), ops[1..]);
    }
  }

  /** After every command of every run there are at most 16 tabs; the active one, if there is any,
      belongs to the active context and is the only one cast, at that context's viewport; every tab
      is emulated at its context's viewport; and exactly the contexts with a tab remember one, which
      is theirs. */
  lemma EveryRunHolds(context: ContextId, width: nat, height: nat, ops: seq<Op>)
    requires context != "" && forall i :: 0 <= i < |ops| ==> IsLegal(ops[i])
    ensures var s := After(AfterSetUp(context, width, height), ops);
            && |s.tabs| <= MAX_TABS
            && (s.tabs != [] ==>
                  && s.activeIndex < |s.tabs| && s.tabs[s.activeIndex].context == s.activeContext
                  && s.viewport == Effective(s.overrides, s.surface, s.activeContext))
            && (forall i :: 0 <= i < |s.tabs| ==>
                  && s.tabs[i].emulated == Effective(s.overrides, s.surface, s.tabs[i].context)
                  && s.tabs[i].cast == if i == s.activeIndex then Some(s.viewport) else None)
            && (forall c :: c in s.activeTabIds <==> HasTab(s.tabs, c))
            && (forall c :: c in s.activeTabIds ==> Names(s.tabs, c, s.activeTabIds[c]))
  {
    AfterSetUpHolds(context, width, height);
    AfterHolds(AfterSetUp(context, width, height), ops);
    var s := After(AfterSetUp(context, width, height), ops);
    forall i | 0 <= i < |s.tabs| ensures s.tabs[i].emulated == Effective(s.overrides, s.surface, s.tabs[i].context) {
      assert TabHolds(s.tabs[i], s.overrides, s.surface, s.nextAgentId, s.nextTarget);
    }
    forall c
      ensures c in s.activeTabIds <==> HasTab(s.tabs, c)
      ensures c in s.activeTabIds ==> Names(s.tabs, c, s.activeTabIds[c])
    {
      assert Remembered(s.tabs, s.activeTabIds, c);
    }
  }

  // ----- a run after which a context shows another tab -----

  lemma TwoSteps(s: State, first: Op, second: Op)
    ensures After(s, [first, second]) == Apply(Apply(s, first), second)
  {
    assert [first, second][1..] == [second];
    assert After(Apply(s, first), [second]) == After(Apply(Apply(s, first), second), [second][1..]);
  }

  lemma ThreeSteps(s: State, first: Op, second: Op, third: Op)
    ensures After(s, [first, second, third]) == Apply(Apply(Apply(s, first), second), third)
  {
    assert [first, second, third][1..] == [second, third];
    TwoSteps(Apply(s, first), second, third);
  }

  lemma OpensOneMore(s: State, context: ContextId)
    requires Inv(s) && context != "" && |s.tabs| < MAX_TABS
    ensures var t := Apply(s, OpenOp(context, ByUser));
            && Inv(t) && t.activeContext == context && t.activeIndex == |s.tabs| && |t.tabs| == |s.tabs| + 1
            && t.nextTarget == s.nextTarget + 1
            && t.tabs[|s.tabs|].id == s.nextTarget && t.tabs[|s.tabs|].context == context
            && SameTabs(s.tabs, t.tabs[..|s.tabs|])
  {
    OpenTabHolds(s, context, ByUser);
  }

  lemma ThreeTabs(context: ContextId, width: nat, height: nat)
    requires context != ""
    ensures var s := After(AfterSetUp(context, width, height), [OpenOp(context, ByUser), OpenOp(context, ByUser)]);
            && Inv(s) && |s.tabs| == 3 && s.activeContext == context && s.activeIndex == 2
            && forall i :: 0 <= i < 3 ==> s.tabs[i].id == i && s.tabs[i].context == context
  {
    var s := AfterSetUp(context, width, height);
    AfterSetUpHolds(context, width, height);
    TwoSteps(s, OpenOp(context, ByUser), OpenOp(context, ByUser));
    OpensOneMore(s, context);
    var t := Apply(s, OpenOp(context, ByUser));
    assert t.tabs[..1][0] == t.tabs[0];
    OpensOneMore(t, context);
    var u := Apply(t, OpenOp(context, ByUser));
    assert u.tabs[..2][0] == u.tabs[0] && u.tabs[..2][1] == u.tabs[1];
  }

  lemma SecondIsNamed(tabs: seq<Tab>, context: ContextId)
    requires |tabs| == 3 && forall i :: 0 <= i < 3 ==> tabs[i].id == i && tabs[i].context == context
    ensures PositionOf(tabs, context, 1) == 1 && tabs[2].id == 2 && !IsFirstWithout(tabs, 2, 1)
  {
    assert tabs[0].id == 0 && tabs[0].context == tabs[2].context && tabs[1].id == 1;
  }

  lemma ActivateIs(s: State, context: ContextId, t: State)
    requires t == ActivateContext(s, context).state
    ensures Apply(s, ActivateOp(context)) == t
  {
  }

  lemma ThirdIsLost(s: State, context: ContextId, other: ContextId)
    requires Inv(s) && |s.tabs| == 3 && s.activeContext == context && s.activeIndex == 2
    requires other != "" && other != context
    requires forall i :: 0 <= i < 3 ==> s.tabs[i].id == i && s.tabs[i].context == context
    ensures var t := Apply(Apply(Apply(s, CloseOp(context, 1)), ActivateOp(other)), ActivateOp(context));
            t.activeContext == context && t.activeIndex < |t.tabs| && t.tabs[t.activeIndex].id != 2
  {
    SecondIsNamed(s.tabs, context);
    CloseLeaveComeBack(s, 1, other);
    var closed := CloseTab(s, context, 1);
    var away := ActivateContext(closed, other).state;
    ActivateIs(closed, other, away);
    ActivateIs(away, context, ActivateContext(away, context).state);
  }

  /** Three tabs are open and the last is active. The second is closed, another context is visited,
      and back in the first another tab than the third is active. */
  lemma AnotherTabAfterComingBack(context: ContextId, other: ContextId, width: nat, height: nat)
    requires context != "" && other != "" && context != other
    ensures var s := After(AfterSetUp(context, width, height), [OpenOp(context, ByUser), OpenOp(context, ByUser)]);
            var t := After(s, [CloseOp(context, 1), ActivateOp(other), ActivateOp(context)]);
            && s.activeContext == t.activeContext == context
            && s.activeIndex < |s.tabs| && t.activeIndex < |t.tabs|
            && s.tabs[s.activeIndex].id == 2 && t.tabs[t.activeIndex].id != 2
  {
    var s := After(AfterSetUp(context, width, height), [OpenOp(context, ByUser), OpenOp(context, ByUser)]);
    ThreeTabs(context, width, height);
    ThreeSteps(s, CloseOp(context, 1), ActivateOp(other), ActivateOp(context));
    ThirdIsLost(s, context, other);
  }
}
