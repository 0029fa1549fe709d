/** Tabs, contexts and viewports of the Browser
    (crates/codex-platform/src/browser.rs, the tab, context and viewport methods of
    `BrowserRuntime`, `agent_turn_ended` and `agent_finalize_tabs`).

    Every operation is a function of the state, which the class at the end carries out. Requests
    to the browser succeed; the browser numbers the targets it creates and reuses no number. */
module Tabs {

  import opened Sequences
  import opened Numbers
  import opened Wrappers

  const MAX_TABS: nat := 16
  const MIN_WIDTH: nat := 320
  const MAX_WIDTH: nat := 1920
  const MIN_HEIGHT: nat := 240
  const MAX_HEIGHT: nat := 1080

  type ContextId = string
  type TabId = nat

  datatype Size = Size(width: nat, height: nat)

  datatype Origin = ByUser | ByAgent

  datatype Mark = Mark(status: string, turn: string)

  /** `emulated` and `cast` are what the browser was told of the tab: its viewport, and the size
      of the screencast while one runs. */
  datatype Tab = Tab(
    agentId: nat, context: ContextId, origin: Origin, mark: Option<Mark>, id: TabId,
    emulated: Size, cast: Option<Size>)

  /** No context is active while `activeContext` is empty. */
  datatype State = State(
    tabs: seq<Tab>,
    activeTabIds: map<ContextId, TabId>,
    overrides: map<ContextId, Size>,
    activeContext: ContextId,
    activeIndex: nat,
    nextAgentId: nat,
    nextTarget: TabId,
    surface: Size,
    viewport: Size)

  datatype Error = TooManyTabs | NoSuchTab | NoSuchContext

  datatype Outcome = Outcome(state: State, error: Option<Error>)

  function Done(s: State): Outcome { Outcome(s, None) }
  function Rejected(s: State, e: Error): Outcome { Outcome(s, Some(e)) }

  // ----- looking tabs up -----

  function Clamp(low: nat, n: nat, high: nat): nat { if n < low then low else if n > high then high else n }

  /** The first tab of a context. */
  function Position(tabs: seq<Tab>, context: ContextId): (index: nat)
    ensures index <= |tabs|
    ensures forall i :: 0 <= i < index ==> tabs[i].context != context
    ensures index < |tabs| ==> tabs[index].context == context
  {
    if tabs == [] || tabs[0].context == context then 0 else 1 + Position(tabs[1..], context)
  }

  function PositionOf(tabs: seq<Tab>, context: ContextId, id: TabId): (index: nat)
    ensures index <= |tabs|
    ensures forall i :: 0 <= i < index ==> tabs[i].context != context || tabs[i].id != id
    ensures index < |tabs| ==> tabs[index].context == context && tabs[index].id == id
  {
    if tabs == [] || (tabs[0].context == context && tabs[0].id == id) then 0 else 1 + PositionOf(tabs[1..], context, id)
  }

  predicate HasTab(tabs: seq<Tab>, context: ContextId) { Position(tabs, context) < |tabs| }

  function Effective(overrides: map<ContextId, Size>, surface: Size, context: ContextId): Size {
    if context in overrides then overrides[context] else surface
  }

  // ----- activation -----

  function StopCast(tabs: seq<Tab>, index: nat): (stopped: seq<Tab>)
    ensures |stopped| == |tabs|
  {
    if index < |tabs| then tabs[index := tabs[index].(cast := None)] else tabs
  }

  function StartCast(tabs: seq<Tab>, index: nat, size: Size): (started: seq<Tab>)
    requires index < |tabs|
    ensures |started| == |tabs|
  {
    tabs[index := tabs[index].(cast := Some(size))]
  }

  function NewTab(s: State, context: ContextId, origin: Origin): Tab {
    Tab(s.nextAgentId, context, origin, None, s.nextTarget, Effective(s.overrides, s.surface, context), None)
  }

  function Attach(s: State, context: ContextId, origin: Origin): State {
    s.(tabs := s.tabs + [NewTab(s, context, origin)], nextAgentId := s.nextAgentId + 1, nextTarget := s.nextTarget + 1)
  }

  /** The tab at `index` becomes the active one: the screencast moves to it. */
  function ActivateAt(s: State, context: ContextId, index: nat): State
    requires index < |s.tabs|
  {
    var size := Effective(s.overrides, s.surface, context);
    s.(tabs := StartCast(StopCast(s.tabs, s.activeIndex), index, size),
       activeTabIds := s.activeTabIds[context := s.tabs[index].id],
       activeContext := context, activeIndex := index, viewport := size)
  }

  function OpenTab(s: State, context: ContextId, origin: Origin): Outcome {
    if |s.tabs| >= MAX_TABS then Rejected(s, TooManyTabs)
    else Done(ActivateAt(Attach(s, context, origin), context, |s.tabs|))
  }

  function SelectTab(s: State, context: ContextId, id: TabId): Outcome {
    var index := PositionOf(s.tabs, context, id);
    if index == |s.tabs| then Rejected(s, NoSuchTab)
    else if index == s.activeIndex then Done(s)
    else Done(ActivateAt(s, context, index))
  }

  predicate IsActive(s: State, context: ContextId) {
    s.activeContext == context && s.activeIndex < |s.tabs| && s.tabs[s.activeIndex].context == context
  }

  /** The remembered tab of a context, if it is still there, or else its first tab. */
  function Preferred(s: State, context: ContextId): (index: nat)
    ensures index <= |s.tabs|
    ensures index < |s.tabs| <==> HasTab(s.tabs, context)
    ensures index < |s.tabs| ==> s.tabs[index].context == context
  {
    if context in s.activeTabIds && PositionOf(s.tabs, context, s.activeTabIds[context]) < |s.tabs|
    then PositionOf(s.tabs, context, s.activeTabIds[context])
    else Position(s.tabs, context)
  }

  function ActivateContext(s: State, context: ContextId): Outcome {
    if IsActive(s, context) then Done(s)
    else if Preferred(s, context) == |s.tabs| then OpenTab(s, context, ByUser)
    else Done(ActivateAt(s, context, Preferred(s, context)))
  }

  // ----- closing -----

  function Without(tabs: seq<Tab>, index: nat): seq<Tab>
    requires index < |tabs|
  {
    tabs[..index] + tabs[index + 1..]
  }

  /** The state when the tab at `index` is gone and its context has a tab again. */
  function Removed(s: State, index: nat): State
    requires index < |s.tabs|
  {
    var context := s.tabs[index].context;
    var tabs := Without(s.tabs, index);
    var left := s.(tabs := tabs, activeIndex := if index < s.activeIndex then s.activeIndex - 1 else s.activeIndex);
    if HasTab(tabs, context) then left.(activeTabIds := s.activeTabIds - {context})
    else Attach(left.(overrides := s.overrides - {context}), context, ByUser)
  }

  function CloseTab(s: State, context: ContextId, id: TabId): State {
    var index := PositionOf(s.tabs, context, id);
    if index == |s.tabs| then s
    else
      var left := Removed(s, index);
      if index == s.activeIndex then ActivateContext(left.(activeContext := ""), context).state
      else if Position(left.tabs, context) == |left.tabs| then left
      else left.(activeTabIds := left.activeTabIds[context := left.tabs[Position(left.tabs, context)].id])
  }

  function OutsideOf(context: ContextId): Tab -> bool { (tab: Tab) => tab.context != context }

  /** How many of the first `n` tabs belong to a context. */
  function CountBefore(tabs: seq<Tab>, context: ContextId, n: nat): (count: nat)
    requires n <= |tabs|
    ensures count <= n
  {
    if n == 0 then 0 else CountBefore(tabs, context, n - 1) + if tabs[n - 1].context == context then 1 else 0
  }

  function LastIndex(tabs: seq<Tab>): nat { if tabs == [] then 0 else |tabs| - 1 }

  function ContextRemoved(s: State, context: ContextId): State {
    var tabs := Filter(OutsideOf(context), s.tabs);
    var index := s.activeIndex - CountBefore(s.tabs, context, Min(s.activeIndex, |s.tabs|));
    s.(tabs := tabs, activeTabIds := s.activeTabIds - {context}, overrides := s.overrides - {context},
       activeIndex := Min(index, LastIndex(tabs)))
  }

  function CloseContext(s: State, context: ContextId): State {
    var left := ContextRemoved(s, context);
    if !IsActive(s, context) then left
    else
      var cleared := left.(activeContext := "");
      if |left.tabs| <= left.activeIndex then cleared
      else ActivateContext(cleared, left.tabs[left.activeIndex].context).state
  }

  // ----- viewports -----

  function Emulate(tabs: seq<Tab>, context: ContextId, size: Size): (emulated: seq<Tab>)
    ensures |emulated| == |tabs|
  {
    seq(|tabs|, i requires 0 <= i < |tabs| =>
      if tabs[i].context == context then tabs[i].(emulated := size) else tabs[i])
  }

  /** The active tab's screencast starts again at a new size. */
  function Recast(s: State, size: Size): State {
    s.(tabs := if s.activeIndex < |s.tabs| then StartCast(s.tabs, s.activeIndex, size) else s.tabs, viewport := size)
  }

  function ApplyViewport(s: State, context: ContextId): State {
    var size := Effective(s.overrides, s.surface, context);
    var applied := s.(tabs := Emulate(s.tabs, context, size));
    if s.activeContext == context then Recast(applied, size) else applied
  }

  function EmulateUnset(tabs: seq<Tab>, overrides: map<ContextId, Size>, size: Size): (emulated: seq<Tab>)
    ensures |emulated| == |tabs|
  {
    seq(|tabs|, i requires 0 <= i < |tabs| =>
      if tabs[i].context in overrides then tabs[i] else tabs[i].(emulated := size))
  }

  /** A new size of the surface reaches every context that has no size of its own. */
  function Resize(s: State, width: nat, height: nat): State {
    var size := Size(Clamp(MIN_WIDTH, width, MAX_WIDTH), Clamp(MIN_HEIGHT, height, MAX_HEIGHT));
    var resized := s.(surface := size, tabs := EmulateUnset(s.tabs, s.overrides, size));
    if HasTab(s.tabs, s.activeContext) && s.activeContext !in s.overrides then Recast(resized, size) else resized
  }

  function SetViewport(s: State, context: ContextId, size: Size): Outcome {
    if !HasTab(s.tabs, context) then Rejected(s, NoSuchContext)
    else Done(ApplyViewport(s.(overrides := s.overrides[context := size]), context))
  }

  function ResetOverride(s: State, context: ContextId): State {
    ApplyViewport(s.(overrides := s.overrides - {context}), context)
  }

  function ResetViewport(s: State, context: ContextId): Outcome {
    if !HasTab(s.tabs, context) then Rejected(s, NoSuchContext) else Done(ResetOverride(s, context))
  }

  // ----- turns of the agent -----

  function AgentPosition(tabs: seq<Tab>, context: ContextId, agentId: nat): (index: nat)
    ensures index <= |tabs|
    ensures index < |tabs| ==> tabs[index].context == context && tabs[index].agentId == agentId
  {
    if tabs == [] || (tabs[0].context == context && tabs[0].agentId == agentId) then 0
    else 1 + AgentPosition(tabs[1..], context, agentId)
  }

  function MarkTab(s: State, context: ContextId, agentId: nat, mark: Mark): Outcome {
    var index := AgentPosition(s.tabs, context, agentId);
    if !HasTab(s.tabs, context) then Rejected(s, NoSuchContext)
    else if index == |s.tabs| then Rejected(s, NoSuchTab)
    else Done(s.(tabs := s.tabs[index := s.tabs[index].(mark := Some(mark))]))
  }

  function IsMarked(tab: Tab, turn: string): bool { tab.mark.Some? && tab.mark.value.turn == turn }

  /** The tabs the agent opened in a context that it does not hand over. */
  function Unmarked(context: ContextId, turn: string): Tab -> bool {
    (tab: Tab) => tab.context == context && tab.origin == ByAgent && !IsMarked(tab, turn)
  }

  function NotKept(context: ContextId, keep: set<nat>): Tab -> bool {
    (tab: Tab) => tab.context == context && tab.origin == ByAgent && tab.agentId !in keep
  }

  function Ids(tabs: seq<Tab>): (ids: seq<TabId>)
    ensures |ids| == |tabs|
    ensures forall i :: 0 <= i < |tabs| ==> ids[i] == tabs[i].id
  {
    seq(|tabs|, i requires 0 <= i < |tabs| => tabs[i].id)
  }

  function CloseAll(s: State, context: ContextId, ids: seq<TabId>): State
    decreases |ids|
  {
    if ids == [] then s else CloseAll(CloseTab(s, context, ids[0]), context, ids[1..])
  }

  function Unmark(tab: Tab, context: ContextId, turn: string): Tab {
    if tab.context == context && IsMarked(tab, turn) then tab.(mark := None) else tab
  }

  function ClearMarks(tabs: seq<Tab>, context: ContextId, turn: string): (cleared: seq<Tab>)
    ensures |cleared| == |tabs|
  {
    seq(|tabs|, i requires 0 <= i < |tabs| => Unmark(tabs[i], context, turn))
  }

  function TurnEnded(s: State, context: ContextId, turn: string): Outcome {
    if !HasTab(s.tabs, context) then Rejected(s, NoSuchContext)
    else
      var closed := CloseAll(s, context, Ids(Filter(Unmarked(context, turn), s.tabs)));
      Done(closed.(tabs := ClearMarks(closed.tabs, context, turn)))
  }

  function FinalizeTabs(s: State, context: ContextId, keep: set<nat>): Outcome {
    if !HasTab(s.tabs, context) then Rejected(s, NoSuchContext)
    else Done(ResetOverride(CloseAll(s, context, Ids(Filter(NotKept(context, keep), s.tabs))), context))
  }
}
