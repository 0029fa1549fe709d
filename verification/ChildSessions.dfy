/** Child debugger sessions of the Browser's tabs
    (crates/codex-platform/src/browser.rs, `record_agent_child_session`,
    `remove_agent_child_session`, and the `retain` of `close_tab`).

    Every tab has one root session. A child session is recorded under the session that
    announced it and inherits that session's tab. */
module ChildSessions {

  import opened Wrappers

  const MAX_AGENT_CHILD_SESSIONS: nat := 64
  const MAX_BROWSER_AGENT_ID_BYTES: nat := 256

  type SessionId = string
  type TabId = nat

  datatype Child = Child(tab: TabId, target: string, parent: SessionId)

  type Children = map<SessionId, Child>

  /** The root sessions of the open tabs. */
  type Roots = map<SessionId, TabId>

  /** The session `k` parent links above `id`, if the chain is that long. */
  function Ancestor(children: Children, id: SessionId, k: nat): Option<SessionId>
    decreases k
  {
    if k == 0 then Some(id)
    else if id in children then Ancestor(children, children[id].parent, k - 1)
    else None
  }

  /** `id` is `ancestor` or lies below it. */
  ghost predicate IsBelow(children: Children, id: SessionId, ancestor: SessionId) {
    exists k: nat :: Ancestor(children, id, k) == Some(ancestor)
  }

  /** The chain from `id` climbs `k` links through recorded sessions of `tab` and then
      reaches that tab's root session. */
  ghost predicate ReachesRoot(roots: Roots, children: Children, id: SessionId, tab: TabId, k: nat)
    decreases k
  {
    if k == 0 then id in roots && roots[id] == tab
    else id in children && children[id].tab == tab &&
         ReachesRoot(roots, children, children[id].parent, tab, k - 1)
  }

  /** Recorded sessions are no root sessions, and each one's parent chain ends at the live
      root of the tab it is attributed to. */
  ghost predicate Forest(roots: Roots, children: Children) {
    && |children| <= MAX_AGENT_CHILD_SESSIONS
    && children.Keys !! roots.Keys
    && forall id :: id in children ==> exists k: nat :: ReachesRoot(roots, children, id, children[id].tab, k)
  }

  predicate IsControl(c: char) {
    c < ' ' || '\U{7F}' <= c <= '\U{9F}'
  }

  predicate IsBoundedIdentifier(id: string) {
    0 < |id| <= MAX_BROWSER_AGENT_ID_BYTES && forall i :: 0 <= i < |id| ==> !IsControl(id[i])
  }

  function TabOfSession(roots: Roots, children: Children, id: SessionId): Option<TabId> {
    if id in roots then Some(roots[id])
    else if id in children then Some(children[id].tab)
    else None
  }

  predicate Recordable(roots: Roots, children: Children, parent: SessionId, child: SessionId, target: string) {
    && TabOfSession(roots, children, parent).Some?
    && IsBoundedIdentifier(child) && IsBoundedIdentifier(target)
    && child != parent
    && child !in children
    && |children| < MAX_AGENT_CHILD_SESSIONS
  }

  predicate Removable(roots: Roots, children: Children, parent: SessionId, child: SessionId) {
    && child in children
    && children[child].parent == parent
    && TabOfSession(roots, children, parent) == Some(children[child].tab)
  }

  function AfterRecord(roots: Roots, children: Children, parent: SessionId, child: SessionId,
                       target: string): Children {
    if Recordable(roots, children, parent, child, target)
    then children[child := Child(TabOfSession(roots, children, parent).value, target, parent)]
    else children
  }

  ghost function AfterRemove(roots: Roots, children: Children, parent: SessionId, child: SessionId): Children {
    if Removable(roots, children, parent, child)
    then map id | id in children && !IsBelow(children, id, child) :: children[id]
    else children
  }

  function AfterCloseTab(children: Children, tab: TabId): Children {
    map id | id in children && children[id].tab != tab :: children[id]
  }

  // ----- chains -----

  lemma {:induction false} AncestorSplits(children: Children, id: SessionId, j: nat, k: nat)
    ensures Ancestor(children, id, j + k) ==
            match Ancestor(children, id, j) case None => None case Some(x) => Ancestor(children, x, k)
    decreases j
  {
    if j > 0 && id in children {
      AncestorSplits(children, children[id].parent, j - 1, k);
    }
  }

  // A chain that reaches the root passes through nothing but the tab's own sessions.
  lemma {:induction false} ChainToRoot(roots: Roots, children: Children, id: SessionId, tab: TabId, k: nat, j: nat)
    requires ReachesRoot(roots, children, id, tab, k) && j <= k
    ensures Ancestor(children, id, j).Some?
    ensures ReachesRoot(roots, children, Ancestor(children, id, j).value, tab, k - j)
    decreases j
  {
    if j > 0 {
      ChainToRoot(roots, children, children[id].parent, tab, k - 1, j - 1);
    }
  }

  /** No recorded session is its own ancestor. */
  lemma {:induction false} ForestHasNoCycle(roots: Roots, children: Children, id: SessionId, k: nat)
    requires Forest(roots, children) && id in children && k > 0
    ensures Ancestor(children, id, k) != Some(id)
  {
    if Ancestor(children, id, k) == Some(id) {
      var height: nat :| ReachesRoot(roots, children, id, children[id].tab, height);
      CycleNeverEnds(roots, children, id, k, height, children[id].tab);
    }
  }

  lemma {:induction false} CycleNeverEnds(roots: Roots, children: Children, id: SessionId, k: nat, height: nat,
                                          tab: TabId)
    requires k > 0 && Ancestor(children, id, k) == Some(id)
    requires children.Keys !! roots.Keys && id in children
    requires ReachesRoot(roots, children, id, tab, height)
    ensures false
  {
    if height < k {
      ChainToRoot(roots, children, id, tab, height, height);
      AncestorSplits(children, id, height, k - height);
      assert false;
    } else {
      ChainToRoot(roots, children, id, tab, height, k);
      CycleNeverEnds(roots, children, id, k, height - k, tab);
    }
  }

  // ----- what each operation keeps -----

  lemma {:induction false} ReachesRootWhenChainKept(roots: Roots, before: Children, roots': Roots, after: Children,
                                                   id: SessionId, tab: TabId, k: nat)
    requires ReachesRoot(roots, before, id, tab, k)
    requires forall j: nat | j < k ::
               var x := Ancestor(before, id, j);
               x.Some? && x.value in before && x.value in after && after[x.value] == before[x.value]
    requires forall x :: x in roots && roots[x] == tab ==> x in roots' && roots'[x] == tab
    ensures ReachesRoot(roots', after, id, tab, k)
    decreases k
  {
    if k > 0 {
      assert Ancestor(before, id, 0) == Some(id);
      forall j: nat | j < k - 1
        ensures var x := Ancestor(before, before[id].parent, j);
                x.Some? && x.value in before && x.value in after && after[x.value] == before[x.value]
      {
        assert Ancestor(before, id, j + 1) == Ancestor(before, before[id].parent, j);
      }
      ReachesRootWhenChainKept(roots, before, roots', after, before[id].parent, tab, k - 1);
    }
  }

  lemma RecordKeepsForest(roots: Roots, children: Children, parent: SessionId, child: SessionId, target: string)
    requires Forest(roots, children)
    requires child !in roots
    ensures Forest(roots, AfterRecord(roots, children, parent, child, target))
  {
    var after := AfterRecord(roots, children, parent, child, target);
    if Recordable(roots, children, parent, child, target) {
      assert after.Keys == children.Keys + {child};
      var tab := after[child].tab;
      forall id | id in children
        ensures exists k: nat :: ReachesRoot(roots, after, id, after[id].tab, k)
      {
        var k: nat :| ReachesRoot(roots, children, id, children[id].tab, k);
        forall j: nat | j < k
          ensures var x := Ancestor(children, id, j);
                  x.Some? && x.value in children && x.value in after && after[x.value] == children[x.value]
        {
          ChainToRoot(roots, children, id, children[id].tab, k, j);
        }
        ReachesRootWhenChainKept(roots, children, roots, after, id, children[id].tab, k);
      }
      if parent in roots {
        assert ReachesRoot(roots, after, parent, tab, 0);
        assert ReachesRoot(roots, after, child, tab, 1);
      } else {
        var k: nat :| ReachesRoot(roots, after, parent, after[parent].tab, k);
        assert ReachesRoot(roots, after, child, tab, k + 1);
      }
    }
  }

  lemma RemoveKeepsForest(roots: Roots, children: Children, parent: SessionId, child: SessionId)
    requires Forest(roots, children)
    ensures Forest(roots, AfterRemove(roots, children, parent, child))
  {
    var after := AfterRemove(roots, children, parent, child);
    SubmapIsNoLarger(after, children);
    if Removable(roots, children, parent, child) {
      forall id | id in after
        ensures exists k: nat :: ReachesRoot(roots, after, id, after[id].tab, k)
      {
        var k: nat :| ReachesRoot(roots, children, id, children[id].tab, k);
        forall j: nat | j < k
          ensures var x := Ancestor(children, id, j);
                  x.Some? && x.value in children && x.value in after && after[x.value] == children[x.value]
        {
          ChainToRoot(roots, children, id, children[id].tab, k, j);
          var x := Ancestor(children, id, j).value;
          if IsBelow(children, x, child) {
            var i: nat :| Ancestor(children, x, i) == Some(child);
            AncestorSplits(children, id, j, i);
            assert IsBelow(children, id, child);
          }
        }
        ReachesRootWhenChainKept(roots, children, roots, after, id, children[id].tab, k);
      }
    }
  }

  /** Closing a tab drops its root and all its sessions together. */
  lemma CloseTabKeepsForest(roots: Roots, children: Children, tab: TabId)
    requires Forest(roots, children)
    ensures Forest(map id | id in roots && roots[id] != tab :: roots[id], AfterCloseTab(children, tab))
  {
    var roots' := map id | id in roots && roots[id] != tab :: roots[id];
    var after := AfterCloseTab(children, tab);
    SubmapIsNoLarger(after, children);
    forall id | id in after
      ensures exists k: nat :: ReachesRoot(roots', after, id, after[id].tab, k)
    {
      var k: nat :| ReachesRoot(roots, children, id, children[id].tab, k);
      forall j: nat | j < k
        ensures var x := Ancestor(children, id, j);
                x.Some? && x.value in children && x.value in after && after[x.value] == children[x.value]
      {
        ChainToRoot(roots, children, id, children[id].tab, k, j);
      }
      ReachesRootWhenChainKept(roots, children, roots', after, id, children[id].tab, k);
    }
  }

  lemma OpenTabKeepsForest(roots: Roots, children: Children, session: SessionId, tab: TabId)
    requires Forest(roots, children)
    requires session !in children && session !in roots
    ensures Forest(roots[session := tab], children)
  {
    var roots' := roots[session := tab];
    forall id | id in children
      ensures exists k: nat :: ReachesRoot(roots', children, id, children[id].tab, k)
    {
      var k: nat :| ReachesRoot(roots, children, id, children[id].tab, k);
      forall j: nat | j < k
        ensures var x := Ancestor(children, id, j); x.Some? && x.value in children
      {
        ChainToRoot(roots, children, id, children[id].tab, k, j);
      }
      ReachesRootWhenChainKept(roots, children, roots', children, id, children[id].tab, k);
    }
  }

  lemma SubmapIsNoLarger(small: Children, large: Children)
    requires small.Keys <= large.Keys
    ensures |small| <= |large|
  {
    SubsetIsNoLarger(small.Keys, large.Keys);
  }

  lemma {:induction false} SubsetIsNoLarger(small: set<SessionId>, large: set<SessionId>)
    requires small <= large
    ensures |small| <= |large|
  {
    assert large == small + (large - small);
  }

  // ----- every run -----

  datatype Event =
    | OpenTab(session: SessionId, tab: TabId)
    | CloseTab(tab: TabId)
    | Attached(parent: SessionId, child: SessionId, target: string)
    | Detached(parent: SessionId, child: SessionId)

  datatype Sessions = Sessions(roots: Roots, children: Children)

  ghost function Apply(s: Sessions, e: Event): Sessions {
    match e
    case OpenTab(session, tab) => s.(roots := s.roots[session := tab])
    case CloseTab(tab) =>
      Sessions(map id | id in s.roots && s.roots[id] != tab :: s.roots[id], AfterCloseTab(s.children, tab))
    case Attached(parent, child, target) => s.(children := AfterRecord(s.roots, s.children, parent, child, target))
    case Detached(parent, child) => s.(children := AfterRemove(s.roots, s.children, parent, child))
  }

  /** The debugger never hands out a session id that is in use. */
  predicate CollisionFree(s: Sessions, e: Event) {
    match e
    case OpenTab(session, tab) => session !in s.roots && session !in s.children
    case Attached(parent, child, target) => child !in s.roots
    case _ => true
  }

  ghost function Run(s: Sessions, events: seq<Event>): Sessions
    decreases |events|
  {
    if events == [] then s else Run(Apply(s, events[0]), events[1..])
  }

  ghost predicate CollisionFreeRun(s: Sessions, events: seq<Event>)
    decreases |events|
  {
    events == [] || (CollisionFree(s, events[0]) && CollisionFreeRun(Apply(s, events[0]), events[1..]))
  }

  /** From any forest (the empty one, to begin with) every run keeps a forest. */
  lemma {:induction false} RunKeepsForest(s: Sessions, events: seq<Event>)
    requires Forest(s.roots, s.children) && CollisionFreeRun(s, events)
    ensures var end := Run(s, events); Forest(end.roots, end.children)
    decreases |events|
  {
    if events != [] {
      match events[0] {
        case OpenTab(session, tab) => OpenTabKeepsForest(s.roots, s.children, session, tab);
        case CloseTab(tab) => CloseTabKeepsForest(s.roots, s.children, tab);
        case Attached(parent, child, target) => RecordKeepsForest(s.roots, s.children, parent, child, target);
        case Detached(parent, child) => RemoveKeepsForest(s.roots, s.children, parent, child);
      }
      RunKeepsForest(Apply(s, events[0]), events[1..]);
    }
  }

  // ----- what is recorded and what goes -----

  /** Not empty, at most 256 characters long, and without control characters. */
  predicate IsIdentifier(id: string) {
    && 1 <= |id| <= 256
    && forall c: char :: c in id ==> ' ' <= c < '\U{7F}' || '\U{9F}' < c
  }

  lemma IdentifiersAreBounded(id: string)
    ensures IsBoundedIdentifier(id) <==> IsIdentifier(id)
  {
    if IsBoundedIdentifier(id) {
      forall c: char | c in id ensures ' ' <= c < '\U{7F}' || '\U{9F}' < c {
        var i :| 0 <= i < |id| && id[i] == c;
        assert !IsControl(id[i]);
      }
    }
    if IsIdentifier(id) {
      forall i | 0 <= i < |id| ensures !IsControl(id[i]) {
        assert id[i] in id;
      }
    }
  }

  /** The session belongs to the tab: its chain of parents ends at that tab's root. */
  ghost predicate BelongsTo(roots: Roots, children: Children, id: SessionId, tab: TabId) {
    exists k: nat :: ReachesRoot(roots, children, id, tab, k)
  }

  lemma BelongsToOneTab(roots: Roots, children: Children, id: SessionId, tab: TabId)
    requires Forest(roots, children)
    ensures BelongsTo(roots, children, id, tab) <==>
            (id in roots && roots[id] == tab) || (id in children && children[id].tab == tab)
  {
    if id in roots && roots[id] == tab {
      assert ReachesRoot(roots, children, id, tab, 0);
    }
    if BelongsTo(roots, children, id, tab) {
      var k: nat :| ReachesRoot(roots, children, id, tab, k);
    }
  }

  /** A new session is recorded below any session, at whatever depth, that belongs to a tab, and
      for that tab; below no other, and not over the limit. */
  lemma RecordIsExact(roots: Roots, children: Children, parent: SessionId, child: SessionId, target: string, tab: TabId)
    requires Forest(roots, children) && child !in children && child != parent
    ensures BelongsTo(roots, children, parent, tab) && IsIdentifier(child) && IsIdentifier(target)
            && |children| < 64 ==>
              AfterRecord(roots, children, parent, child, target) == children[child := Child(tab, target, parent)]
    ensures (forall t :: !BelongsTo(roots, children, parent, t))
            || !IsIdentifier(child) || !IsIdentifier(target) || |children| >= 64 ==>
              AfterRecord(roots, children, parent, child, target) == children
  {
    IdentifiersAreBounded(child);
    IdentifiersAreBounded(target);
    BelongsToOneTab(roots, children, parent, tab);
    if parent in roots {
      BelongsToOneTab(roots, children, parent, roots[parent]);
    } else if parent in children {
      BelongsToOneTab(roots, children, parent, children[parent].tab);
    }
  }

  // A session that is recorded already, or announces itself, is left as it is.
  lemma RecordedOnce(roots: Roots, children: Children, parent: SessionId, child: SessionId, target: string)
    requires child in children || child == parent
    ensures AfterRecord(roots, children, parent, child, target) == children
  {
  }

  /** Every recorded session can be removed, through its parent and no other session; then it goes
      with all sessions below it, and no others. */
  lemma RemoveIsExact(roots: Roots, children: Children, parent: SessionId, child: SessionId, id: SessionId)
    requires Forest(roots, children) && child in children
    ensures var after := AfterRemove(roots, children, parent, child);
            && (id in after <==> id in children && (parent != children[child].parent || !IsBelow(children, id, child)))
            && (id in after ==> after[id] == children[id])
            && (parent == children[child].parent ==> child !in after)
  {
    var k: nat :| ReachesRoot(roots, children, child, children[child].tab, k);
    if parent == children[child].parent {
      assert ReachesRoot(roots, children, parent, children[child].tab, k - 1);
      BelongsToOneTab(roots, children, parent, children[child].tab);
      assert Ancestor(children, child, 0) == Some(child);
    }
  }

  /** Closing a tab takes exactly the sessions that belong to it. */
  lemma CloseTabIsExact(roots: Roots, children: Children, tab: TabId, id: SessionId)
    requires Forest(roots, children)
    ensures var after := AfterCloseTab(children, tab);
            && (id in after <==> id in children && !BelongsTo(roots, children, id, tab))
            && (id in after ==> after[id] == children[id])
  {
    BelongsToOneTab(roots, children, id, tab);
  }

  // ----- the table and its breadth-first removal -----

  ghost predicate Distinct(queue: seq<SessionId>) {
    forall i, j :: 0 <= i < j < |queue| ==> queue[i] != queue[j]
  }

  /** The queue holds sessions still to remove: all below `top`, distinct and recorded; the
      children of every session removed so far are removed or queued. */
  ghost predicate Removing(before: Children, now: Children, top: SessionId, queue: seq<SessionId>) {
    && now.Keys <= before.Keys
    && (forall id :: id in now ==> now[id] == before[id])
    && Distinct(queue)
    && (forall id :: id in queue ==> id in now && IsBelow(before, id, top))
    && (forall id :: id in queue && id != top ==> before[id].parent !in now)
    && (top in queue ==> queue == [top] && now == before)
    && (top in now ==> top in queue)
    && (forall id :: id in before && id !in now ==> IsBelow(before, id, top))
    && (forall id :: id in now && before[id].parent in before && before[id].parent !in now ==> id in queue)
  }

  lemma RemovalStep(before: Children, now: Children, top: SessionId, queue: seq<SessionId>, batch: seq<SessionId>)
    requires top in before && Removing(before, now, top, queue) && queue != []
    requires var now' := now - {queue[0]};
             Distinct(batch) && forall id :: id in batch <==> id in now' && now'[id].parent == queue[0]
    ensures Removing(before, now - {queue[0]}, top, queue[1..] + batch)
  {
    var first := queue[0];
    var now' := now - {first};
    var queue' := queue[1..] + batch;
    assert first in queue;
    forall id | id in queue[1..] ensures id in now' && id != top && id !in batch {
      var i :| 0 <= i < |queue[1..]| && queue[1..][i] == id;
      assert queue[i + 1] == id && id in queue;
    }
    forall id | id in batch ensures IsBelow(before, id, top) && id != top {
      var k: nat :| Ancestor(before, first, k) == Some(top);
      assert Ancestor(before, id, k + 1) == Some(top);
    }
    forall i, j | 0 <= i < j < |queue'| ensures queue'[i] != queue'[j] {
      if i < |queue| - 1 {
        assert queue[1..][i] == queue'[i] && queue[1..][i] in queue[1..];
        assert j < |queue| - 1 ==> queue[i + 1] != queue[j + 1];
        assert j >= |queue| - 1 ==> queue'[j] in batch;
      }
    }
  }

  // Once the queue is empty exactly the sessions below `top` are gone.
  lemma RemovalEnds(before: Children, now: Children, top: SessionId)
    requires top in before && Removing(before, now, top, [])
    ensures now == map id | id in before && !IsBelow(before, id, top) :: before[id]
  {
    forall id | id in now ensures !IsBelow(before, id, top) {
      if IsBelow(before, id, top) {
        var k: nat :| Ancestor(before, id, k) == Some(top);
        KeptIsNotBelow(before, now, top, id, k);
      }
    }
  }

  lemma {:induction false} KeptIsNotBelow(before: Children, now: Children, top: SessionId, id: SessionId, k: nat)
    requires top in before && Removing(before, now, top, []) && id in now
    ensures Ancestor(before, id, k) != Some(top)
    decreases k
  {
    if k > 0 {
      var parent := before[id].parent;
      if parent in before {
        KeptIsNotBelow(before, now, top, parent, k - 1);
      }
    }
  }

  class SessionTable {
    var children: Children

    constructor ()
      ensures children == map[]
    {
      children := map[];
    }

    method Record(roots: Roots, parent: SessionId, child: SessionId, target: string)
      modifies this
      ensures children == AfterRecord(roots, old(children), parent, child, target)
    {
      var tab := TabOfSession(roots, children, parent);
      if tab.None? {
        return;
      }
      if !IsBoundedIdentifier(child) || !IsBoundedIdentifier(target) || child == parent
         || child in children || |children| >= MAX_AGENT_CHILD_SESSIONS {
        return;
      }
      children := children[child := Child(tab.value, target, parent)];
    }

    /** The recorded sessions whose parent is `parent`, in the arbitrary order of a hash map. */
    method ChildrenOf(parent: SessionId) returns (batch: seq<SessionId>)
      ensures Distinct(batch)
      ensures forall id :: id in batch <==> id in children && children[id].parent == parent
    {
      batch := [];
      var left := set id | id in children && children[id].parent == parent;
      while left != {}
        invariant Distinct(batch)
        invariant forall id :: id in batch ==> id !in left
        invariant forall id :: id in batch || id in left <==> id in children && children[id].parent == parent
        decreases |left|
      {
        var id :| id in left;
        batch := batch + [id];
        left := left - {id};
      }
    }

    method Remove(roots: Roots, parent: SessionId, child: SessionId) returns (removed: bool)
      modifies this
      ensures removed <==> Removable(roots, old(children), parent, child)
      ensures children == AfterRemove(roots, old(children), parent, child)
    {
      var parentTab := TabOfSession(roots, children, parent);
      if parentTab.None? || child !in children {
        return false;
      }
      if children[child].parent != parent || children[child].tab != parentTab.value {
        return false;
      }
      ghost var before := children;
      var queue := [child];
      assert Ancestor(before, child, 0) == Some(child);
      while queue != []
        invariant Removing(before, children, child, queue)
        decreases |children|
      {
        var first := queue[0];
        ghost var now := children;
        assert first in queue;
        children := children - {first};
        assert now.Keys == children.Keys + {first};
        var batch := ChildrenOf(first);
        RemovalStep(before, now, child, queue, batch);
        queue := queue[1..] + batch;
      }
      RemovalEnds(before, children, child);
      removed := true;
    }

    method Retain(closedTab: TabId)
      modifies this
      ensures children == AfterCloseTab(old(children), closedTab)
    {
      children := map id | id in children && children[id].tab != closedTab :: children[id];
    }
  }
}
