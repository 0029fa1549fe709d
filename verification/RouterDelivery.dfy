/** What becomes of messages on their way, and of the router when the reader stops
    (crates/codex-platform/src/app_server.rs, `route_app_server`, `routed_stdout_reader`,
    `notification_method_requires_resync`). */
module RouterDelivery {

  import opened Wrappers
  import opened Sequences
  import opened RouterCore
  import opened RouterSystem
  import opened RouterSafety
  import opened NotificationMethods

  // ----- only what the server sent is delivered -----

  predicate SentHolds(p: Message -> bool, sent: seq<Frame>) {
    forall i :: 0 <= i < |sent| ==> sent[i].content.Some? ==> p(sent[i].content.value)
  }

  predicate HandHolds(p: Message -> bool, hand: Option<ReaderEvent>) {
    hand.Some? && hand.value.Delivery? ==> p(hand.value.message)
  }

  predicate OfferedHolds(p: Message -> bool, offered: seq<ReaderEvent>) {
    forall i :: 0 <= i < |offered| ==> offered[i].Delivery? ==> p(offered[i].message)
  }

  predicate AcceptedHolds(p: Message -> bool, accepted: seq<Event>) {
    forall i :: 0 <= i < |accepted| ==> accepted[i].Received? ==> p(accepted[i].message)
  }

  /** Whatever holds of every message sent holds of every message on its way. */
  predicate Carries(p: Message -> bool, s: System) {
    && HandHolds(p, ReaderHand(s.link.reader)) && OfferedHolds(p, s.link.offered)
    && HandHolds(p, s.routing.hand) && AcceptedHolds(p, s.routing.core.accepted)
  }

  lemma ReaderCarries(p: Message -> bool, c: Config, s: System, a: ReaderAction)
    requires Shape(s) && ReaderEnabled(c, s, a) && SentHolds(p, s.link.sent) && Carries(p, s)
    ensures Carries(p, ReaderDoes(c, s, a)) && ReaderDoes(c, s, a).link.sent == s.link.sent
  {
  }

  lemma AcceptedGrows(p: Message -> bool, core: Core, e: Event)
    requires AcceptedHolds(p, core.accepted) && (e.Received? ==> p(e.message))
    ensures AcceptedHolds(p, core.accepted + [e])
  {
  }

  lemma HandlesCarries(p: Message -> bool, c: Config, s: System, written: bool)
    requires Shape(s) && RouterEnabled(c, s, Handles(written)) && Carries(p, s)
    ensures Carries(p, AfterHandle(c, s, written))
  {
    var Delivery(m, bytes) := s.routing.hand.value;
    AcceptedGrows(p, s.routing.core, Received(m, bytes));
  }

  lemma RouterCarries(p: Message -> bool, c: Config, s: System, a: RouterAction)
    requires Shape(s) && RouterEnabled(c, s, a) && Carries(p, s)
    ensures Carries(p, RouterDoes(c, s, a)) && RouterDoes(c, s, a).link.sent == s.link.sent
  {
    match a {
      case Handles(written) => HandlesCarries(p, c, s, written);
      case PublishesDrops => AcceptedGrows(p, s.routing.core, NotificationsDropped(s.routing.core.dropped));
      case Exits => AcceptedGrows(p, s.routing.core, Disconnected);
      case TakesCommand(written) =>
        match s.calls.issued[s.calls.taken] {
          case Request(_, _) =>
          case SendFrame =>
        }
      case _ =>
    }
  }

  lemma ActionCarries(p: Message -> bool, c: Config, s: System, next: System)
    requires Follows(c, s, next) && Carries(p, s) && SentHolds(p, s.link.sent)
    ensures Carries(p, next)
  {
    var a :| Shape(s) && Enabled(c, s, a) && next == Do(c, s, a);
    match a {
      case ReaderActs(reader) => ReaderCarries(p, c, s, reader);
      case RouterActs(router) => RouterCarries(p, c, s, router);
      case _ =>
    }
  }

  lemma SentOnlyGrows(c: Config, s: System, next: System)
    requires Follows(c, s, next)
    ensures s.link.sent <= next.link.sent
  {
    var a :| Shape(s) && Enabled(c, s, a) && next == Do(c, s, a);
    match a {
      case ReaderActs(reader) => SentUntouched(c, s, reader);
      case _ =>
    }
  }

  lemma SentUntouched(c: Config, s: System, a: ReaderAction)
    requires Shape(s) && ReaderEnabled(c, s, a)
    ensures ReaderDoes(c, s, a).link.sent == s.link.sent
  {
  }

  lemma {:induction false} RunCarries(p: Message -> bool, c: Config, trace: seq<System>, i: nat)
    requires StartsAfresh(c, trace) && i < |trace| && SentHolds(p, trace[i].link.sent)
    ensures Carries(p, trace[i])
  {
    if i > 0 {
      assert StepAt(c, trace, i - 1);
      SentOnlyGrows(c, trace[i - 1], trace[i]);
      assert forall k :: 0 <= k < |trace[i - 1].link.sent| ==> trace[i].link.sent[k] == trace[i - 1].link.sent[k];
      RunCarries(p, c, trace, i - 1);
      ActionCarries(p, c, trace[i - 1], trace[i]);
    }
  }

  // ----- the listed notifications -----

  /** The flag of a notification is the answer of the list for its name. */
  predicate IsDecoded(m: Message) {
    m.Notification? ==> m == Decoded(m.name, m.params)
  }

  function ListedMessage(m: Message): seq<Message> {
    if m.Notification? && RequiresResync(m.name) then [m] else []
  }

  function ListedFrame(f: Frame): seq<Message> { if f.content.Some? then ListedMessage(f.content.value) else [] }

  function ListedEvent(e: Event): seq<Message> { if e.Received? then ListedMessage(e.message) else [] }

  lemma ListedIsSemantic(m: Message)
    requires IsDecoded(m)
    ensures ListedMessage(m) == SemanticMessage(m)
  {
    if m.Notification? {
      assert m.requiresResync == RequiresResync(m.name);
    }
  }

  lemma ListedFrames(sent: seq<Frame>)
    requires SentHolds(IsDecoded, sent)
    ensures FlatMap(ListedFrame, sent) == FlatMap(SemanticFrame, sent)
  {
    forall i | 0 <= i < |sent| ensures ListedFrame(sent[i]) == SemanticFrame(sent[i]) {
      if sent[i].content.Some? {
        ListedIsSemantic(sent[i].content.value);
      }
    }
    FlatMapAgree(ListedFrame, SemanticFrame, sent);
  }

  lemma ListedEvents(accepted: seq<Event>)
    requires AcceptedHolds(IsDecoded, accepted)
    ensures FlatMap(ListedEvent, accepted) == FlatMap(SemanticEvent, accepted)
  {
    forall i | 0 <= i < |accepted| ensures ListedEvent(accepted[i]) == SemanticEvent(accepted[i]) {
      if accepted[i].Received? {
        ListedIsSemantic(accepted[i].message);
      }
    }
    FlatMapAgree(ListedEvent, SemanticEvent, accepted);
  }

  /** The notifications with one of the sixteen listed names that the UI took are a prefix of those
      the server sent. */
  lemma UiSeesListedPrefix(c: Config, trace: seq<System>, i: nat)
    requires StartsAfresh(c, trace) && i < |trace| && SentHolds(IsDecoded, trace[i].link.sent)
    ensures var s := trace[i];
            s.ui.seen <= |s.routing.core.accepted| &&
            FlatMap(ListedEvent, s.routing.core.accepted[..s.ui.seen]) <= FlatMap(ListedFrame, s.link.sent)
  {
    var s := trace[i];
    UiSeesSemanticPrefix(c, trace, i);
    RunCarries(IsDecoded, c, trace, i);
    ListedFrames(s.link.sent);
    var seen := s.routing.core.accepted[..s.ui.seen];
    assert forall k :: 0 <= k < |seen| ==> seen[k] == s.routing.core.accepted[k];
    ListedEvents(seen);
  }

  // ----- a reader that stops takes the router down -----

  /** Anything but a message comes last, from a reader that then stopped, and stops the router. */
  ghost predicate EndsWithReader(s: System)
    requires s.link.consumed <= |s.link.offered|
  {
    && (forall k :: 0 <= k < |s.link.offered| - 1 ==> s.link.offered[k].Delivery?)
    && (!s.link.reader.Stopped? ==> forall k :: 0 <= k < |s.link.offered| ==> s.link.offered[k].Delivery?)
    && (s.routing.core.running ==> forall k :: 0 <= k < s.link.consumed ==> s.link.offered[k].Delivery?)
  }

  lemma ReaderKeepsEnd(c: Config, s: System, a: ReaderAction)
    requires Shape(s) && ReaderEnabled(c, s, a) && EndsWithReader(s)
    ensures var next := ReaderDoes(c, s, a); next.link.consumed <= |next.link.offered| && EndsWithReader(next)
  {
  }

  lemma RouterKeepsEnd(c: Config, s: System, a: RouterAction)
    requires Shape(s) && RouterEnabled(c, s, a) && EndsWithReader(s)
    ensures var next := RouterDoes(c, s, a); next.link.consumed <= |next.link.offered| && EndsWithReader(next)
  {
    StoppedRouterStays(c, s, a);
  }

  lemma StoppedRouterStays(c: Config, s: System, a: RouterAction)
    requires Shape(s) && RouterEnabled(c, s, a)
    ensures var next := RouterDoes(c, s, a);
            && (next.routing.core.running ==> s.routing.core.running)
            && next.link.offered == s.link.offered && next.link.reader == s.link.reader
            && next.link.consumed == s.link.consumed + (if a.TakesEvent? then 1 else 0)
            && (a.TakesEvent? && next.routing.core.running ==> s.link.offered[s.link.consumed].Delivery?)
  {
    match a {
      case TakesCommand(written) =>
        match s.calls.issued[s.calls.taken] {
          case Request(_, _) =>
          case SendFrame =>
        }
      case _ =>
    }
  }

  lemma ActionKeepsEnd(c: Config, s: System, next: System)
    requires Follows(c, s, next) && EndsWithReader(s)
    ensures next.link.consumed <= |next.link.offered| && EndsWithReader(next)
    ensures s.link.reader.Stopped? ==>
              next.link.reader.Stopped? && next.link.offered == s.link.offered && s.link.consumed <= next.link.consumed
  {
    var a :| Shape(s) && Enabled(c, s, a) && next == Do(c, s, a);
    match a {
      case ReaderActs(reader) => ReaderKeepsEnd(c, s, reader);
      case RouterActs(router) => RouterKeepsEnd(c, s, router); StoppedRouterStays(c, s, router);
      case _ =>
    }
  }

  lemma {:induction false} RunEndsWithReader(c: Config, trace: seq<System>, i: nat)
    requires StartsAfresh(c, trace) && i < |trace|
    ensures trace[i].link.consumed <= |trace[i].link.offered| && EndsWithReader(trace[i])
  {
    if i > 0 {
      RunEndsWithReader(c, trace, i - 1);
      assert StepAt(c, trace, i - 1);
      ActionKeepsEnd(c, trace[i - 1], trace[i]);
    }
  }

  lemma RunHasShape(c: Config, trace: seq<System>, i: nat)
    requires StartsAfresh(c, trace) && i < |trace|
    ensures Shape(trace[i])
  {
    InitiallyHolds(c);
    RunKeepsInv(c, trace, i);
  }

  /** Once the reader has stopped, a step of the router on its queue takes one of the messages left
      or stops the router; when none is left it can only stop. */
  predicate OnlyDrains(c: Config, s: System, a: RouterAction)
    requires s.link.consumed <= |s.link.offered|
  {
    && (RouterEnabled(c, s, a) && (a.TakesEvent? || a.FindsReaderGone?) ==>
          var next := RouterDoes(c, s, a);
          || !next.routing.core.running
          || (a.TakesEvent? && next.link.consumed == s.link.consumed + 1 <= |s.link.offered|))
    && (s.link.consumed == |s.link.offered| && s.routing.core.running && s.routing.hand.None? ==>
          RouterEnabled(c, s, FindsReaderGone) && !RouterEnabled(c, s, TakesEvent))
  }

  lemma StoppedReaderOnlyDrains(c: Config, s: System, a: RouterAction)
    requires Shape(s) && s.link.reader.Stopped?
    ensures OnlyDrains(c, s, a)
  {
  }

  /** A reader that stopped takes the router down: a router that took anything but a message from
      it has stopped, and a running one can only drain the queue, whose end stops it. */
  lemma StoppedReaderStopsRouter(c: Config, trace: seq<System>, i: nat, a: RouterAction)
    requires StartsAfresh(c, trace) && i < |trace|
    ensures var s := trace[i];
            && s.link.consumed <= |s.link.offered|
            && (forall k :: 0 <= k < s.link.consumed && !s.link.offered[k].Delivery? ==> !s.routing.core.running)
            && (s.link.reader.Stopped? ==> OnlyDrains(c, s, a))
  {
    RunEndsWithReader(c, trace, i);
    RunHasShape(c, trace, i);
    if trace[i].link.reader.Stopped? {
      StoppedReaderOnlyDrains(c, trace[i], a);
    }
  }

  /** The queue of a stopped reader never grows again, and is only consumed. */
  lemma {:induction false} StoppedReaderQueuesNothing(c: Config, trace: seq<System>, i: nat, j: nat)
    requires StartsAfresh(c, trace) && i <= j < |trace| && trace[i].link.reader.Stopped?
    ensures trace[j].link.reader.Stopped? && trace[j].link.offered == trace[i].link.offered
    ensures trace[i].link.consumed <= trace[j].link.consumed
    decreases j - i
  {
    if i < j {
      StoppedReaderQueuesNothing(c, trace, i, j - 1);
      RunEndsWithReader(c, trace, j - 1);
      assert StepAt(c, trace, j - 1);
      ActionKeepsEnd(c, trace[j - 1], trace[j]);
    }
  }

  // ----- late responses -----

  /** In every run, handling a response to a request that was already answered changes nothing. */
  lemma LateResponsesChangeNothing(c: Config, trace: seq<System>, i: nat, written: bool)
    requires StartsAfresh(c, trace) && i < |trace|
    requires var r := trace[i].routing;
             && r.hand.Some? && r.hand.value.Delivery?
             && (r.hand.value.message.Success? || r.hand.value.message.Failure?)
             && r.hand.value.message.id.Some? && RepliesTo(r.core.replies, r.hand.value.message.id.value) != []
    ensures AfterHandle(c, trace[i], written).routing.core == trace[i].routing.core
  {
    InitiallyHolds(c);
    RunKeepsInv(c, trace, i);
    var s := trace[i];
    LateResponseIsDiscarded(s.routing.core, s.routing.hand.value.message, s.routing.hand.value.bytes,
      SendAnswer(c, s), written, Took(s.calls));
  }
}
