/** Which requests are answered with what, and when, and what the server and the UI get
    (crates/codex-platform/src/app_server.rs, `route_app_server`, `expire_pending_requests`,
    `fail_pending_requests`, `handle_routed_message`). */
module RouterReplies {

  import opened Wrappers
  import opened RouterCore
  import opened RouterSystem
  import opened RouterSafety
  import opened RouterDelivery

  // ----- one step of the router -----

  /** Every request past its deadline is timed out under its own name; one still in time is kept as
      it is, and nothing else changes. */
  lemma ExpiryIsExact(c: Core, now: nat, id: nat)
    ensures var after := Expire(c, now);
            && (id in after.pending <==> id in c.pending && now < c.pending[id].deadline)
            && (id in after.pending ==> after.pending[id] == c.pending[id])
            && RepliesTo(after.replies, id) ==
               RepliesTo(c.replies, id)
               + (if id in c.pending && c.pending[id].deadline <= now then [RequestTimedOut(c.pending[id].name)]
                 else [])
            && after.(pending := c.pending, replies := c.replies) == c
  {
    RepliesAdded(c.replies, Expired(c.pending, now), id);
  }

  /** Every pending request is told that the transport closed; nothing else is lost. */
  lemma StopIsExact(c: Core, id: nat)
    ensures var after := Stop(c);
            && !after.running && after.pending == map[]
            && RepliesTo(after.replies, id) ==
               RepliesTo(c.replies, id) + (if id in c.pending then [TransportClosed] else [])
            && after.(pending := c.pending, replies := c.replies, running := c.running) == c
  {
    RepliesAdded(c.replies, map x | x in c.pending :: TransportClosed, id);
  }

  /** A request over the cap is refused; one whose frame is written is pending as it was issued;
      if it cannot be written it fails, and all pending ones with it. */
  lemma RequestIsTaken(c: Core, id: nat, request: Pending, maxPending: nat, written: bool, x: nat)
    requires id !in c.pending
    ensures var after := TakeRequest(c, id, request, maxPending, written);
            var before := RepliesTo(c.replies, x);
            if |c.pending| >= maxPending then
              && after.(replies := c.replies) == c
              && RepliesTo(after.replies, x) == before + (if x == id then [TooManyPendingRequests] else [])
            else if written then
              after == c.(pending := c.pending[id := request], stdin := c.stdin + [RequestFrame(id)])
            else
              && !after.running && after.pending == map[]
              && RepliesTo(after.replies, x) ==
                 before + (if x == id then [WriteFailed] else if x in c.pending then [TransportClosed] else [])
              && after.(pending := c.pending, replies := c.replies, running := c.running) == c
  {
    if |c.pending| < maxPending && !written {
      var failed := c.(pending := c.pending - {id}, replies := AddReply(c.replies, id, WriteFailed));
      StopIsExact(failed, x);
    }
  }

  /** A client's frame is written, or the router stops. */
  lemma FrameIsTaken(c: Core, written: bool)
    ensures TakeFrame(c, written).running <==> written && c.running
    ensures written ==> TakeFrame(c, written) == c.(stdin := c.stdin + [ClientFrame])
    ensures !written ==> TakeFrame(c, written) == Stop(c)
  {
  }

  predicate IsAnswered(before: Core, after: Core, id: nat, answer: Outcome) {
    && after.pending == before.pending - {id}
    && after.replies == before.replies[id := RepliesTo(before.replies, id) + [answer]]
    && after.(pending := before.pending, replies := before.replies) == before
  }

  /** A response goes to the pending request with its id, one without a number stops the router, and
      any other changes nothing. */
  lemma ResponseIsHandled(c: Core, m: Message, bytes: nat, outcome: SendOutcome, written: bool)
    requires m.Success? || m.Failure?
    ensures var after := Handle(c, m, bytes, outcome, written);
            match m.id
            case None => after == Stop(c)
            case Some(id) =>
              if id in c.pending
              then IsAnswered(c, after, id, if m.Success? then Answered(m.result) else RequestFailed(m.code))
              else after == c
  {
  }

  /** What the queue takes it gets as it came. What it does not take: a server request is refused by
      one error with its id, or, if that cannot be written, stops the router; so does a semantic
      notification, and any notification once the UI is gone; another is counted. */
  lemma EventIsHandled(c: Core, m: Message, bytes: nat, outcome: SendOutcome, written: bool)
    requires m.ServerRequest? || m.Notification?
    ensures var after := Handle(c, m, bytes, outcome, written);
            if outcome.Sent? then after == c.(accepted := c.accepted + [Received(m, bytes)])
            else if m.ServerRequest? then
              after == if written then c.(stdin := c.stdin + [OverloadError(m.requestId)]) else Stop(c)
            else if m.requiresResync || outcome.Closed? then after == Stop(c)
            else
              && after.(dropped := c.dropped) == c
              && (c.dropped < COUNTER_MAX ==> after.dropped == c.dropped + 1)
              && (c.dropped == COUNTER_MAX ==> after.dropped == COUNTER_MAX)
  {
  }

  /** The event queue has room, and somebody to read it. */
  predicate HasRoom(c: Config, s: System) {
    s.ui.connected && |s.routing.core.accepted| < s.ui.seen + c.eventCapacity
  }

  /** A drop count that is due is published as soon as there is room, and counted anew; otherwise it
      is kept. The thread's end is announced, if there is room. */
  lemma AnnouncementsAreExact(c: Config, s: System)
    requires Shape(s)
    ensures RouterEnabled(c, s, PublishesDrops) ==>
              var before, after := s.routing.core, RouterDoes(c, s, PublishesDrops).routing.core;
              after == if before.dropped > 0 && HasRoom(c, s)
                       then before.(accepted := before.accepted + [NotificationsDropped(before.dropped)], dropped := 0)
                       else before
    ensures RouterEnabled(c, s, Exits) ==>
              var before, after := s.routing.core, RouterDoes(c, s, Exits).routing;
              && after.exited
              && after.core == before.(accepted := before.accepted + if HasRoom(c, s) then [Disconnected] else [])
  {
    assert s.routing.core.accepted + [] == s.routing.core.accepted;
  }

  /** A frame that does not decode ends the reading; one that fits the budget is handed on with its
      bytes leased; a losable one that does not is counted, and another makes the reader give up. */
  lemma FramesAreRead(c: Config, s: System)
    requires Shape(s) && s.link.reader.Reading? && s.link.read < |s.link.sent| && s.used <= c.byteLimit
    ensures var frame := s.link.sent[s.link.read];
            var next := s.link.(read := s.link.read + 1);
            var fits := s.used + frame.bytes <= c.byteLimit;
            if frame.content.None? then
              && ReaderEnabled(c, s, Reads) && !ReaderEnabled(c, s, GivesUp)
              && ReaderDoes(c, s, Reads) == s.(link := next.(reader := Holding(ProtocolError)))
            else if fits then
              && ReaderEnabled(c, s, Reads) && !ReaderEnabled(c, s, GivesUp)
              && ReaderDoes(c, s, Reads) ==
                 s.(link := next.(reader := Holding(Delivery(frame.content.value, frame.bytes))),
                    used := s.used + frame.bytes)
            else if frame.content.value.Notification? && !frame.content.value.requiresResync then
              && ReaderEnabled(c, s, Reads) && !ReaderEnabled(c, s, GivesUp)
              && (s.link.dropped < COUNTER_MAX ==>
                    ReaderDoes(c, s, Reads) ==
                      s.(link := next.(dropped := s.link.dropped + 1, drops := s.link.drops + 1)))
            else
              && !ReaderEnabled(c, s, Reads) && ReaderEnabled(c, s, GivesUp)
              && ReaderDoes(c, s, GivesUp) == s.(link := next.(reader := Holding(Overloaded)))
  {
  }

  /** An event in hand is queued as long as the router is there and its queue has room; the reader
      then reads on after a message and stops after anything else. When that does not come about in
      time it stops too, and gives the lease of its message back. */
  lemma EventsAreHandedOn(c: Config, s: System)
    requires s.link.reader.Holding? && Shape(s)
    ensures var event := s.link.reader.event;
            if !s.routing.exited && |s.link.offered| < s.link.consumed + c.incomingCapacity then
              && ReaderEnabled(c, s, Offers) && !ReaderEnabled(c, s, TimesOut)
              && ReaderDoes(c, s, Offers) ==
                 s.(link := s.link.(offered := s.link.offered + [event],
                                    reader := if event.Delivery? then Reading else Stopped))
            else
              && !ReaderEnabled(c, s, Offers) && ReaderEnabled(c, s, TimesOut)
              && var next := ReaderDoes(c, s, TimesOut);
                 && next == s.(link := s.link.(reader := Stopped), used := next.used)
                 && (!event.Delivery? ==> next.used == s.used)
                 && (event.Delivery? && event.bytes <= s.used ==> next.used + event.bytes == s.used)
  {
  }

  /** The end of the output is reported only when all that was sent has been read; a read error may
      come up at any time. */
  lemma EndIsReported(c: Config, s: System, event: ReaderEvent)
    requires s.link.reader.Reading? && Shape(s)
    ensures ReaderEnabled(c, s, Ends(Eof)) <==> s.link.sent[s.link.read..] == []
    ensures ReaderEnabled(c, s, Ends(ProtocolError)) && !ReaderEnabled(c, s, Ends(Overloaded))
    ensures event.Delivery? ==> !ReaderEnabled(c, s, Ends(event))
    ensures ReaderEnabled(c, s, Ends(event)) ==>
              ReaderDoes(c, s, Ends(event)) == s.(link := s.link.(reader := Holding(event)))
  {
  }

  /** As long as it is open the UI can take the next event there is, with its lease, and be closed. */
  lemma UiTakesTheNext(s: System)
    requires Shape(s) && s.ui.connected
    ensures UiEnabled(s, Closes) && !UiDoes(s, Closes).ui.connected
    ensures UiEnabled(s, TakesNext) <==> s.routing.core.accepted[s.ui.seen..] != []
    ensures UiEnabled(s, TakesNext) ==>
              var next := s.routing.core.accepted[s.ui.seen..][0];
              UiDoes(s, TakesNext) ==
              s.(ui := Ui(true, s.ui.seen + 1,
                          s.ui.guards + [if next.Received? then next.bytes else 0]))
  {
  }

  /** Ids are handed out one after the other, below 2^64 - 1, and each is used for one request. */
  lemma IdsAreHandedOut(s: System, command: Command)
    ensures CallerEnabled(s, TakesId) <==> s.calls.nextId < 0xFFFF_FFFF_FFFF_FFFF
    ensures CallerEnabled(s, TakesId) ==>
              var calls := CallerDoes(s, TakesId).calls;
              && calls.nextId == s.calls.nextId + 1 && calls.idle == s.calls.idle + {s.calls.nextId}
              && calls.issued == s.calls.issued && calls.taken == s.calls.taken
    ensures CallerEnabled(s, Issues(command)) <==> (command.Request? ==> command.id in s.calls.idle)
    ensures CallerEnabled(s, Issues(command)) ==>
              var calls := CallerDoes(s, Issues(command)).calls;
              && calls.issued == s.calls.issued + [command] && calls.taken == s.calls.taken
              && calls.nextId == s.calls.nextId
              && forall id :: id in calls.idle <==> id in s.calls.idle && !(command.Request? && command.id == id)
  {
  }

  /** Handling a notification is two steps of the thread, the drop count first; another message is
      handled alone. */
  lemma DropsComeFirst(c: Config, s: System, published: SendOutcome)
    requires Shape(s) && s.routing.core.running && s.routing.hand.Some?
    ensures var m := s.routing.hand.value.message;
            if m.Notification? then
              && RouterEnabled(c, s, PublishesDrops)
              && RouterDoes(c, s, PublishesDrops).routing.core == BeforeMessage(s.routing.core, m, SendAnswer(c, s))
            else !RouterEnabled(c, s, PublishesDrops) && BeforeMessage(s.routing.core, m, published) == s.routing.core
  {
  }

  // ----- timeouts, in every run -----

  /** The router expired requests at the clock time `now` between the states `j` and `j + 1`. */
  ghost predicate ExpiresAt(c: Config, trace: seq<System>, j: nat, now: nat)
    requires j + 1 < |trace|
  {
    Shape(trace[j]) && Enabled(c, trace[j], RouterActs(Expires(now)))
    && trace[j + 1] == Do(c, trace[j], RouterActs(Expires(now)))
  }

  /** After the expiry at `now` no pending deadline is at or before it; a request that was pending
      with a later deadline still is, unanswered, and one that was due is answered by its timeout. */
  lemma ExpiryIsTimely(c: Config, trace: seq<System>, j: nat, now: nat, id: nat)
    requires StartsAfresh(c, trace) && j + 1 < |trace| && ExpiresAt(c, trace, j, now)
    ensures var before, after := trace[j].routing.core, trace[j + 1].routing.core;
            && (id in after.pending ==> now < after.pending[id].deadline)
            && (id in before.pending && now < before.pending[id].deadline ==>
                  id in after.pending && after.pending[id] == before.pending[id] && RepliesTo(after.replies, id) == [])
            && (id in before.pending && before.pending[id].deadline <= now ==>
                  id !in after.pending && RepliesTo(after.replies, id) == [RequestTimedOut(before.pending[id].name)])
  {
    EveryRequestAnsweredOnce(c, trace, j, id);
    EveryRequestAnsweredOnce(c, trace, j + 1, id);
    ExpiryIsExact(trace[j].routing.core, now, id);
  }

  /** What the table holds was issued and taken, and its frame was written. */
  ghost predicate PendingWasIssued(s: System)
    requires s.calls.taken <= |s.calls.issued|
  {
    forall id :: id in s.routing.core.pending ==>
      && Request(id, s.routing.core.pending[id]) in s.calls.issued[..s.calls.taken]
      && RequestFrame(id) in s.routing.core.stdin
  }

  lemma HandleKeepsPending(c: Core, m: Message, bytes: nat, outcome: SendOutcome, written: bool, id: nat)
    requires id in Handle(c, m, bytes, outcome, written).pending
    ensures id in c.pending && Handle(c, m, bytes, outcome, written).pending[id] == c.pending[id]
    ensures forall w :: w in c.stdin ==> w in Handle(c, m, bytes, outcome, written).stdin
  {
    if m.Success? || m.Failure? {
      ResponseIsHandled(c, m, bytes, outcome, written);
    } else {
      EventIsHandled(c, m, bytes, outcome, written);
    }
  }

  lemma TakeKeepsPending(c: Config, s: System, written: bool, id: nat)
    requires Shape(s) && RouterEnabled(c, s, TakesCommand(written)) && PendingWasIssued(s)
    ensures var core := AfterCommand(c, s.routing.core, s.calls.issued[s.calls.taken], written);
            id in core.pending ==>
              && Request(id, core.pending[id]) in s.calls.issued[..s.calls.taken + 1]
              && RequestFrame(id) in core.stdin
  {
    var command := s.calls.issued[s.calls.taken];
    assert s.calls.issued[..s.calls.taken + 1] == s.calls.issued[..s.calls.taken] + [command];
    match command {
      case Request(_, _) =>
      case SendFrame => FrameIsTaken(s.routing.core, written);
    }
  }

  lemma RouterKeepsIssued(c: Config, s: System, a: RouterAction)
    requires Shape(s) && RouterEnabled(c, s, a) && PendingWasIssued(s)
    ensures var next := RouterDoes(c, s, a); next.calls.taken <= |next.calls.issued| && PendingWasIssued(next)
  {
    var next := RouterDoes(c, s, a);
    forall id | id in next.routing.core.pending
      ensures Request(id, next.routing.core.pending[id]) in next.calls.issued[..next.calls.taken]
      ensures RequestFrame(id) in next.routing.core.stdin
    {
      match a {
        case TakesCommand(written) => TakeKeepsPending(c, s, written, id);
        case Handles(written) =>
          HandleKeepsPending(s.routing.core, s.routing.hand.value.message, s.routing.hand.value.bytes,
            SendAnswer(c, s), written, id);
        case Expires(now) => ExpiryIsExact(s.routing.core, now, id);
        case _ =>
      }
    }
  }

  lemma CallerKeepsIssued(s: System, a: CallerAction)
    requires Shape(s) && CallerEnabled(s, a) && PendingWasIssued(s)
    ensures var next := CallerDoes(s, a); next.calls.taken <= |next.calls.issued| && PendingWasIssued(next)
  {
    if a.Issues? {
      assert (s.calls.issued + [a.command])[..s.calls.taken] == s.calls.issued[..s.calls.taken];
    }
  }

  lemma {:induction false} PendingIsIssuedInRuns(c: Config, trace: seq<System>, i: nat)
    requires StartsAfresh(c, trace) && i < |trace|
    ensures Shape(trace[i]) && PendingWasIssued(trace[i])
  {
    RunHasShape(c, trace, i);
    if i > 0 {
      PendingIsIssuedInRuns(c, trace, i - 1);
      assert StepAt(c, trace, i - 1);
      var s := trace[i - 1];
      var a :| Shape(s) && Enabled(c, s, a) && trace[i] == Do(c, s, a);
      match a {
        case RouterActs(router) => RouterKeepsIssued(c, s, router);
        case CallerActs(caller) => CallerKeepsIssued(s, caller);
        case _ =>
      }
    }
  }

  /** Only the expiry of a due request times it out, and only a stop closes the transport. */
  lemma RouterAddsNoOtherTimeout(c: Config, s: System, a: RouterAction, id: nat, name: string)
    requires Shape(s) && RouterEnabled(c, s, a)
    requires s.calls.taken < |s.calls.issued| && s.calls.issued[s.calls.taken].Request? ==>
               s.calls.issued[s.calls.taken].id !in s.routing.core.pending
    requires RequestTimedOut(name) in RepliesTo(RouterDoes(c, s, a).routing.core.replies, id)
    ensures || RequestTimedOut(name) in RepliesTo(s.routing.core.replies, id)
            || (a.Expires? && id in s.routing.core.pending
                && s.routing.core.pending[id].name == name && s.routing.core.pending[id].deadline <= a.now)
  {
    var core := s.routing.core;
    match a {
      case Expires(now) => ExpiryIsExact(core, now, id);
      case TakesCommand(written) =>
        match s.calls.issued[s.calls.taken] {
          case Request(x, request) => RequestIsTaken(core, x, request, c.maxPending, written, id);
          case SendFrame => FrameIsTaken(core, written); StopIsExact(core, id);
        }
      case Handles(written) =>
        HandleAddsNoTimeout(core, s.routing.hand.value.message, s.routing.hand.value.bytes, SendAnswer(c, s),
          written, id, name);
      case _ => StopIsExact(core, id);
    }
  }

  lemma HandleAddsNoTimeout(
    c: Core, m: Message, bytes: nat, outcome: SendOutcome, written: bool, id: nat, name: string)
    requires RequestTimedOut(name) in RepliesTo(Handle(c, m, bytes, outcome, written).replies, id)
    ensures RequestTimedOut(name) in RepliesTo(c.replies, id)
  {
    StopIsExact(c, id);
    if m.Success? || m.Failure? {
      ResponseIsHandled(c, m, bytes, outcome, written);
    } else {
      EventIsHandled(c, m, bytes, outcome, written);
    }
  }

  /** The request `id` was taken off the queue under that name and, at some expiry before state `i`,
      was pending and due. */
  ghost predicate WasDue(c: Config, trace: seq<System>, i: nat, id: nat, name: string)
    requires i < |trace|
  {
    exists j: nat, now: nat ::
      && j + 1 <= i && ExpiresAt(c, trace, j, now)
      && id in trace[j].routing.core.pending
      && trace[j].routing.core.pending[id].name == name && trace[j].routing.core.pending[id].deadline <= now
  }

  lemma TimedOutByAction(c: Config, s: System, a: Action, id: nat, name: string)
    requires Shape(s) && Enabled(c, s, a) && IdsUsedOnce(s.calls) && Answering(c, s.calls, s.routing.core)
    requires RequestTimedOut(name) in RepliesTo(Do(c, s, a).routing.core.replies, id)
    ensures || RequestTimedOut(name) in RepliesTo(s.routing.core.replies, id)
            || (a.RouterActs? && a.router.Expires? && id in s.routing.core.pending
                && s.routing.core.pending[id].name == name && s.routing.core.pending[id].deadline <= a.router.now)
  {
    if a.RouterActs? {
      NextIsNotPending(c, s);
      RouterAddsNoOtherTimeout(c, s, a.router, id, name);
    } else {
      assert Do(c, s, a).routing.core.replies == s.routing.core.replies;
    }
  }

  lemma RunHasUniqueIds(c: Config, trace: seq<System>, i: nat)
    requires StartsAfresh(c, trace) && i < |trace|
    ensures Shape(trace[i]) && IdsUsedOnce(trace[i].calls) && Answering(c, trace[i].calls, trace[i].routing.core)
  {
    InitiallyHolds(c);
    RunKeepsInv(c, trace, i);
  }

  lemma TimedOutByStep(c: Config, trace: seq<System>, i: nat, id: nat, name: string)
    requires StartsAfresh(c, trace) && i + 1 < |trace|
    requires RequestTimedOut(name) in RepliesTo(trace[i + 1].routing.core.replies, id)
    ensures RequestTimedOut(name) in RepliesTo(trace[i].routing.core.replies, id) || WasDue(c, trace, i + 1, id, name)
  {
    RunHasUniqueIds(c, trace, i);
    assert StepAt(c, trace, i);
    var a :| Shape(trace[i]) && Enabled(c, trace[i], a) && trace[i + 1] == Do(c, trace[i], a);
    TimedOutByAction(c, trace[i], a, id, name);
    if a.RouterActs? && a.router.Expires? {
      assert ExpiresAt(c, trace, i, a.router.now);
    }
  }

  // The next request to be taken is not pending yet.
  lemma NextIsNotPending(c: Config, s: System)
    requires Shape(s) && IdsUsedOnce(s.calls) && Answering(c, s.calls, s.routing.core)
    ensures s.calls.taken < |s.calls.issued| && s.calls.issued[s.calls.taken].Request? ==>
              s.calls.issued[s.calls.taken].id !in s.routing.core.pending
  {
    if s.calls.taken < |s.calls.issued| {
      TakeOneMore(s.calls);
    }
  }

  /** In every run a request is answered by a timeout only if it was pending under that name, and due
      at an expiry. */
  lemma {:induction false} TimeoutsAreDue(c: Config, trace: seq<System>, i: nat, id: nat, name: string)
    requires StartsAfresh(c, trace) && i < |trace|
    requires RequestTimedOut(name) in RepliesTo(trace[i].routing.core.replies, id)
    ensures WasDue(c, trace, i, id, name)
  {
    if i > 0 {
      TimedOutByStep(c, trace, i - 1, id, name);
      if RequestTimedOut(name) in RepliesTo(trace[i - 1].routing.core.replies, id) {
        TimeoutsAreDue(c, trace, i - 1, id, name);
        var j: nat, now: nat :|
          && j + 1 <= i - 1 && ExpiresAt(c, trace, j, now)
          && id in trace[j].routing.core.pending
          && trace[j].routing.core.pending[id].name == name && trace[j].routing.core.pending[id].deadline <= now;
        assert j + 1 <= i && ExpiresAt(c, trace, j, now);
      }
    }
  }

  // ----- the queues never exceed their capacities -----

  /** The reader's queue and, while the UI is there, the event queue. */
  predicate QueuesFit(c: Config, s: System) {
    && |s.link.offered| - s.link.consumed <= c.incomingCapacity
    && (s.ui.connected ==> |s.routing.core.accepted| - s.ui.seen <= c.eventCapacity)
  }

  lemma RouterKeepsQueues(c: Config, s: System, a: RouterAction)
    requires Shape(s) && RouterEnabled(c, s, a) && QueuesFit(c, s)
    ensures QueuesFit(c, RouterDoes(c, s, a))
  {
    match a {
      case Handles(written) =>
        match Judge(s.routing.core, s.routing.hand.value.message, SendAnswer(c, s), written) {
          case _ =>
        }
      case TakesCommand(written) =>
        match s.calls.issued[s.calls.taken] {
          case Request(_, _) =>
          case SendFrame =>
        }
      case _ =>
    }
  }

  lemma StepKeepsQueues(c: Config, s: System, next: System)
    requires Follows(c, s, next) && QueuesFit(c, s)
    ensures QueuesFit(c, next)
  {
    var a :| Shape(s) && Enabled(c, s, a) && next == Do(c, s, a);
    if a.RouterActs? {
      RouterKeepsQueues(c, s, a.router);
    }
  }

  lemma {:induction false} QueuesAreBounded(c: Config, trace: seq<System>, i: nat)
    requires StartsAfresh(c, trace) && i < |trace|
    ensures QueuesFit(c, trace[i])
  {
    if i > 0 {
      QueuesAreBounded(c, trace, i - 1);
      assert StepAt(c, trace, i - 1);
      StepKeepsQueues(c, trace[i - 1], trace[i]);
    }
  }
}
