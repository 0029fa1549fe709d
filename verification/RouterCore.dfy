/** The app-server router thread
    (crates/codex-platform/src/app_server.rs, `route_app_server` and its helpers):
    the pending-request table, the event queue, the drop counter and the process stdin. */
module RouterCore {

  import opened Wrappers

  /** Counters are 64-bit and saturate. */
  const COUNTER_MAX: nat := 0xFFFF_FFFF_FFFF_FFFF

  function SaturatingAdd(a: nat, b: nat): nat {
    if a + b > COUNTER_MAX then COUNTER_MAX else a + b
  }

  type Json = string

  /** A decoded server message. A response id is None when it is not an unsigned integer; a
      notification carries the answer of `NotificationMethods.RequiresResync` for its name. */
  datatype Message =
    | Success(id: Option<nat>, result: Json)
    | Failure(id: Option<nat>, code: int)
    | ServerRequest(requestId: Json, name: string, params: Json)
    | Notification(name: string, params: Json, requiresResync: bool)

  /** The notifications a client cannot miss without losing its place. */
  predicate Semantic(m: Message) {
    m.Notification? && m.requiresResync
  }

  predicate RequiresDelivery(m: Message) {
    m.Notification? ==> m.requiresResync
  }

  /** An event accepted by the bounded event queue, with the bytes its lease holds. */
  datatype Event =
    | Received(message: Message, bytes: nat)
    | NotificationsDropped(count: nat)
    | Disconnected

  datatype Pending = Pending(name: string, deadline: nat)

  datatype Outcome =
    | Answered(result: Json)
    | RequestFailed(code: int)
    | TooManyPendingRequests
    | RequestTimedOut(name: string)
    | WriteFailed
    | TransportClosed

  /** A frame written to the process. */
  datatype Written = RequestFrame(id: nat) | ClientFrame | OverloadError(requestId: Json)

  /** What a bounded channel answers to a send: a full queue at the timeout of `send_timeout`
      or at once for `try_send`, or a receiver that is gone. */
  datatype SendOutcome = Sent | Full | Closed

  datatype Core = Core(
    pending: map<nat, Pending>,
    replies: map<nat, seq<Outcome>>,
    accepted: seq<Event>,
    stdin: seq<Written>,
    dropped: nat,
    running: bool)

  // ----- replies, kept per request because a hash map is drained in no particular order -----

  function RepliesTo(replies: map<nat, seq<Outcome>>, id: nat): seq<Outcome> {
    if id in replies then replies[id] else []
  }

  function AddReply(replies: map<nat, seq<Outcome>>, id: nat, outcome: Outcome): map<nat, seq<Outcome>> {
    replies[id := RepliesTo(replies, id) + [outcome]]
  }

  function AddReplies(replies: map<nat, seq<Outcome>>, outcomes: map<nat, Outcome>): map<nat, seq<Outcome>> {
    map id | id in replies.Keys + outcomes.Keys ::
      RepliesTo(replies, id) + (if id in outcomes then [outcomes[id]] else [])
  }

  lemma NoReplyAdded(replies: map<nat, seq<Outcome>>)
    ensures AddReplies(replies, map[]) == replies
  {
    var same := AddReplies(replies, map[]);
    forall id | id in replies ensures same[id] == replies[id] {
      assert replies[id] + [] == replies[id];
    }
  }

  lemma OneReplyAdded(replies: map<nat, seq<Outcome>>, done: map<nat, Outcome>, id: nat, outcome: Outcome)
    requires id !in done
    ensures AddReply(AddReplies(replies, done), id, outcome) == AddReplies(replies, done[id := outcome])
  {
    var one := AddReply(AddReplies(replies, done), id, outcome);
    var all := AddReplies(replies, done[id := outcome]);
    assert one.Keys == all.Keys;
    forall x | x in one ensures one[x] == all[x] {
      if x == id {
        assert RepliesTo(replies, id) + [] == RepliesTo(replies, id);
      }
    }
  }

  // ----- specification of each step -----

  function Expired(pending: map<nat, Pending>, now: nat): map<nat, Outcome> {
    map id | id in pending && pending[id].deadline <= now :: RequestTimedOut(pending[id].name)
  }

  function Expire(c: Core, now: nat): Core {
    var expired := Expired(c.pending, now);
    c.(pending := c.pending - expired.Keys, replies := AddReplies(c.replies, expired))
  }

  /** The router stops: every pending request fails. */
  function Stop(c: Core): Core {
    var closed := map id | id in c.pending :: TransportClosed;
    c.(pending := map[], replies := AddReplies(c.replies, closed), running := false)
  }

  function CollectDrops(c: Core, fromReader: nat): Core {
    c.(dropped := SaturatingAdd(c.dropped, fromReader))
  }

  function PublishDrops(c: Core, outcome: SendOutcome): Core {
    if c.dropped != 0 && outcome.Sent?
    then c.(accepted := c.accepted + [NotificationsDropped(c.dropped)], dropped := 0)
    else c
  }

  function TakeRequest(c: Core, id: nat, request: Pending, maxPending: nat, written: bool): Core {
    if |c.pending| >= maxPending then
      c.(replies := AddReply(c.replies, id, TooManyPendingRequests))
    else if written then
      c.(pending := c.pending[id := request], stdin := c.stdin + [RequestFrame(id)])
    else
      Stop(c.(pending := c.pending - {id}, replies := AddReply(c.replies, id, WriteFailed)))
  }

  function TakeFrame(c: Core, written: bool): Core {
    if written then c.(stdin := c.stdin + [ClientFrame]) else Stop(c)
  }

  /** What becomes of a message the router handles. */
  datatype Verdict =
    | Answers(id: nat, answer: Outcome)
    | Discards
    | Queues
    | RefusesRequest(requestId: Json)
    | CountsDrop
    | Stops

  /** `outcome` is what the event queue answered, `written` whether an overload error could be
      encoded and written. */
  function Judge(c: Core, m: Message, outcome: SendOutcome, written: bool): Verdict {
    match m
    case Success(id, result) => JudgeResponse(c, id, Answered(result))
    case Failure(id, code) => JudgeResponse(c, id, RequestFailed(code))
    case ServerRequest(requestId, _, _) =>
      if outcome.Sent? then Queues else if written then RefusesRequest(requestId) else Stops
    case Notification(_, _, requiresResync) =>
      if outcome.Sent? then Queues
      else if outcome.Closed? || requiresResync then Stops
      else CountsDrop
  }

  function JudgeResponse(c: Core, id: Option<nat>, answer: Outcome): Verdict {
    if id.None? then Stops else if id.value in c.pending then Answers(id.value, answer) else Discards
  }

  function Carry(c: Core, m: Message, bytes: nat, verdict: Verdict): Core {
    match verdict
    case Answers(id, answer) => c.(pending := c.pending - {id}, replies := AddReply(c.replies, id, answer))
    case Discards => c
    case Queues => c.(accepted := c.accepted + [Received(m, bytes)])
    case RefusesRequest(requestId) => c.(stdin := c.stdin + [OverloadError(requestId)])
    case CountsDrop => c.(dropped := SaturatingAdd(c.dropped, 1))
    case Stops => Stop(c)
  }

  /** Handling one server message. */
  function Handle(c: Core, m: Message, bytes: nat, outcome: SendOutcome, written: bool): Core {
    Carry(c, m, bytes, Judge(c, m, outcome, written))
  }

  /** What is published before a message is handled. */
  function BeforeMessage(c: Core, m: Message, published: SendOutcome): Core {
    if m.Notification? then PublishDrops(c, published) else c
  }

  // ----- every request taken is pending without a reply, or was answered exactly once -----

  ghost predicate Accounted(c: Core, took: set<nat>) {
    && c.pending.Keys <= took
    && forall id :: |RepliesTo(c.replies, id)| == if id in took && id !in c.pending then 1 else 0
  }

  lemma RepliesAdded(replies: map<nat, seq<Outcome>>, outcomes: map<nat, Outcome>, id: nat)
    ensures RepliesTo(AddReplies(replies, outcomes), id) ==
            RepliesTo(replies, id) + (if id in outcomes then [outcomes[id]] else [])
  {
    if id !in replies && id !in outcomes {
      assert id !in AddReplies(replies, outcomes);
    }
  }

  lemma ExpireAccounts(c: Core, now: nat, took: set<nat>)
    requires Accounted(c, took)
    ensures Accounted(Expire(c, now), took)
  {
    forall id ensures var after := Expire(c, now);
                      |RepliesTo(after.replies, id)| == if id in took && id !in after.pending then 1 else 0 {
      RepliesAdded(c.replies, Expired(c.pending, now), id);
    }
  }

  lemma StopAccounts(c: Core, took: set<nat>)
    requires Accounted(c, took)
    ensures Accounted(Stop(c), took)
  {
    var closed := map id | id in c.pending :: TransportClosed;
    forall id ensures var after := Stop(c);
                      |RepliesTo(after.replies, id)| == if id in took && id !in after.pending then 1 else 0 {
      RepliesAdded(c.replies, closed, id);
    }
  }

  lemma TakeRequestAccounts(c: Core, id: nat, request: Pending, maxPending: nat, written: bool, took: set<nat>)
    requires Accounted(c, took) && id !in took
    ensures Accounted(TakeRequest(c, id, request, maxPending, written), took + {id})
  {
    if |c.pending| < maxPending && !written {
      StopAccounts(c.(pending := c.pending - {id}, replies := AddReply(c.replies, id, WriteFailed)), took + {id});
    }
  }

  lemma HandleAccounts(c: Core, m: Message, bytes: nat, outcome: SendOutcome, written: bool, took: set<nat>)
    requires Accounted(c, took)
    ensures Accounted(Handle(c, m, bytes, outcome, written), took)
  {
    match Judge(c, m, outcome, written) {
      case Stops => StopAccounts(c, took);
      case _ =>
    }
  }

  // A response to a request that was already answered, by a timeout for one, changes nothing.
  lemma LateResponseIsDiscarded(c: Core, m: Message, bytes: nat, outcome: SendOutcome, written: bool, took: set<nat>)
    requires Accounted(c, took) && (m.Success? || m.Failure?) && m.id.Some?
    requires RepliesTo(c.replies, m.id.value) != []
    ensures Handle(c, m, bytes, outcome, written) == c
  {
  }

  // ----- the router thread, updating its tables in place -----

  /** One reply to each of the given requests, in the arbitrary order of a hash map. */
  method SendReplies(before: map<nat, seq<Outcome>>, outcomes: map<nat, Outcome>)
    returns (replies: map<nat, seq<Outcome>>)
    ensures replies == AddReplies(before, outcomes)
  {
    replies := before;
    var left := outcomes.Keys;
    ghost var done: map<nat, Outcome> := map[];
    NoReplyAdded(before);
    while left != {}
      invariant left <= outcomes.Keys && done.Keys == outcomes.Keys - left
      invariant forall id :: id in done ==> done[id] == outcomes[id]
      invariant replies == AddReplies(before, done)
      decreases |left|
    {
      var id :| id in left;
      left := left - {id};
      OneReplyAdded(before, done, id, outcomes[id]);
      replies := AddReply(replies, id, outcomes[id]);
      done := done[id := outcomes[id]];
    }
    assert done == outcomes;
  }

  class Router {
    const maxPending: nat
    var pending: map<nat, Pending>
    var replies: map<nat, seq<Outcome>>
    var accepted: seq<Event>
    var stdin: seq<Written>
    var dropped: nat
    var running: bool

    ghost function State(): Core
      reads this
    {
      Core(pending, replies, accepted, stdin, dropped, running)
    }

    constructor (maxPending: nat)
      ensures this.maxPending == maxPending
      ensures State() == Core(map[], map[], [], [], 0, true)
    {
      this.maxPending := maxPending;
      pending, replies, accepted, stdin, dropped, running := map[], map[], [], [], 0, true;
    }

    method ExpirePendingRequests(now: nat)
      modifies this`pending, this`replies
      ensures State() == Expire(old(State()), now)
    {
      var expired := map id | id in pending && pending[id].deadline <= now :: RequestTimedOut(pending[id].name);
      pending := pending - expired.Keys;
      replies := SendReplies(replies, expired);
    }

    method FailPendingRequests()
      modifies this`pending, this`replies
      ensures pending == map[]
      ensures replies == AddReplies(old(replies), map id | id in old(pending) :: TransportClosed)
    {
      var drained := map id | id in pending :: TransportClosed;
      pending := map[];
      replies := SendReplies(replies, drained);
    }

    method FailAndStop()
      modifies this
      ensures State() == Stop(old(State()))
    {
      FailPendingRequests();
      running := false;
    }

    method PublishDropCount(outcome: SendOutcome)
      modifies this`accepted, this`dropped
      ensures State() == PublishDrops(old(State()), outcome)
    {
      if dropped == 0 {
        return;
      }
      if outcome.Sent? {
        accepted := accepted + [NotificationsDropped(dropped)];
        dropped := 0;
      }
    }

    method RouteRequest(id: nat, request: Pending, written: bool)
      modifies this
      ensures State() == TakeRequest(old(State()), id, request, maxPending, written)
    {
      if |pending| >= maxPending {
        replies := AddReply(replies, id, TooManyPendingRequests);
        return;
      }
      ghost var before := pending;
      pending := pending[id := request];
      if written {
        stdin := stdin + [RequestFrame(id)];
      } else {
        pending := pending - {id};
        assert pending == before - {id};
        replies := AddReply(replies, id, WriteFailed);
        FailAndStop();
      }
    }

    method RouteFrame(written: bool)
      modifies this
      ensures State() == TakeFrame(old(State()), written)
    {
      if written {
        stdin := stdin + [ClientFrame];
      } else {
        FailAndStop();
      }
    }

    method PublishNotification(m: Message, bytes: nat, outcome: SendOutcome) returns (ok: bool)
      requires m.Notification?
      modifies this`accepted, this`dropped
      ensures ok <==> outcome.Sent? || (outcome.Full? && !m.requiresResync)
      ensures accepted == old(accepted) + (if outcome.Sent? then [Received(m, bytes)] else [])
      ensures dropped == if ok && !outcome.Sent? then SaturatingAdd(old(dropped), 1) else old(dropped)
    {
      if m.requiresResync {
        if outcome.Sent? {
          accepted := accepted + [Received(m, bytes)];
        }
        return outcome.Sent?;
      }
      match outcome {
        case Sent =>
          accepted := accepted + [Received(m, bytes)];
          ok := true;
        case Full =>
          dropped := SaturatingAdd(dropped, 1);
          ok := true;
        case Closed =>
          ok := false;
      }
    }

    /** A notification is preceded by the drop count, if one is due; `published` is what the event
        queue answered to that. */
    method HandleNotification(m: Message, bytes: nat, published: SendOutcome, outcome: SendOutcome) returns (ok: bool)
      requires m.Notification?
      modifies this`accepted, this`dropped
      ensures var c := PublishDrops(old(State()), published);
              && (ok <==> outcome.Sent? || (outcome.Full? && !m.requiresResync))
              && accepted == c.accepted + (if outcome.Sent? then [Received(m, bytes)] else [])
              && dropped == if ok && !outcome.Sent? then SaturatingAdd(c.dropped, 1) else c.dropped
    {
      PublishDropCount(published);
      ok := PublishNotification(m, bytes, outcome);
    }

    /** A response goes to the request that waits for it, if there is one; its id must be a number. */
    method AnswerPending(id: Option<nat>, answer: Outcome) returns (ok: bool)
      modifies this`pending, this`replies
      ensures ok <==> id.Some?
      ensures var known := id.Some? && id.value in old(pending);
              && pending == (if known then old(pending) - {id.value} else old(pending))
              && replies == (if known then AddReply(old(replies), id.value, answer) else old(replies))
    {
      ok := id.Some?;
      if ok && id.value in pending {
        pending := pending - {id.value};
        replies := AddReply(replies, id.value, answer);
      }
    }

    method HandleRoutedMessage(m: Message, bytes: nat, published: SendOutcome, outcome: SendOutcome, written: bool)
      modifies this
      ensures State() == Handle(BeforeMessage(old(State()), m, published), m, bytes, outcome, written)
    {
      var ok := true;
      match m {
        case Success(id, result) =>
          ok := AnswerPending(id, Answered(result));
        case Failure(id, code) =>
          ok := AnswerPending(id, RequestFailed(code));
        case ServerRequest(requestId, _, _) =>
          if outcome.Sent? {
            accepted := accepted + [Received(m, bytes)];
          } else if written {
            stdin := stdin + [OverloadError(requestId)];
          } else {
            ok := false;
          }
        case Notification(_, _, _) =>
          ok := HandleNotification(m, bytes, published, outcome);
      }
      if !ok {
        FailAndStop();
      }
    }
  }
}

/** Which notifications require a resync when lost. */
module NotificationMethods {

  import opened RouterCore

  predicate RequiresResync(name: string) {
    name in [
      "turn/started", "item/started", "item/agentMessage/delta", "item/plan/delta",
      "item/reasoning/summaryTextDelta", "item/reasoning/textDelta",
      "item/commandExecution/outputDelta", "item/fileChange/outputDelta",
      "item/completed", "turn/completed", "thread/goal/updated", "thread/goal/cleared",
      "thread/status/changed", "account/login/completed",
      "externalAgentConfig/import/completed", "remoteControl/status/changed"]
  }

  function Decoded(name: string, params: Json): Message {
    Notification(name, params, RequiresResync(name))
  }
}
